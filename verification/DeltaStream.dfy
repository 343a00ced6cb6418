/** desktop/lib/shannon/stream.ts: the buffer that collects text deltas until the next animation
    frame and hands them to the reducer. */
module DeltaStream {
  import opened Text
  import opened RunSlice

  // ---------------------------------------------------------------- data

  /** One entry of the buffer: the deltas of a stream since the last flush. `streamId` is the
      field of the first event, empty when it had none; `key` is the map key. */
  datatype Slot = Slot(key: string, wf: string, agent: string, streamId: string,
                       parts: seq<Part>, metadata: Option<Meta>)

  datatype Dispatch =
    | Deltas(slot: Slot)
    | Plain(e: Event)

  datatype Input =
    | Skipped
    | DeltaIn(wf: string, agent: string, streamId: Option<string>, part: Part, metadata: Option<Meta>, clock: nat)
    | OtherIn(e: Event)
    | FrameFires(handle: nat)
    | ConnectionError(wf: string)
    | StreamDone(wf: string)
    | Cleanup

  /** `buffer` lists the map entries in insertion order. `frames` are the animation frames that
      are still going to fire, `frame` the one the hook remembers, `log` what was dispatched. */
  datatype StreamState = StreamState(
    buffer: seq<Slot>, frame: Option<nat>, frames: set<nat>, nextFrame: nat, log: seq<Dispatch>)

  const NOTHING_BUFFERED := StreamState([], None, {}, 1, [])

  // ---------------------------------------------------------------- specification

  function BufferKey(streamId: Option<string>, part: Part, clock: nat): string {
    if streamId.Some? then streamId.value
    else if part.seqNo.Some? then "seq-" + PrintInt(part.seqNo.value)
    else "msg-" + PrintNat(clock)
  }

  function SlotIndex(buffer: seq<Slot>, key: string): (i: nat)
    ensures i <= |buffer|
    ensures i < |buffer| ==> buffer[i].key == key
    ensures forall k :: 0 <= k < i ==> buffer[k].key != key
  {
    if buffer == [] || buffer[0].key == key then 0 else 1 + SlotIndex(buffer[1..], key)
  }

  function Buffered(buffer: seq<Slot>, d: Input): seq<Slot>
    requires d.DeltaIn?
  {
    var key := BufferKey(d.streamId, d.part, d.clock);
    var i := SlotIndex(buffer, key);
    if i < |buffer| then
      buffer[i := buffer[i].(parts := buffer[i].parts + [d.part],
                             metadata := MergeMeta(buffer[i].metadata, d.metadata))]
    else
      buffer + [Slot(key, d.wf, d.agent, if d.streamId.Some? then d.streamId.value else "",
                     [d.part], d.metadata)]
  }

  /** What a flush dispatches. */
  function Outgoing(buffer: seq<Slot>): seq<Dispatch> {
    if buffer == [] then []
    else (if buffer[0].parts == [] then [] else [Deltas(buffer[0])]) + Outgoing(buffer[1..])
  }

  /** A flush forgets the remembered frame but does not cancel it. */
  function Flush(s: StreamState): StreamState {
    s.(buffer := [], frame := None, log := s.log + Outgoing(s.buffer))
  }

  function FlushIfNeeded(s: StreamState): StreamState { if s.buffer == [] then s else Flush(s) }

  function Logged(s: StreamState, e: Event): StreamState { s.(log := s.log + [Plain(e)]) }

  function Receive(s: StreamState, x: Input): StreamState {
    match x
    case Skipped => s
    case DeltaIn(_, _, _, _, _, _) =>
      var s := s.(buffer := Buffered(s.buffer, x));
      if s.frame.Some? then s
      else s.(frame := Some(s.nextFrame), frames := s.frames + {s.nextFrame}, nextFrame := s.nextFrame + 1)
    case OtherIn(e) => Logged(FlushIfNeeded(s), e)
    case FrameFires(h) => if h in s.frames then Flush(s.(frames := s.frames - {h})) else s
    case ConnectionError(wf) => Logged(FlushIfNeeded(s), Event(wf, "", false, StreamError))
    case StreamDone(wf) => Logged(FlushIfNeeded(s), Event(wf, "", false, StreamEnd))
    case Cleanup =>
      FlushIfNeeded(if s.frame.Some? then s.(frames := s.frames - {s.frame.value}, frame := None) else s)
  }

  function ReceiveAll(s: StreamState, xs: seq<Input>): StreamState
    decreases xs
  {
    if xs == [] then s else ReceiveAll(Receive(s, xs[0]), xs[1..])
  }

  // ---------------------------------------------------------------- the hook

  /** The mutable refs of the hook; `log` stands for the calls to `dispatch`. */
  class StreamHook {
    var buffer: seq<Slot>
    var frame: Option<nat>
    var frames: set<nat>
    var nextFrame: nat
    var log: seq<Dispatch>

    function State(): StreamState
      reads this
    {
      StreamState(buffer, frame, frames, nextFrame, log)
    }

    constructor ()
      ensures State() == NOTHING_BUFFERED
    {
      buffer, frame, frames, nextFrame, log := [], None, {}, 1, [];
    }

    method FlushDeltaBuffer()
      modifies this
      ensures State() == Flush(old(State()))
    {
      var i := 0;
      while i < |buffer|
        invariant 0 <= i <= |buffer|
        invariant buffer == old(buffer) && frames == old(frames) && nextFrame == old(nextFrame)
        invariant log + Outgoing(buffer[i..]) == old(log) + Outgoing(buffer)
      {
        assert buffer[i..][1..] == buffer[i + 1..];
        if buffer[i].parts != [] {
          log := log + [Deltas(buffer[i])];
        }
        i := i + 1;
      }
      buffer := [];
      frame := None;
    }

    method HandleDelta(d: Input)
      requires d.DeltaIn?
      modifies this
      ensures State() == Receive(old(State()), d)
    {
      var key := BufferKey(d.streamId, d.part, d.clock);
      var i := SlotIndex(buffer, key);
      if i < |buffer| {
        var slot := buffer[i];
        slot := slot.(parts := slot.parts + [d.part]);
        if d.metadata.Some? {
          slot := slot.(metadata := MergeMeta(slot.metadata, d.metadata));
        }
        buffer := buffer[i := slot];
      } else {
        var streamId := if d.streamId.Some? then d.streamId.value else "";
        buffer := buffer + [Slot(key, d.wf, d.agent, streamId, [d.part], d.metadata)];
      }
      if frame.None? {
        frame := Some(nextFrame);
        frames := frames + {nextFrame};
        nextFrame := nextFrame + 1;
      }
    }

    method DispatchAfterFlush(e: Event)
      modifies this
      ensures State() == Logged(FlushIfNeeded(old(State())), e)
    {
      if buffer != [] {
        FlushDeltaBuffer();
      }
      log := log + [Plain(e)];
    }

    method Handle(x: Input)
      modifies this
      ensures State() == Receive(old(State()), x)
    {
      match x
      case Skipped =>
      case DeltaIn(_, _, _, _, _, _) => HandleDelta(x);
      case OtherIn(e) => DispatchAfterFlush(e);
      case FrameFires(h) =>
        if h in frames {
          frames := frames - {h};
          FlushDeltaBuffer();
        }
      case ConnectionError(wf) => DispatchAfterFlush(Event(wf, "", false, StreamError));
      case StreamDone(wf) => DispatchAfterFlush(Event(wf, "", false, StreamEnd));
      case Cleanup =>
        if frame.Some? {
          frames := frames - {frame.value};
          frame := None;
        }
        if buffer != [] {
          FlushDeltaBuffer();
        }
    }
  }

  // ---------------------------------------------------------------- conservation

  /** The deltas received for a buffer key, in order of arrival. */
  function Received(xs: seq<Input>, key: string): seq<Part> {
    if xs == [] then [] else ReceivedOne(xs[0], key) + Received(xs[1..], key)
  }

  function ReceivedOne(x: Input, key: string): seq<Part> {
    if x.DeltaIn? && BufferKey(x.streamId, x.part, x.clock) == key then [x.part] else []
  }

  function Held(buffer: seq<Slot>, key: string): seq<Part> {
    if buffer == [] then []
    else (if buffer[0].key == key then buffer[0].parts else []) + Held(buffer[1..], key)
  }

  function Sent(log: seq<Dispatch>, key: string): seq<Part> {
    if log == [] then []
    else (if log[0].Deltas? && log[0].slot.key == key then log[0].slot.parts else []) + Sent(log[1..], key)
  }

  /** Keys are unique, no slot is empty, and a non-empty buffer has its flush scheduled. */
  ghost predicate Scheduled(s: StreamState) {
    && (forall i, j :: 0 <= i < j < |s.buffer| ==> s.buffer[i].key != s.buffer[j].key)
    && (forall i :: 0 <= i < |s.buffer| ==> s.buffer[i].parts != [])
    && (forall h <- s.frames :: h < s.nextFrame)
    && (s.buffer != [] ==> s.frame.Some?)
    && (s.frame.Some? ==> s.frame.value in s.frames)
  }

  lemma {:induction false} SentConcat(a: seq<Dispatch>, b: seq<Dispatch>, key: string)
    ensures Sent(a + b, key) == Sent(a, key) + Sent(b, key)
  {
    if a == [] {
      assert a + b == b;
    } else {
      assert (a + b)[1..] == a[1..] + b;
      SentConcat(a[1..], b, key);
    }
  }

  lemma {:induction false} OutgoingSends(buffer: seq<Slot>, key: string)
    ensures Sent(Outgoing(buffer), key) == Held(buffer, key)
  {
    if buffer != [] {
      OutgoingSends(buffer[1..], key);
      var first := if buffer[0].parts == [] then [] else [Deltas(buffer[0])];
      SentConcat(first, Outgoing(buffer[1..]), key);
      if buffer[0].parts != [] { assert first[1..] == []; }
    }
  }

  lemma {:induction false} HeldAbsent(buffer: seq<Slot>, key: string)
    requires forall i :: 0 <= i < |buffer| ==> buffer[i].key != key
    ensures Held(buffer, key) == []
  {
    if buffer != [] { HeldAbsent(buffer[1..], key); }
  }

  lemma {:induction false} HeldAt(buffer: seq<Slot>, i: nat, key: string)
    requires i < |buffer| && forall j :: 0 <= j < |buffer| ==> (buffer[j].key == key <==> j == i)
    ensures Held(buffer, key) == buffer[i].parts
  {
    if i == 0 {
      HeldAbsent(buffer[1..], key);
    } else {
      HeldAt(buffer[1..], i - 1, key);
    }
  }

  lemma {:induction false} HeldOther(buffer: seq<Slot>, i: nat, slot: Slot, key: string)
    requires i < |buffer| && buffer[i].key == slot.key != key
    ensures Held(buffer[i := slot], key) == Held(buffer, key)
  {
    if i == 0 {
      assert buffer[i := slot][1..] == buffer[1..];
    } else {
      assert buffer[i := slot][1..] == buffer[1..][i - 1 := slot];
      HeldOther(buffer[1..], i - 1, slot, key);
    }
  }

  lemma {:induction false} HeldAppend(buffer: seq<Slot>, slot: Slot, key: string)
    ensures Held(buffer + [slot], key) == Held(buffer, key) + if slot.key == key then slot.parts else []
  {
    if buffer == [] {
      assert [slot][1..] == [];
      assert buffer + [slot] == [slot];
    } else {
      assert (buffer + [slot])[1..] == buffer[1..] + [slot];
      HeldAppend(buffer[1..], slot, key);
    }
  }

  lemma BufferedHolds(s: StreamState, d: Input, key: string)
    requires Scheduled(s) && d.DeltaIn?
    ensures Held(Buffered(s.buffer, d), key) == Held(s.buffer, key) + ReceivedOne(d, key)
  {
    var k := BufferKey(d.streamId, d.part, d.clock);
    var i := SlotIndex(s.buffer, k);
    var after := Buffered(s.buffer, d);
    if i < |s.buffer| {
      if k == key {
        HeldAt(s.buffer, i, key);
        HeldAt(after, i, key);
      } else {
        HeldOther(s.buffer, i, after[i], key);
      }
    } else {
      HeldAppend(s.buffer, after[i], key);
    }
  }

  /** All deltas of a key that were dispatched or are still held. */
  function Kept(s: StreamState, key: string): seq<Part> { Sent(s.log, key) + Held(s.buffer, key) }

  lemma FlushConserves(s: StreamState, key: string)
    ensures Sent(Flush(s).log, key) == Kept(s, key)
    ensures Kept(Flush(s), key) == Kept(s, key)
    ensures Sent(FlushIfNeeded(s).log, key) == Kept(FlushIfNeeded(s), key) == Kept(s, key)
  {
    SentConcat(s.log, Outgoing(s.buffer), key);
    OutgoingSends(s.buffer, key);
  }

  lemma LoggedKeeps(s: StreamState, e: Event, key: string)
    ensures Kept(Logged(s, e), key) == Kept(s, key)
  {
    var last := [Plain(e)];
    SentConcat(s.log, last, key);
    assert last[1..] == [];
  }

  lemma StepKeepsSchedule(s: StreamState, x: Input)
    requires Scheduled(s)
    ensures Scheduled(Receive(s, x))
  {
    if x.DeltaIn? { BufferedIsKeyed(s, x); }
  }

  lemma BufferedIsKeyed(s: StreamState, d: Input)
    requires Scheduled(s) && d.DeltaIn?
    ensures var b := Buffered(s.buffer, d);
            && b != []
            && (forall i, j :: 0 <= i < j < |b| ==> b[i].key != b[j].key)
            && (forall i :: 0 <= i < |b| ==> b[i].parts != [])
  {
  }

  lemma StepConserves(s: StreamState, x: Input, key: string)
    requires Scheduled(s)
    ensures Kept(Receive(s, x), key) == Kept(s, key) + ReceivedOne(x, key)
  {
    if x.DeltaIn? {
      DeltaConserves(s, x, key);
    } else {
      assert Kept(s, key) + [] == Kept(s, key);
      QuietStepConserves(s, x, key);
    }
  }

  lemma DeltaConserves(s: StreamState, x: Input, key: string)
    requires Scheduled(s) && x.DeltaIn?
    ensures Kept(Receive(s, x), key) == Kept(s, key) + ReceivedOne(x, key)
  {
    BufferedHolds(s, x, key);
    assert Kept(Receive(s, x), key) == Sent(s.log, key) + (Held(s.buffer, key) + ReceivedOne(x, key));
  }

  lemma QuietStepConserves(s: StreamState, x: Input, key: string)
    requires !x.DeltaIn?
    ensures Kept(Receive(s, x), key) == Kept(s, key)
  {
    FlushConserves(s, key);
    match x
    case Skipped =>
    case OtherIn(e) => LoggedKeeps(FlushIfNeeded(s), e, key);
    case FrameFires(h) => FlushConserves(s.(frames := s.frames - {h}), key);
    case ConnectionError(wf) => LoggedKeeps(FlushIfNeeded(s), EventOf(x), key);
    case StreamDone(wf) => LoggedKeeps(FlushIfNeeded(s), EventOf(x), key);
    case Cleanup =>
      if s.frame.Some? { FlushConserves(s.(frames := s.frames - {s.frame.value}, frame := None), key); }
  }

  lemma {:induction false} RunKeepsSchedule(s: StreamState, xs: seq<Input>)
    requires Scheduled(s)
    ensures Scheduled(ReceiveAll(s, xs))
    decreases xs
  {
    if xs != [] {
      StepKeepsSchedule(s, xs[0]);
      RunKeepsSchedule(Receive(s, xs[0]), xs[1..]);
    }
  }

  lemma Regroup(all: seq<Part>, kept: seq<Part>, a: seq<Part>, b: seq<Part>)
    requires all == (kept + a) + b
    ensures all == kept + (a + b)
  {
  }

  lemma {:induction false} RunConserves(s: StreamState, xs: seq<Input>, key: string)
    requires Scheduled(s)
    ensures Kept(ReceiveAll(s, xs), key) == Kept(s, key) + Received(xs, key)
    decreases xs
  {
    if xs == [] {
      assert Kept(s, key) + [] == Kept(s, key);
    } else {
      StepKeepsSchedule(s, xs[0]);
      StepConserves(s, xs[0], key);
      RunConserves(Receive(s, xs[0]), xs[1..], key);
      Regroup(Kept(ReceiveAll(Receive(s, xs[0]), xs[1..]), key), Kept(s, key),
              ReceivedOne(xs[0], key), Received(xs[1..], key));
    }
  }

  /** Over any run every delta is dispatched exactly once and in its stream's order, except the
      ones still held; a held delta always has the frame that will dispatch it. */
  lemma DeltasAreConserved(xs: seq<Input>, key: string)
    ensures var t := ReceiveAll(NOTHING_BUFFERED, xs);
            && Sent(t.log, key) + Held(t.buffer, key) == Received(xs, key)
            && (Held(t.buffer, key) != [] ==> t.frame.Some? && t.frame.value in t.frames)
  {
    RunConserves(NOTHING_BUFFERED, xs, key);
    RunKeepsSchedule(NOTHING_BUFFERED, xs);
    assert Kept(NOTHING_BUFFERED, key) == [];
    assert [] + Received(xs, key) == Received(xs, key);
  }

  lemma {:induction false} ReceiveAllConcat(s: StreamState, xs: seq<Input>, ys: seq<Input>)
    ensures ReceiveAll(s, xs + ys) == ReceiveAll(ReceiveAll(s, xs), ys)
    decreases xs
  {
    if xs == [] {
      assert xs + ys == ys;
    } else {
      assert (xs + ys)[1..] == xs[1..] + ys;
      ReceiveAllConcat(Receive(s, xs[0]), xs[1..], ys);
    }
  }

  /** When the remembered frame fires nothing is held any more. */
  lemma FrameDrains(xs: seq<Input>, key: string)
    ensures var t := ReceiveAll(NOTHING_BUFFERED, xs);
            t.frame.Some? ==>
              Sent(ReceiveAll(NOTHING_BUFFERED, xs + [FrameFires(t.frame.value)]).log, key) == Received(xs, key)
  {
    DeltasAreConserved(xs, key);
    RunConserves(NOTHING_BUFFERED, xs, key);
    var t := ReceiveAll(NOTHING_BUFFERED, xs);
    if t.frame.Some? {
      var x := FrameFires(t.frame.value);
      ReceiveAllConcat(NOTHING_BUFFERED, xs, [x]);
      assert [x][1..] == [];
      FlushConserves(t.(frames := t.frames - {t.frame.value}), key);
    }
  }

  predicate Interrupts(x: Input) { x.OtherIn? || x.ConnectionError? || x.StreamDone? }

  function EventOf(x: Input): Event
    requires Interrupts(x)
  {
    match x
    case OtherIn(e) => e
    case ConnectionError(wf) => Event(wf, "", false, StreamError)
    case StreamDone(wf) => Event(wf, "", false, StreamEnd)
  }

  /** Any other event, a connection error and the end of the stream are dispatched after all
      deltas received before them. So a reconnect starts with nothing held. */
  lemma DeltasPrecedeOtherEvents(xs: seq<Input>, x: Input, key: string)
    requires Interrupts(x)
    ensures var t := ReceiveAll(NOTHING_BUFFERED, xs + [x]);
            && t.buffer == []
            && |t.log| > 0 && t.log[|t.log| - 1] == Plain(EventOf(x))
            && Sent(t.log[..|t.log| - 1], key) == Received(xs, key)
  {
    DeltasAreConserved(xs, key);
    ReceiveAllConcat(NOTHING_BUFFERED, xs, [x]);
    var s := ReceiveAll(NOTHING_BUFFERED, xs);
    assert [x][1..] == [];
    FlushConserves(s, key);
    var t := Receive(s, x);
    assert t == Logged(FlushIfNeeded(s), EventOf(x));
    assert t.log[..|t.log| - 1] == FlushIfNeeded(s).log;
  }

  // ---------------------------------------------------------------- keys and frames

  /** Deltas without a stream id are buffered apart when their numbers differ, and apart from those
      without a number. */
  lemma BufferKeysDiffer(p: Part, q: Part, a: nat, b: nat)
    requires p.seqNo.Some? && p.seqNo != q.seqNo
    ensures BufferKey(None, p, a) != BufferKey(None, q, b)
  {
    var x, y := BufferKey(None, p, a), BufferKey(None, q, b);
    assert x[..4] == "seq-" && x[4..] == PrintInt(p.seqNo.value);
    if q.seqNo.Some? {
      assert y[4..] == PrintInt(q.seqNo.value);
      PrintsApart(p.seqNo.value, q.seqNo.value);
    } else {
      assert x[0] == 's' && y[0] == 'm';
    }
  }

  /** The inputs between two stretches of deltas. */
  function Breaks(xs: seq<Input>): nat {
    if xs == [] then 0 else (if xs[0].DeltaIn? || xs[0].Skipped? then 0 else 1) + Breaks(xs[1..])
  }

  /** A frame is requested at most once for every stretch of deltas: not while one is remembered. */
  lemma {:induction false} OneFramePerStretch(s: StreamState, xs: seq<Input>)
    ensures ReceiveAll(s, xs).nextFrame <= s.nextFrame + Breaks(xs) + if s.frame.Some? then 0 else 1
    decreases xs
  {
    if xs != [] { OneFramePerStretch(Receive(s, xs[0]), xs[1..]); }
  }

  /** A frame fires once. */
  lemma FiredFrameIsGone(s: StreamState, h: nat)
    requires h in s.frames
    ensures Receive(s, FrameFires(h)).frames == s.frames - {h} && Receive(s, FrameFires(h)).frame.None?
  {
  }

  /** An unmount cancels the remembered frame and no other. */
  lemma UnmountCancels(s: StreamState)
    ensures var after := Receive(s, Cleanup);
            && after.frame.None? && after.buffer == []
            && forall h :: h in after.frames <==> h in s.frames && s.frame != Some(h)
  {
  }
}
