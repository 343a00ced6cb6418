/** The buffer and the reducer together: one stream received with repeats over several
    connections, coalesced frame by frame and interleaved with other events, shows its text
    exactly once. */
module EndToEnd {
  import opened Text
  import opened MessageFilter
  import opened RunSlice
  import opened RunSliceReplay
  import opened DeltaTheorems
  import opened DeltaStream
  import opened OpenMessage
  import Invariant = RunSliceInvariant

  // ---------------------------------------------------------------- statement

  predicate OwnDelta(x: Input, src: Source) {
    x.DeltaIn? && x.wf == src.wf && x.agent == src.agent && x.streamId == Some(src.key)
  }

  /** A delta of another stream, by the time its batch is reduced. */
  predicate ForeignDelta(x: Input, src: Source, clock: nat)
    requires x.DeltaIn?
  {
    && BufferKey(x.streamId, x.part, x.clock) != src.key
    && Foreign(Event(x.wf, x.agent, false, Delta([], if x.streamId.Some? then x.streamId.value else "", None, clock)), src)
  }

  /** The inputs a run may consist of. */
  predicate Regards(x: Input, src: Source, clock: nat) {
    match x
    case DeltaIn(_, _, _, _, metadata, _) =>
      if OwnDelta(x, src) then src.unmarked ==> !Marked(metadata)
      else ForeignDelta(x, src, clock)
    case OtherIn(e) => Foreign(e, src)
    case _ => true
  }

  function Entries(xs: seq<Input>, src: Source): seq<Entry> {
    if xs == [] then []
    else (if OwnDelta(xs[0], src) then [Entry(xs[0].part, xs[0].metadata)] else []) + Entries(xs[1..], src)
  }

  /** One connection delivers no number of the stream twice: repeats come only after a reconnect, or
      after an unmount and a new mount. */
  predicate NoRepeatPerConnection(sofar: seq<int>, xs: seq<Input>, src: Source)
    decreases xs
  {
    xs == []
    || (if OwnDelta(xs[0], src) then
          Unprocessed(xs[0].part, sofar) && NoRepeatPerConnection(Seen(sofar, xs[0].part), xs[1..], src)
        else NoRepeatPerConnection(AfterInput(sofar, xs[0]), xs[1..], src))
  }

  function AfterInput(sofar: seq<int>, x: Input): seq<int> {
    if x.ConnectionError? || x.Cleanup? then [] else sofar
  }

  /** An input after which the buffer is empty. */
  predicate Flushes(st: StreamState, x: Input) { Interrupts(x) || x.Cleanup? || (x.FrameFires? && x.handle in st.frames) }

  /** The stream's deltas as the hook batches them until it is unmounted, `es` being held already. */
  function FramesOf(st: StreamState, src: Source, es: seq<Entry>, xs: seq<Input>): seq<seq<Entry>>
    decreases xs
  {
    if xs == [] then [es]
    else
      var next := Receive(st, xs[0]);
      if OwnDelta(xs[0], src) then FramesOf(next, src, es + [Entry(xs[0].part, xs[0].metadata)], xs[1..])
      else if Flushes(st, xs[0]) then [es] + FramesOf(next, src, [], xs[1..])
      else FramesOf(next, src, es, xs[1..])
  }

  function AfterFlush(c: Option<Core>, es: seq<Entry>): Option<Core> { Deliver(c, Coalesced(es)) }

  function AfterFrames(c: Option<Core>, frames: seq<seq<Entry>>): Option<Core>
    decreases frames
  {
    if frames == [] then c else AfterFrames(AfterFlush(c, frames[0]), frames[1..])
  }

  /** Every shown delta of the frame that repeats an earlier number, of the frame or of `seen`, finds it
      in the message's list w. */
  predicate FrameRecorded(w: seq<int>, seen: seq<int>, es: seq<Entry>)
    decreases es
  {
    es == []
    || (if !Shown(es[0]) then FrameRecorded(w, seen, es[1..])
        else if Unprocessed(es[0].part, seen) then FrameRecorded(w, Seen(seen, es[0].part), es[1..])
        else !Unprocessed(es[0].part, w) && FrameRecorded(w, seen, es[1..]))
  }

  /** So it is in every frame, with the list the message has when the frame is reduced. */
  predicate RepeatsRecorded(c: Option<Core>, seen: seq<int>, frames: seq<seq<Entry>>)
    decreases frames
  {
    frames == []
    || (FrameRecorded(Window(c), seen, frames[0])
        && RepeatsRecorded(AfterFlush(c, frames[0]), NumbersAfter(seen, frames[0]), frames[1..]))
  }

  /** No frame holds a number twice that no earlier frame has brought. */
  ghost predicate FramesRepeatNothingNew(seen: seq<int>, frames: seq<seq<Entry>>)
    decreases frames
  {
    frames == []
    || (NewOnce(seen, frames[0]) && FramesRepeatNothingNew(NumbersAfter(seen, frames[0]), frames[1..]))
  }

  function NumbersAfter(seen: seq<int>, es: seq<Entry>): seq<int> { seen + SeqsOf(FirstArrivals(seen, es)) }

  function Content(c: Option<Core>): string { if c.Some? then c.value.content else "" }

  function ReducerEvent(d: Dispatch, clock: nat): Event {
    match d
    case Deltas(slot) => Event(slot.wf, slot.agent, false, Delta(slot.parts, slot.streamId, slot.metadata, clock))
    case Plain(e) => e
  }

  function ReduceLog(s: RunState, log: seq<Dispatch>, clock: nat): RunState
    decreases log
  {
    if log == [] then s else ReduceLog(Reduce(s, ReducerEvent(log[0], clock)), log[1..], clock)
  }

  // ---------------------------------------------------------------- the buffer side

  function OwnSlot(src: Source, es: seq<Entry>): Slot {
    Slot(src.key, src.wf, src.agent, src.key, PartsOf(es), MergedMeta(None, es))
  }

  predicate ForeignSlot(slot: Slot, src: Source, clock: nat) {
    slot.key != src.key && Foreign(ReducerEvent(Deltas(slot), clock), src)
  }

  /** The buffer holds exactly the pending entries of the source, and slots of other streams. */
  ghost predicate Pending(buffer: seq<Slot>, src: Source, es: seq<Entry>, clock: nat) {
    && (es != [] ==> exists k :: 0 <= k < |buffer| && buffer[k].key == src.key)
    && (forall k :: 0 <= k < |buffer| ==>
          (es != [] && buffer[k] == OwnSlot(src, es)) || ForeignSlot(buffer[k], src, clock))
    && (forall i, j :: 0 <= i < j < |buffer| ==> buffer[i].key != buffer[j].key)
  }

  ghost predicate Unmarked(src: Source, es: seq<Entry>) {
    src.unmarked ==> forall e <- es :: !Marked(e.metadata)
  }

  lemma {:induction false} MergedUnmarked(m: Option<Meta>, es: seq<Entry>)
    requires !Marked(m) && forall e <- es :: !Marked(e.metadata)
    ensures !Marked(MergedMeta(m, es))
    decreases es
  {
    if es != [] {
      assert es[0] in es && forall e <- es[1..] :: e in es;
      MergedUnmarked(MergeMeta(m, es[0].metadata), es[1..]);
    }
  }

  lemma {:induction false} PartsConcat(a: seq<Entry>, e: Entry)
    ensures PartsOf(a + [e]) == PartsOf(a) + [e.part]
  {
    if a == [] {
      assert a + [e] == [e] && [e][1..] == [];
    } else {
      assert (a + [e])[1..] == a[1..] + [e];
      PartsConcat(a[1..], e);
    }
  }

  lemma OwnStep(buffer: seq<Slot>, src: Source, es: seq<Entry>, x: Input, clock: nat)
    requires Pending(buffer, src, es, clock) && OwnDelta(x, src)
    ensures Pending(Buffered(buffer, x), src, es + [Entry(x.part, x.metadata)], clock)
  {
    var e := Entry(x.part, x.metadata);
    PartsConcat(es, e);
    MergedMetaLast(None, es, e);
    MergeOntoNone(x.metadata);
    var i, after := SlotIndex(buffer, src.key), Buffered(buffer, x);
    if i < |buffer| {
      assert buffer[i] == OwnSlot(src, es);
    } else {
      assert es == [] && PartsOf(es) + [e.part] == [e.part];
    }
    assert after[i] == OwnSlot(src, es + [e]);
    forall k | 0 <= k < |after| && k != i ensures ForeignSlot(after[k], src, clock) {
      assert after[k] == buffer[k];
    }
  }

  lemma ForeignDeltaStep(buffer: seq<Slot>, src: Source, es: seq<Entry>, x: Input, clock: nat)
    requires Pending(buffer, src, es, clock) && x.DeltaIn? && ForeignDelta(x, src, clock)
    ensures Pending(Buffered(buffer, x), src, es, clock)
  {
    var i, after := SlotIndex(buffer, BufferKey(x.streamId, x.part, x.clock)), Buffered(buffer, x);
    assert ForeignSlot(after[i], src, clock) by {
      if i < |buffer| { assert ForeignSlot(buffer[i], src, clock); }
    }
    if es != [] {
      var k :| 0 <= k < |buffer| && buffer[k].key == src.key;
      assert after[k].key == src.key;
    }
  }

  // ---------------------------------------------------------------- one frame

  /** A first arrival is always taken; nothing else is exactly when repeats are recorded. */
  lemma {:induction false} FrameTakes(w: seq<int>, seen: seq<int>, es: seq<Entry>)
    requires forall n <- w :: n in seen
    ensures |TextOf(FirstArrivals(seen, es))| <= |TextOf(NewOf(w, es))|
    ensures FrameRecorded(w, seen, es) ==> NewOf(w, es) == FirstArrivals(seen, es)
    ensures NonEmptyTexts(es) && !FrameRecorded(w, seen, es) ==> |TextOf(FirstArrivals(seen, es))| < |TextOf(NewOf(w, es))|
    decreases es
  {
    if es != [] {
      var e, rest := es[0], es[1..];
      var seen' := if Takes(seen, e) then Seen(seen, e.part) else seen;
      assert e in es && forall x <- rest :: x in es;
      if e.part.seqNo.Some? {
        var n := e.part.seqNo.value;
        assert n in w ==> n in seen;
      }
      FrameTakes(w, seen', rest);
      FirstTaken(w, seen, es);
    }
  }

  lemma FirstTaken(w: seq<int>, seen: seq<int>, es: seq<Entry>)
    requires es != []
    ensures var rest := FirstArrivals(if Takes(seen, es[0]) then Seen(seen, es[0].part) else seen, es[1..]);
            TextOf(FirstArrivals(seen, es)) == (if Takes(seen, es[0]) then es[0].part.text else "") + TextOf(rest)
    ensures TextOf(NewOf(w, es)) == (if Takes(w, es[0]) then es[0].part.text else "") + TextOf(NewOf(w, es[1..]))
    ensures NewOf(w, es) == (if Takes(w, es[0]) then [es[0]] else []) + NewOf(w, es[1..])
  {
    var a := FirstArrivals(if Takes(seen, es[0]) then Seen(seen, es[0].part) else seen, es[1..]);
    var b := NewOf(w, es[1..]);
    TextCons(es[0], a);
    TextCons(es[0], b);
    assert [] + b == b && "" + TextOf(a) == TextOf(a) && "" + TextOf(b) == TextOf(b);
  }

  lemma RepeatWasBefore(w: seq<int>, seen0: seq<int>, extra: seq<int>, p: Part)
    requires WindowOf(w, seen0) && Unprocessed(p, extra)
    requires Unprocessed(p, seen0 + extra) || !Unprocessed(p, LastN(MAX_PROCESSED_DELTAS, seen0 + extra))
    ensures Unprocessed(p, w) <==> Unprocessed(p, seen0 + extra)
  {
    var seen := seen0 + extra;
    if !Unprocessed(p, LastN(MAX_PROCESSED_DELTAS, seen)) {
      var last := LastN(MAX_PROCESSED_DELTAS, seen);
      var k :| 0 <= k < |last| && last[k] == p.seqNo.value;
      var n := |seen| - |last| + k;
      assert seen[n] == p.seqNo.value && n < |seen0|;
      var last0 := LastN(MAX_PROCESSED_DELTAS, seen0);
      assert last0[n - (|seen0| - |last0|)] == p.seqNo.value;
    }
    WindowDecides(w, seen0, p);
  }

  lemma RecordedIsWindow(w: seq<int>, seen: seq<int>, ss: seq<int>)
    requires WindowOf(w, seen)
    ensures WindowOf(Recorded(w, ss), seen + ss)
  {
    if ss == [] {
      assert seen + ss == seen;
    } else {
      RecordedKeepsLast(w, ss);
      LastOfWindow(w, seen, ss);
    }
  }

  lemma LastOfWindow(w: seq<int>, seen: seq<int>, ss: seq<int>)
    requires WindowOf(w, seen)
    ensures WindowOf(LastN(MAX_PROCESSED_DELTAS, w + ss), seen + ss)
  {
    var all, r := seen + ss, LastN(MAX_PROCESSED_DELTAS, w + ss);
    assert w + ss == all[|seen| - |w|..];
    assert r == all[|all| - |r|..];
  }

  /** When repeats arrive within the window and the frame repeats nothing new, its repeats are recorded. */
  lemma {:induction false} RegularFrame(w: seq<int>, seen0: seq<int>, extra: seq<int>, es: seq<Entry>)
    requires WindowOf(w, seen0) && NewOnce(seen0, es) && RepeatsInWindow(seen0 + extra, es)
    requires forall n <- extra :: n !in seen0
    requires forall e <- es :: Takes(seen0, e) ==> Unprocessed(e.part, extra)
    ensures FrameRecorded(w, seen0 + extra, es)
    decreases es
  {
    if es != [] {
      var e, seen := es[0], seen0 + extra;
      assert e in es && forall x <- es[1..] :: x in es;
      if !Shown(e) {
        RegularFrame(w, seen0, extra, es[1..]);
      } else if Unprocessed(e.part, seen) {
        var extra' := Seen(extra, e.part);
        assert Seen(seen, e.part) == seen0 + extra';
        forall x | x in es[1..] && Takes(seen0, x) ensures Unprocessed(x.part, extra') {
          var k :| 0 <= k < |es[1..]| && es[1..][k] == x;
          assert x == es[k + 1] && x in es;
        }
        RegularFrame(w, seen0, extra', es[1..]);
      } else {
        var n := e.part.seqNo.value;
        assert n in extra ==> n !in seen0;
        RepeatWasBefore(w, seen0, extra, e.part);
        RegularFrame(w, seen0, extra, es[1..]);
      }
    }
  }

  /** One flushed frame whose repeats are recorded adds its first arrivals to the text and to the window. */
  lemma FlushStep(c: Option<Core>, seen: seq<int>, es: seq<Entry>)
    requires WindowOf(Window(c), seen) && FrameRecorded(Window(c), seen, es)
    ensures var c' := AfterFlush(c, es);
            var f := FirstArrivals(seen, es);
            && Content(c') == Content(c) + TextOf(f)
            && WindowOf(Window(c'), seen + SeqsOf(f))
  {
    var f := FirstArrivals(seen, es);
    FrameTakes(Window(c), seen, es);
    CoalescedForm(c, es);
    if f == [] {
      assert seen + SeqsOf(f) == seen;
    } else if c.None? {
      assert "" + TextOf(f) == TextOf(f) && seen == [] && [] + SeqsOf(f) == SeqsOf(f);
    } else {
      RecordedIsWindow(Window(c), seen, SeqsOf(f));
    }
  }

  /** What one flushed frame adds to the text. */
  lemma FlushAdds(c: Option<Core>, es: seq<Entry>)
    ensures Content(AfterFlush(c, es)) == Content(c) + TextOf(NewOf(Window(c), es))
  {
    CoalescedForm(c, es);
    assert TextOf([]) == "" && Content(c) + "" == Content(c);
  }

  lemma NumbersCons(seen: seq<int>, e: Entry, rest: seq<Entry>)
    ensures Seen(seen, e.part) + SeqsOf(rest) == seen + SeqsOf([e] + rest)
  {
    TextCons(e, rest);
  }

  predicate ArrivalsSplit(seen: seq<int>, a: seq<Entry>, b: seq<Entry>) {
    var seen' := NumbersAfter(seen, a);
    && FirstArrivals(seen, a + b) == FirstArrivals(seen, a) + FirstArrivals(seen', b)
    && (RepeatsInWindow(seen, a + b) <==> RepeatsInWindow(seen, a) && RepeatsInWindow(seen', b))
  }

  lemma ArrivalsSplitAccepted(seen: seq<int>, a: seq<Entry>, b: seq<Entry>)
    requires a != [] && Shown(a[0]) && Unprocessed(a[0].part, seen)
    requires ArrivalsSplit(Seen(seen, a[0].part), a[1..], b)
    ensures ArrivalsSplit(seen, a, b)
  {
    assert (a + b)[1..] == a[1..] + b;
    NumbersCons(seen, a[0], FirstArrivals(Seen(seen, a[0].part), a[1..]));
  }

  lemma {:induction false} ArrivalsConcat(seen: seq<int>, a: seq<Entry>, b: seq<Entry>)
    ensures ArrivalsSplit(seen, a, b)
    decreases a
  {
    if a == [] {
      assert a + b == b && seen + [] == seen;
    } else if Shown(a[0]) && Unprocessed(a[0].part, seen) {
      ArrivalsConcat(Seen(seen, a[0].part), a[1..], b);
      ArrivalsSplitAccepted(seen, a, b);
    } else {
      ArrivalsConcat(seen, a[1..], b);
      assert (a + b)[1..] == a[1..] + b;
    }
  }

  lemma {:induction false} TextConcat(a: seq<Entry>, b: seq<Entry>)
    ensures TextOf(a + b) == TextOf(a) + TextOf(b)
  {
    if a == [] {
      assert a + b == b;
    } else {
      assert a + b == [a[0]] + (a[1..] + b) && a == [a[0]] + a[1..];
      TextConcat(a[1..], b);
      TextCons(a[0], a[1..] + b);
      TextCons(a[0], a[1..]);
    }
  }

  // ---------------------------------------------------------------- all frames

  function Flat(frames: seq<seq<Entry>>): seq<Entry> { if frames == [] then [] else frames[0] + Flat(frames[1..]) }

  lemma {:induction false} RecordedWithin(w: seq<int>, ss: seq<int>, n: int)
    requires n in Recorded(w, ss)
    ensures n in w || n in ss
    decreases ss
  {
    if ss != [] { RecordedWithin(CapProcessedDeltas(w, ss[0]), ss[1..], n); }
  }

  /** Every number taken from the frame has been seen. */
  lemma {:induction false} TakenIsSeen(w: seq<int>, seen: seq<int>, es: seq<Entry>, n: int)
    requires n in SeqsOf(NewOf(w, es))
    ensures n in NumbersAfter(seen, es)
    decreases es
  {
    var e, rest := es[0], es[1..];
    TextCons(e, NewOf(w, rest));
    assert [] + NewOf(w, rest) == NewOf(w, rest);
    var seen' := if Takes(seen, e) then Seen(seen, e.part) else seen;
    NumbersCons(seen, e, FirstArrivals(seen', rest));
    if n in SeqsOf(NewOf(w, rest)) { TakenIsSeen(w, seen', rest, n); }
  }

  lemma ListIsSeen(c: Option<Core>, seen: seq<int>, es: seq<Entry>)
    requires forall n <- Window(c) :: n in seen
    ensures forall n <- Window(AfterFlush(c, es)) :: n in NumbersAfter(seen, es)
  {
    CoalescedForm(c, es);
    var all := NewOf(Window(c), es);
    forall n | n in Window(AfterFlush(c, es)) ensures n in NumbersAfter(seen, es) {
      if n in SeqsOf(all) {
        TakenIsSeen(Window(c), seen, es, n);
      } else if c.Some? && all != [] {
        RecordedWithin(c.value.processed, SeqsOf(all), n);
      }
    }
  }

  /** What the frames show is at least the first arrivals, and no more exactly when repeats are recorded. */
  lemma {:induction false} FramesShow(c: Option<Core>, seen: seq<int>, frames: seq<seq<Entry>>)
    requires forall n <- Window(c) :: n in seen
    ensures |Content(c)| + |TextOf(FirstArrivals(seen, Flat(frames)))| <= |Content(AfterFrames(c, frames))|
    ensures RepeatsRecorded(c, seen, frames)
            ==> Content(AfterFrames(c, frames)) == Content(c) + TextOf(FirstArrivals(seen, Flat(frames)))
    ensures NonEmptyTexts(Flat(frames)) && !RepeatsRecorded(c, seen, frames)
            ==> |Content(c)| + |TextOf(FirstArrivals(seen, Flat(frames)))| < |Content(AfterFrames(c, frames))|
    decreases frames
  {
    if frames == [] {
      assert TextOf([]) == "" && Content(c) + "" == Content(c);
    } else {
      var f, rest := frames[0], frames[1..];
      ListIsSeen(c, seen, f);
      FramesShow(AfterFlush(c, f), NumbersAfter(seen, f), rest);
      FrameTakes(Window(c), seen, f);
      FlushAdds(c, f);
      ArrivalsConcat(seen, f, Flat(rest));
      Spliced(Content(c), FirstArrivals(seen, f), FirstArrivals(NumbersAfter(seen, f), Flat(rest)));
      assert forall e <- f :: e in Flat(frames);
      assert forall e <- Flat(rest) :: e in Flat(frames);
    }
  }

  lemma {:induction false} RegularFrames(c: Option<Core>, seen: seq<int>, frames: seq<seq<Entry>>)
    requires WindowOf(Window(c), seen) && FramesRepeatNothingNew(seen, frames) && RepeatsInWindow(seen, Flat(frames))
    ensures RepeatsRecorded(c, seen, frames)
    decreases frames
  {
    if frames != [] {
      var f, rest := frames[0], frames[1..];
      ArrivalsConcat(seen, f, Flat(rest));
      assert seen + [] == seen;
      RegularFrame(Window(c), seen, [], f);
      FlushStep(c, seen, f);
      RegularFrames(AfterFlush(c, f), NumbersAfter(seen, f), rest);
    }
  }

  lemma {:induction false} FramesAreEntries(st: StreamState, src: Source, es: seq<Entry>, xs: seq<Input>)
    ensures Flat(FramesOf(st, src, es, xs)) == es + Entries(xs, src)
    decreases xs
  {
    if xs == [] {
      assert [es][1..] == [] && es + [] == es;
    } else {
      var next, e := Receive(st, xs[0]), if OwnDelta(xs[0], src) then [Entry(xs[0].part, xs[0].metadata)] else [];
      assert (es + e) + Entries(xs[1..], src) == es + (e + Entries(xs[1..], src));
      if OwnDelta(xs[0], src) {
        FramesAreEntries(next, src, es + e, xs[1..]);
      } else if Flushes(st, xs[0]) {
        FramesAreEntries(next, src, [], xs[1..]);
        var frames := FramesOf(next, src, [], xs[1..]);
        assert ([es] + frames)[1..] == frames;
        assert [] + Entries(xs[1..], src) == Entries(xs[1..], src) && es + e == es;
      } else {
        FramesAreEntries(next, src, es, xs[1..]);
        assert es + e == es;
      }
    }
  }

  /** No number twice, and only numbers the connection has delivered. */
  ghost predicate OneConnection(es: seq<Entry>, conn: seq<int>) {
    NewOnce([], es) && forall e <- es :: e.part.seqNo.Some? ==> e.part.seqNo.value in conn
  }

  lemma OneMoreDelta(es: seq<Entry>, e: Entry, conn: seq<int>)
    requires OneConnection(es, conn) && Unprocessed(e.part, conn)
    ensures OneConnection(es + [e], Seen(conn, e.part))
  {
    forall i, j | 0 <= i < j < |es + [e]| && Takes([], (es + [e])[i]) && Shown((es + [e])[j])
      && (es + [e])[i].part.seqNo.Some?
      ensures (es + [e])[i].part.seqNo != (es + [e])[j].part.seqNo
    {
      assert es[i] in es;
    }
  }

  /** A connection that never repeats a number makes no frame that does. */
  lemma {:induction false} ConnectionsRepeatNothingNew(st: StreamState, src: Source, seen: seq<int>, es: seq<Entry>,
                                                       conn: seq<int>, xs: seq<Input>)
    requires OneConnection(es, conn) && NoRepeatPerConnection(conn, xs, src)
    ensures FramesRepeatNothingNew(seen, FramesOf(st, src, es, xs))
    decreases xs
  {
    assert NewOnce(seen, es);
    if xs != [] {
      var next := Receive(st, xs[0]);
      if OwnDelta(xs[0], src) {
        OneMoreDelta(es, Entry(xs[0].part, xs[0].metadata), conn);
        ConnectionsRepeatNothingNew(next, src, seen, es + [Entry(xs[0].part, xs[0].metadata)],
                                    Seen(conn, xs[0].part), xs[1..]);
      } else if Flushes(st, xs[0]) {
        ConnectionsRepeatNothingNew(next, src, NumbersAfter(seen, es), [], AfterInput(conn, xs[0]), xs[1..]);
      } else {
        ConnectionsRepeatNothingNew(next, src, seen, es, conn, xs[1..]);
      }
    }
  }

  // ---------------------------------------------------------------- whole runs

  lemma {:induction false} ReduceLogConcat(s: RunState, a: seq<Dispatch>, b: seq<Dispatch>, clock: nat)
    ensures ReduceLog(s, a + b, clock) == ReduceLog(ReduceLog(s, a, clock), b, clock)
    decreases a
  {
    if a == [] {
      assert a + b == b;
    } else {
      assert (a + b)[1..] == a[1..] + b;
      ReduceLogConcat(Reduce(s, ReducerEvent(a[0], clock)), a[1..], b, clock);
    }
  }

  /** The state of a run: `c` is the message so far, and the buffer holds `es`. */
  ghost predicate Stands(s0: RunState, st: StreamState, src: Source, c: Option<Core>, es: seq<Entry>, clock: nat) {
    && Shows(ReduceLog(s0, st.log, clock).messages, src, c)
    && Pending(st.buffer, src, es, clock)
    && Unmarked(src, es)
  }

  /** A flush, slot by slot: the source's slot delivers its batch, every other one spares the message. */
  lemma {:induction false} FlushShows(s: RunState, buffer: seq<Slot>, src: Source, c: Option<Core>,
                                      es: seq<Entry>, clock: nat)
    requires src.Direct() && Pending(buffer, src, es, clock) && Unmarked(src, es)
    requires Shows(s.messages, src, c)
    ensures Shows(ReduceLog(s, Outgoing(buffer), clock).messages, src, AfterFlush(c, es))
    decreases |buffer|
  {
    if buffer == [] {
      assert es == [];
    } else {
      var slot, rest := buffer[0], buffer[1..];
      var e := ReducerEvent(Deltas(slot), clock);
      if slot.key == src.key {
        OwnSlotShows(s, slot, src, c, es, clock);
        RestIsForeign(buffer, src, es, clock);
        FlushShows(Reduce(s, e), rest, src, AfterFlush(c, es), [], clock);
      } else {
        RestPends(buffer, src, es, clock);
        if slot.parts == [] {
          FlushShows(s, rest, src, c, es, clock);
        } else {
          ForeignStep(s, e, src, c);
          FlushShows(Reduce(s, e), rest, src, c, es, clock);
        }
      }
      OutgoingStep(s, buffer, clock);
    }
  }

  lemma OwnSlotShows(s: RunState, slot: Slot, src: Source, c: Option<Core>, es: seq<Entry>, clock: nat)
    requires src.Direct() && Shows(s.messages, src, c) && slot == OwnSlot(src, es) && Unmarked(src, es)
    ensures Shows(Reduce(s, ReducerEvent(Deltas(slot), clock)).messages, src, AfterFlush(c, es))
  {
    if src.unmarked { MergedUnmarked(None, es); }
    ReducedMessages(s, ReducerEvent(Deltas(slot), clock));
    DeltaStep(s.messages, src, c, PartsOf(es), MergedMeta(None, es), clock);
  }

  lemma OutgoingStep(s: RunState, buffer: seq<Slot>, clock: nat)
    requires buffer != []
    ensures ReduceLog(s, Outgoing(buffer), clock)
         == if buffer[0].parts == [] then ReduceLog(s, Outgoing(buffer[1..]), clock)
            else ReduceLog(Reduce(s, ReducerEvent(Deltas(buffer[0]), clock)), Outgoing(buffer[1..]), clock)
  {
    var more := Outgoing(buffer[1..]);
    assert ([Deltas(buffer[0])] + more)[1..] == more;
    assert [] + more == more;
  }

  lemma RestIsForeign(buffer: seq<Slot>, src: Source, es: seq<Entry>, clock: nat)
    requires Pending(buffer, src, es, clock) && buffer != [] && buffer[0].key == src.key
    ensures Pending(buffer[1..], src, [], clock)
  {
    forall k | 0 <= k < |buffer[1..]| ensures ForeignSlot(buffer[1..][k], src, clock) {
      assert buffer[0].key != buffer[k + 1].key;
    }
  }

  lemma RestPends(buffer: seq<Slot>, src: Source, es: seq<Entry>, clock: nat)
    requires Pending(buffer, src, es, clock) && buffer != [] && buffer[0].key != src.key
    ensures Pending(buffer[1..], src, es, clock) && ForeignSlot(buffer[0], src, clock)
  {
    if es != [] {
      var k :| 0 <= k < |buffer| && buffer[k].key == src.key;
      assert buffer[1..][k - 1].key == src.key;
    }
  }

  lemma FlushedLog(st: StreamState, x: Input)
    requires Flushes(st, x)
    ensures Receive(st, x).buffer == []
    ensures Receive(st, x).log == st.log + Outgoing(st.buffer) + if Interrupts(x) then [Plain(EventOf(x))] else []
  {
    assert st.log + [] == st.log;
    assert st.log + Outgoing(st.buffer) + [] == st.log + Outgoing(st.buffer);
  }

  lemma FlushedShows(s0: RunState, st: StreamState, src: Source, c: Option<Core>, es: seq<Entry>, clock: nat, x: Input)
    requires src.Direct() && Pending(st.buffer, src, es, clock) && Unmarked(src, es)
    requires Shows(ReduceLog(s0, st.log, clock).messages, src, c)
    requires Flushes(st, x) && Regards(x, src, clock)
    ensures Shows(ReduceLog(s0, Receive(st, x).log, clock).messages, src, AfterFlush(c, es))
  {
    var out := Outgoing(st.buffer);
    var flushed := ReduceLog(s0, st.log + out, clock);
    ReduceLogConcat(s0, st.log, out, clock);
    FlushShows(ReduceLog(s0, st.log, clock), st.buffer, src, c, es, clock);
    FlushedLog(st, x);
    if Interrupts(x) {
      LogOneMore(s0, st.log + out, EventOf(x), clock);
      ForeignStep(flushed, EventOf(x), src, AfterFlush(c, es));
    } else {
      assert st.log + out + [] == st.log + out;
    }
  }

  lemma LogOneMore(s0: RunState, log: seq<Dispatch>, e: Event, clock: nat)
    ensures ReduceLog(s0, log + [Plain(e)], clock) == Reduce(ReduceLog(s0, log, clock), e)
  {
    ReduceLogConcat(s0, log, [Plain(e)], clock);
    assert [Plain(e)][1..] == [];
  }

  lemma OwnStands(s0: RunState, st: StreamState, src: Source, c: Option<Core>, es: seq<Entry>, clock: nat, x: Input)
    requires Stands(s0, st, src, c, es, clock) && OwnDelta(x, src) && Regards(x, src, clock)
    ensures Stands(s0, Receive(st, x), src, c, es + [Entry(x.part, x.metadata)], clock)
  {
    OwnStep(st.buffer, src, es, x, clock);
    DeltaIsBuffered(st, x);
  }

  lemma ForeignStands(s0: RunState, st: StreamState, src: Source, c: Option<Core>, es: seq<Entry>, clock: nat, x: Input)
    requires Stands(s0, st, src, c, es, clock) && x.DeltaIn? && ForeignDelta(x, src, clock)
    ensures Stands(s0, Receive(st, x), src, c, es, clock)
  {
    ForeignDeltaStep(st.buffer, src, es, x, clock);
    DeltaIsBuffered(st, x);
  }

  lemma DeltaIsBuffered(st: StreamState, x: Input)
    requires x.DeltaIn?
    ensures Receive(st, x).log == st.log && Receive(st, x).buffer == Buffered(st.buffer, x)
  {
  }

  /** The text shown once the remaining inputs have arrived and the hook is unmounted. */
  function FinalText(s0: RunState, st: StreamState, src: Source, xs: seq<Input>, clock: nat): string {
    ShownText(ReduceLog(s0, Receive(ReceiveAll(st, xs), Cleanup).log, clock).messages, src.wf)
  }

  lemma FinalTextStep(s0: RunState, st: StreamState, src: Source, xs: seq<Input>, clock: nat)
    requires xs != []
    ensures FinalText(s0, st, src, xs, clock) == FinalText(s0, Receive(st, xs[0]), src, xs[1..], clock)
  {
  }

  lemma ShowsContent(ms: seq<Message>, src: Source, c: Option<Core>)
    requires Shows(ms, src, c)
    ensures ShownText(ms, src.wf) == Content(c)
  {
  }

  lemma Spliced(c: string, a: seq<Entry>, b: seq<Entry>)
    ensures c + TextOf(a + b) == (c + TextOf(a)) + TextOf(b)
  {
    TextConcat(a, b);
  }

  predicate AllRegard(xs: seq<Input>, src: Source, clock: nat) {
    xs == [] || (Regards(xs[0], src, clock) && AllRegard(xs[1..], src, clock))
  }

  lemma {:induction false} AllRegardEach(xs: seq<Input>, src: Source, clock: nat)
    requires forall x <- xs :: Regards(x, src, clock)
    ensures AllRegard(xs, src, clock)
  {
    if xs != [] {
      assert xs[0] in xs && forall x <- xs[1..] :: x in xs;
      AllRegardEach(xs[1..], src, clock);
    }
  }

  /** Whatever arrives, the rest of a run shows the text so far plus what its frames add. */
  lemma {:induction false} RunShows(s0: RunState, st: StreamState, src: Source, c: Option<Core>, es: seq<Entry>,
                                    clock: nat, xs: seq<Input>)
    requires src.Direct() && Stands(s0, st, src, c, es, clock) && AllRegard(xs, src, clock)
    ensures FinalText(s0, st, src, xs, clock) == Content(AfterFrames(c, FramesOf(st, src, es, xs)))
    decreases xs
  {
    if xs == [] {
      FlushedShows(s0, st, src, c, es, clock, Cleanup);
      ShowsContent(ReduceLog(s0, Receive(st, Cleanup).log, clock).messages, src, AfterFlush(c, es));
      assert [es][1..] == [];
    } else {
      var x, next, rest := xs[0], Receive(st, xs[0]), xs[1..];
      FinalTextStep(s0, st, src, xs, clock);
      if OwnDelta(x, src) {
        OwnStands(s0, st, src, c, es, clock, x);
        RunShows(s0, next, src, c, es + [Entry(x.part, x.metadata)], clock, rest);
      } else if Flushes(st, x) {
        FlushedShows(s0, st, src, c, es, clock, x);
        FlushedLog(st, x);
        RunShows(s0, next, src, AfterFlush(c, es), [], clock, rest);
        FramesStep(c, es, FramesOf(next, src, [], rest));
      } else {
        if x.DeltaIn? { ForeignStands(s0, st, src, c, es, clock, x); } else { assert next == st; }
        RunShows(s0, next, src, c, es, clock, rest);
      }
    }
  }

  lemma FramesStep(c: Option<Core>, es: seq<Entry>, frames: seq<seq<Entry>>)
    ensures AfterFrames(c, [es] + frames) == AfterFrames(AfterFlush(c, es), frames)
  {
    assert ([es] + frames)[1..] == frames;
  }

  /** The source has no message yet, and the run consists of inputs the theorems are about. */
  ghost predicate Fit(s0: RunState, src: Source, xs: seq<Input>, clock: nat) {
    && src.Direct() && Invariant.WellFormed(s0.messages)
    && LastStreaming(s0.messages, src.wf) < 0 && !Has(s0.messages, WithId(src.Id()))
    && forall x <- xs :: Regards(x, src, clock)
  }

  /** The text in the conversation after the run and the unmount. */
  function EndText(s0: RunState, src: Source, xs: seq<Input>, clock: nat): string {
    ShownText(ReduceLog(s0, ReceiveAll(NOTHING_BUFFERED, xs + [Cleanup]).log, clock).messages, src.wf)
  }

  lemma EndTextIsFrames(s0: RunState, src: Source, xs: seq<Input>, clock: nat)
    requires Fit(s0, src, xs, clock)
    ensures EndText(s0, src, xs, clock) == Content(AfterFrames(None, FramesOf(NOTHING_BUFFERED, src, [], xs)))
  {
    AllRegardEach(xs, src, clock);
    RunShows(s0, NOTHING_BUFFERED, src, None, [], clock, xs);
    ReceiveAllConcat(NOTHING_BUFFERED, xs, [Cleanup]);
    assert [Cleanup][1..] == [];
  }

  /** From the connection to the conversation, both directions: over every interleaving of the stream's
      deltas with animation frames, reconnects, ends of the stream, remounts, deltas of other streams and
      foreign events, the distinct shown deltas stand there once, in order of first arrival, exactly when
      each repeated number is on the message's list when its frame is reduced. */
  lemma ShowsEveryDeltaOnceExactlyWhen(s0: RunState, src: Source, xs: seq<Input>, clock: nat)
    requires Fit(s0, src, xs, clock) && NonEmptyTexts(Entries(xs, src))
    ensures EndText(s0, src, xs, clock) == TextOf(FirstArrivals([], Entries(xs, src)))
       <==> RepeatsRecorded(None, [], FramesOf(NOTHING_BUFFERED, src, [], xs))
  {
    var frames := FramesOf(NOTHING_BUFFERED, src, [], xs);
    EndTextIsFrames(s0, src, xs, clock);
    FramesShow(None, [], frames);
    EntriesFromNone(src, xs);
  }

  lemma EntriesFromNone(src: Source, xs: seq<Input>)
    ensures Flat(FramesOf(NOTHING_BUFFERED, src, [], xs)) == Entries(xs, src)
    ensures "" + TextOf(FirstArrivals([], Entries(xs, src))) == TextOf(FirstArrivals([], Entries(xs, src)))
  {
    FramesAreEntries(NOTHING_BUFFERED, src, [], xs);
    assert [] + Entries(xs, src) == Entries(xs, src);
  }

  /** Exactly-once text under conditions on the delivery alone: no frame brings a new number twice, and a
      replayed number arrives before a hundred newer ones. */
  lemma ShowsEveryDeltaOnce(s0: RunState, src: Source, xs: seq<Input>, clock: nat)
    requires Fit(s0, src, xs, clock)
    requires FramesRepeatNothingNew([], FramesOf(NOTHING_BUFFERED, src, [], xs)) && RepeatsInWindow([], Entries(xs, src))
    ensures EndText(s0, src, xs, clock) == TextOf(FirstArrivals([], Entries(xs, src)))
  {
    var frames := FramesOf(NOTHING_BUFFERED, src, [], xs);
    EndTextIsFrames(s0, src, xs, clock);
    EntriesFromNone(src, xs);
    RegularFrames(None, [], frames);
    FramesShow(None, [], frames);
  }

  /** It is enough that no connection repeats a number: replays then come with a reconnect or a remount. */
  lemma ReconnectsShowEveryDeltaOnce(s0: RunState, src: Source, xs: seq<Input>, clock: nat)
    requires Fit(s0, src, xs, clock)
    requires NoRepeatPerConnection([], xs, src) && RepeatsInWindow([], Entries(xs, src))
    ensures EndText(s0, src, xs, clock) == TextOf(FirstArrivals([], Entries(xs, src)))
  {
    ConnectionsRepeatNothingNew(NOTHING_BUFFERED, src, [], [], [], xs);
    ShowsEveryDeltaOnce(s0, src, xs, clock);
  }
}
