/** How one streamed message is built from deltas that may be repeated and coalesced. */
module RunSliceReplay {
  import opened Text
  import opened MessageFilter
  import opened RunSlice

  // ---------------------------------------------------------------- one message, many batches

  /** The fields of a streaming message that deltas change. */
  datatype Core = Core(content: string, metadata: Option<Meta>, processed: seq<int>)

  /** One received delta with the metadata of its event. */
  datatype Entry = Entry(part: Part, metadata: Option<Meta>)

  /** One dispatched delta event. */
  datatype Batch = Batch(parts: seq<Part>, metadata: Option<Meta>)

  function Window(c: Option<Core>): seq<int> { if c.Some? then c.value.processed else [] }

  /** What one delta event does to the message of its stream; None while there is no message. */
  function Deliver(c: Option<Core>, b: Batch): Option<Core> {
    var unseen := NewParts(NonDiagnostic(b.parts), Window(c));
    if unseen == [] then c
    else if c.None? then Some(Core(Joined(unseen), b.metadata, Seqs(unseen)))
    else Some(Core(c.value.content + Joined(unseen),
                   MergeMeta(c.value.metadata, b.metadata),
                   Recorded(c.value.processed, Seqs(unseen))))
  }

  function PartsOf(es: seq<Entry>): (r: seq<Part>)
    ensures |r| == |es|
  {
    if es == [] then [] else [es[0].part] + PartsOf(es[1..])
  }

  function MergedMeta(m: Option<Meta>, es: seq<Entry>): Option<Meta>
    decreases es
  {
    if es == [] then m else MergedMeta(MergeMeta(m, es[0].metadata), es[1..])
  }

  /** The simple form: every delta dispatched on its own. */
  function DeliverEach(c: Option<Core>, es: seq<Entry>): Option<Core>
    decreases es
  {
    if es == [] then c
    else DeliverEach(Deliver(c, Batch([es[0].part], es[0].metadata)), es[1..])
  }

  /** The fast form: the deltas of one animation frame as a single event. */
  function Coalesced(es: seq<Entry>): Batch { Batch(PartsOf(es), MergedMeta(None, es)) }

  // ---------------------------------------------------------------- the reducer builds this message

  function CoreOf(m: Message): Core { Core(m.content, m.metadata, m.processed) }

  function WithCore(m: Message, c: Core): Message {
    m.(content := c.content, metadata := c.metadata, processed := c.processed)
  }

  /** The message list whose streaming message for `wf` holds `c`. */
  function Place(base: seq<Message>, wf: string, agent: string, key: string, c: Option<Core>): seq<Message> {
    if c.None? then base
    else
      var i := LastStreaming(base, wf);
      if i >= 0 then base[i := WithCore(base[i], c.value)]
      else InsertBeforePlaceholder(base, wf,
             Message(StreamMsgId(wf, key), Assistant, c.value.content, wf, agent, true, false, false,
                     c.value.metadata, "", c.value.processed))
  }

  /** Where the stream stands at the start: an existing streaming message, or no message at all. */
  predicate Opens(base: seq<Message>, wf: string, key: string, c: Option<Core>) {
    if LastStreaming(base, wf) >= 0 then c.Some? else !Has(base, WithId(StreamMsgId(wf, key)))
  }

  lemma LastStreamingIs(ms: seq<Message>, wf: string, i: nat)
    requires i < |ms| && ms[i].StreamingFor(wf)
    requires forall k :: i < k < |ms| ==> !ms[k].StreamingFor(wf)
    ensures LastStreaming(ms, wf) == i
  {
  }

  lemma PlacedAt(base: seq<Message>, wf: string, agent: string, key: string, c: Option<Core>)
    requires Opens(base, wf, key, c) && c.Some?
    ensures var ms, i := Place(base, wf, agent, key, c), LastStreaming(base, wf);
            var j := if i >= 0 then i else FirstIndex(base, GeneratingAssistant(wf));
            && j < |ms| && LastStreaming(ms, wf) == j && CoreOf(ms[j]) == c.value
  {
    var ms, i := Place(base, wf, agent, key, c), LastStreaming(base, wf);
    var j := if i >= 0 then i else FirstIndex(base, GeneratingAssistant(wf));
    forall k | j < k < |ms| ensures !ms[k].StreamingFor(wf) {
      if i < 0 { assert ms[k] == base[k - 1]; }
    }
    LastStreamingIs(ms, wf, j);
  }

  /** Replacing the message at its place is placing the new message. */
  lemma PlacedUpdate(base: seq<Message>, wf: string, agent: string, key: string, c: Option<Core>, next: Core)
    requires Opens(base, wf, key, c) && c.Some?
    ensures var ms := Place(base, wf, agent, key, c);
            var j := LastStreaming(ms, wf);
            j >= 0 && ms[j := WithCore(ms[j], next)] == Place(base, wf, agent, key, Some(next))
  {
    PlacedAt(base, wf, agent, key, c);
  }

  /** The reducer on the whole message list does exactly what Deliver does to the message. */
  lemma DeltaDelivers(base: seq<Message>, wf: string, agent: string, c: Option<Core>, d: EventBody)
    requires d.Delta? && d.streamId != "" && Opens(base, wf, d.streamId, c)
    ensures ApplyDelta(Place(base, wf, agent, d.streamId, c), wf, agent, d)
         == Place(base, wf, agent, d.streamId, Deliver(c, Batch(d.parts, d.metadata)))
  {
    if c.Some? {
      PlacedAt(base, wf, agent, d.streamId, c);
      var next := Deliver(c, Batch(d.parts, d.metadata));
      PlacedUpdate(base, wf, agent, d.streamId, c, next.value);
    }
  }

  // ---------------------------------------------------------------- dispatching one delta at a time

  predicate Shown(e: Entry) { !IsDiagnosticMessage(e.part.text) }

  function ShownOf(es: seq<Entry>): (r: seq<Entry>)
    ensures |r| <= |es|
  {
    if es == [] then [] else (if Shown(es[0]) then [es[0]] else []) + ShownOf(es[1..])
  }

  function Slide(w: seq<int>, p: Part): seq<int> {
    if p.seqNo.Some? then CapProcessedDeltas(w, p.seqNo.value) else w
  }

  /** The deltas accepted when each is tested against the hundred last accepted ones. */
  function Accept(w: seq<int>, es: seq<Entry>): (r: seq<Entry>)
    ensures |r| <= |es|
    decreases es
  {
    if es == [] then []
    else if Shown(es[0]) && Unprocessed(es[0].part, w) then [es[0]] + Accept(Slide(w, es[0].part), es[1..])
    else Accept(w, es[1..])
  }

  function Absorb(c: Option<Core>, acc: seq<Entry>): Option<Core> {
    if acc == [] then c
    else
      var k := if c.Some? then c.value else Core("", None, []);
      Some(Core(k.content + Joined(PartsOf(acc)),
                MergedMeta(k.metadata, acc),
                Recorded(k.processed, Seqs(PartsOf(acc)))))
  }

  lemma MergeOntoNone(m: Option<Meta>)
    ensures MergeMeta(None, m) == m
  {
    if m.Some? { assert map[] + m.value == m.value; }
  }

  lemma Singleton(e: Entry)
    ensures PartsOf([e]) == [e.part] && Joined([e.part]) == e.part.text
    ensures Seqs([e.part]) == if e.part.seqNo.Some? then [e.part.seqNo.value] else []
    ensures NonDiagnostic([e.part]) == if Shown(e) then [e.part] else []
    ensures forall w :: NewParts([e.part], w) == if Unprocessed(e.part, w) then [e.part] else []
  {
    assert [e][1..] == [] && [e.part][1..] == [];
  }

  lemma RecordedStep(w: seq<int>, p: Part, more: seq<Part>)
    ensures Recorded(w, Seqs([p] + more)) == Recorded(Slide(w, p), Seqs(more))
  {
    var all := [p] + more;
    assert all[1..] == more;
    if p.seqNo.Some? {
      assert Seqs(all) == [p.seqNo.value] + Seqs(more);
      assert Seqs(all)[1..] == Seqs(more);
    } else {
      assert Seqs(all) == Seqs(more);
    }
  }

  lemma AbsorbOne(c: Option<Core>, e: Entry)
    ensures var k := if c.Some? then c.value else Core("", None, []);
            Absorb(c, [e]) == Some(Core(k.content + e.part.text, MergeMeta(k.metadata, e.metadata),
                                        Slide(k.processed, e.part)))
  {
    Singleton(e);
    assert [e][1..] == [];
    var k := if c.Some? then c.value else Core("", None, []);
    RecordedStep(k.processed, e.part, []);
    assert [e.part] + [] == [e.part];
    assert MergedMeta(k.metadata, [e]) == MergedMeta(MergeMeta(k.metadata, e.metadata), [e][1..]);
  }

  lemma DeliverOne(c: Option<Core>, e: Entry)
    ensures Deliver(c, Batch([e.part], e.metadata))
         == if Shown(e) && Unprocessed(e.part, Window(c)) then Absorb(c, [e]) else c
  {
    Singleton(e);
    AbsorbOne(c, e);
    MergeOntoNone(e.metadata);
    assert NewParts([], Window(c)) == [];
    RecordedStep(Window(c), e.part, []);
    assert [e.part] + [] == [e.part];
    if c.None? {
      assert "" + e.part.text == e.part.text;
      if e.part.seqNo.Some? { assert [] + [e.part.seqNo.value] == [e.part.seqNo.value]; }
    }
  }

  lemma EntriesStep(m: Option<Meta>, e: Entry, acc: seq<Entry>)
    ensures PartsOf([e] + acc) == [e.part] + PartsOf(acc)
    ensures MergedMeta(m, [e] + acc) == MergedMeta(MergeMeta(m, e.metadata), acc)
  {
    assert ([e] + acc)[1..] == acc;
  }

  lemma JoinedStep(text: string, p: Part, more: seq<Part>)
    ensures text + Joined([p] + more) == (text + p.text) + Joined(more)
  {
    assert ([p] + more)[1..] == more;
    assert text + (p.text + Joined(more)) == (text + p.text) + Joined(more);
  }

  lemma AbsorbMore(c: Option<Core>, e: Entry, acc: seq<Entry>)
    ensures Absorb(Absorb(c, [e]), acc) == Absorb(c, [e] + acc)
  {
    AbsorbOne(c, e);
    if acc == [] {
      assert [e] + acc == [e];
    } else {
      var k := if c.Some? then c.value else Core("", None, []);
      EntriesStep(k.metadata, e, acc);
      JoinedStep(k.content, e.part, PartsOf(acc));
      RecordedStep(k.processed, e.part, PartsOf(acc));
    }
  }

  lemma {:induction false} DeliverEachAccepts(c: Option<Core>, es: seq<Entry>)
    ensures DeliverEach(c, es) == Absorb(c, Accept(Window(c), es))
    decreases es
  {
    if es != [] {
      var e := es[0];
      DeliverOne(c, e);
      var c' := Deliver(c, Batch([e.part], e.metadata));
      DeliverEachAccepts(c', es[1..]);
      if Shown(e) && Unprocessed(e.part, Window(c)) {
        AbsorbMore(c, e, Accept(Window(c'), es[1..]));
        AbsorbOne(c, e);
      }
    }
  }
}
