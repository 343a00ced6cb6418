/** Exactly-once text under repeated delivery, and coalescing as a refinement of single dispatch. */
module DeltaTheorems {
  import opened Text
  import opened MessageFilter
  import opened RunSlice
  import opened RunSliceReplay

  function TextOf(es: seq<Entry>): string { Joined(PartsOf(es)) }

  function SeqsOf(es: seq<Entry>): seq<int> { Seqs(PartsOf(es)) }

  ghost predicate NonEmptyTexts(es: seq<Entry>) { forall e <- es :: e.part.text != "" }

  // ---------------------------------------------------------------- coalescing

  /** What one event takes from a delta when the message holds the list w. */
  predicate Takes(w: seq<int>, e: Entry) { Shown(e) && Unprocessed(e.part, w) }

  function NewOf(w: seq<int>, es: seq<Entry>): (r: seq<Entry>)
    ensures |r| <= |es|
  {
    if es == [] then [] else (if Takes(w, es[0]) then [es[0]] else []) + NewOf(w, es[1..])
  }

  /** The window after a delta that was dispatched alone. */
  function SlideIfTaken(w: seq<int>, e: Entry): seq<int> { if Takes(w, e) then Slide(w, e.part) else w }

  /** No number that is new to the message, not in w0, is in the sliding window w when it comes. */
  predicate WindowFresh(w0: seq<int>, w: seq<int>, es: seq<Entry>)
    decreases es
  {
    es == [] || ((Takes(w0, es[0]) ==> Takes(w, es[0])) && WindowFresh(w0, SlideIfTaken(w, es[0]), es[1..]))
  }

  /** A number recorded before the frame is still in the window when it comes again. */
  predicate RecordedStay(w0: seq<int>, w: seq<int>, es: seq<Entry>)
    decreases es
  {
    es == [] || ((Takes(w, es[0]) ==> Takes(w0, es[0])) && RecordedStay(w0, SlideIfTaken(w, es[0]), es[1..]))
  }

  /** No number outside w twice among the shown deltas. */
  ghost predicate NewOnce(w: seq<int>, es: seq<Entry>) {
    forall i, j :: 0 <= i < j < |es| && Takes(w, es[i]) && Shown(es[j]) && es[i].part.seqNo.Some?
      ==> es[i].part.seqNo != es[j].part.seqNo
  }

  lemma SlideWithin(w: seq<int>, p: Part, q: Part)
    requires Unprocessed(q, w) && (q.seqNo.None? || q.seqNo != p.seqNo)
    ensures Unprocessed(q, Slide(w, p))
  {
  }

  lemma {:induction false} NewOnceIsFresh(w0: seq<int>, w: seq<int>, es: seq<Entry>)
    requires NewOnce(w0, es) && forall e <- es :: Takes(w0, e) ==> Takes(w, e)
    ensures WindowFresh(w0, w, es)
    decreases es
  {
    if es != [] {
      var w' := SlideIfTaken(w, es[0]);
      forall e | e in es[1..] && Takes(w0, e) ensures Takes(w', e) {
        var k :| 0 <= k < |es[1..]| && es[1..][k] == e;
        assert e == es[k + 1] && e in es;
        if Takes(w, es[0]) { SlideWithin(w, es[0].part, e.part); }
      }
      assert es[0] in es;
      NewOnceIsFresh(w0, w', es[1..]);
    }
  }

  /** A window with room for the whole frame loses nothing during it. */
  lemma {:induction false} RoomKeepsRecorded(w0: seq<int>, w: seq<int>, es: seq<Entry>)
    requires |w| + |es| <= MAX_PROCESSED_DELTAS && forall n <- w0 :: n in w
    ensures RecordedStay(w0, w, es)
    decreases es
  {
    if es != [] { RoomKeepsRecorded(w0, SlideIfTaken(w, es[0]), es[1..]); }
  }

  lemma {:induction false} AcceptsTheNew(w0: seq<int>, w: seq<int>, es: seq<Entry>)
    requires WindowFresh(w0, w, es) && RecordedStay(w0, w, es)
    ensures Accept(w, es) == NewOf(w0, es)
    decreases es
  {
    if es != [] {
      AcceptsTheNew(w0, SlideIfTaken(w, es[0]), es[1..]);
      assert [] + NewOf(w0, es[1..]) == NewOf(w0, es[1..]);
    }
  }

  lemma TextCons(e: Entry, es: seq<Entry>)
    ensures TextOf([e] + es) == e.part.text + TextOf(es)
    ensures SeqsOf([e] + es) == (if e.part.seqNo.Some? then [e.part.seqNo.value] else []) + SeqsOf(es)
  {
    var all := [e] + es;
    assert all[1..] == es;
    assert PartsOf(all)[1..] == PartsOf(es);
  }

  lemma {:induction false} AcceptIsNoLonger(w0: seq<int>, w: seq<int>, es: seq<Entry>)
    requires RecordedStay(w0, w, es)
    ensures |TextOf(Accept(w, es))| <= |TextOf(NewOf(w0, es))|
    ensures NonEmptyTexts(es) && !WindowFresh(w0, w, es) ==> |TextOf(Accept(w, es))| < |TextOf(NewOf(w0, es))|
    decreases es
  {
    if es != [] {
      var w' := SlideIfTaken(w, es[0]);
      AcceptIsNoLonger(w0, w', es[1..]);
      TakenFirst(w0, w, es);
      assert es[0] in es && forall e <- es[1..] :: e in es;
    }
  }

  lemma {:induction false} AcceptIsNoShorter(w0: seq<int>, w: seq<int>, es: seq<Entry>)
    requires WindowFresh(w0, w, es)
    ensures |TextOf(Accept(w, es))| >= |TextOf(NewOf(w0, es))|
    ensures NonEmptyTexts(es) && !RecordedStay(w0, w, es) ==> |TextOf(Accept(w, es))| > |TextOf(NewOf(w0, es))|
    decreases es
  {
    if es != [] {
      var w' := SlideIfTaken(w, es[0]);
      AcceptIsNoShorter(w0, w', es[1..]);
      TakenFirst(w0, w, es);
      assert es[0] in es && forall e <- es[1..] :: e in es;
    }
  }

  lemma TakenFirst(w0: seq<int>, w: seq<int>, es: seq<Entry>)
    requires es != []
    ensures TextOf(Accept(w, es))
         == (if Takes(w, es[0]) then es[0].part.text else "") + TextOf(Accept(SlideIfTaken(w, es[0]), es[1..]))
    ensures TextOf(NewOf(w0, es)) == (if Takes(w0, es[0]) then es[0].part.text else "") + TextOf(NewOf(w0, es[1..]))
  {
    var a, b := Accept(SlideIfTaken(w, es[0]), es[1..]), NewOf(w0, es[1..]);
    TextCons(es[0], a);
    TextCons(es[0], b);
    assert [] + b == b && "" + TextOf(a) == TextOf(a) && "" + TextOf(b) == TextOf(b);
  }

  lemma {:induction false} NewPartsOf(w: seq<int>, es: seq<Entry>)
    ensures NewParts(NonDiagnostic(PartsOf(es)), w) == PartsOf(NewOf(w, es))
  {
    if es != [] {
      var e, rest := es[0], es[1..];
      NewPartsOf(w, rest);
      assert PartsOf(es)[1..] == PartsOf(rest);
      var shown := NonDiagnostic(PartsOf(rest));
      assert ([e.part] + shown)[1..] == shown && [] + shown == shown;
      assert ([e] + NewOf(w, rest))[1..] == NewOf(w, rest) && [] + NewOf(w, rest) == NewOf(w, rest);
      assert [] + NewParts(shown, w) == NewParts(shown, w);
    }
  }

  lemma {:induction false} NewIn(w: seq<int>, es: seq<Entry>)
    ensures forall e <- NewOf(w, es) :: e in es && Takes(w, e)
  {
    if es != [] {
      NewIn(w, es[1..]);
      assert forall e <- es[1..] :: e in es;
    }
  }

  lemma {:induction false} ShownIn(es: seq<Entry>)
    ensures forall e <- ShownOf(es) :: e in es && Shown(e)
  {
    if es != [] {
      ShownIn(es[1..]);
      assert forall e <- es[1..] :: e in es;
    }
  }

  lemma MergeAssoc(a: Option<Meta>, b: Option<Meta>, c: Option<Meta>)
    ensures MergeMeta(MergeMeta(a, b), c) == MergeMeta(a, MergeMeta(b, c))
  {
    if c.Some? {
      var x, y := (if a.Some? then a.value else map[]), (if b.Some? then b.value else map[]);
      assert (x + y) + c.value == x + (y + c.value);
      assert b.None? ==> x + (y + c.value) == x + c.value;
    }
  }

  lemma {:induction false} MergedOnto(m: Option<Meta>, n: Option<Meta>, es: seq<Entry>)
    ensures MergeMeta(m, MergedMeta(n, es)) == MergedMeta(MergeMeta(m, n), es)
    decreases es
  {
    if es != [] {
      MergeAssoc(m, n, es[0].metadata);
      MergedOnto(m, MergeMeta(n, es[0].metadata), es[1..]);
    }
  }

  /** One coalesced event: what is new to the message, with the metadata of the whole frame. */
  lemma CoalescedForm(c: Option<Core>, es: seq<Entry>)
    ensures var all, k := NewOf(Window(c), es), (if c.Some? then c.value else Core("", None, []));
            Deliver(c, Coalesced(es)) ==
              if all == [] then c
              else Some(Core(k.content + TextOf(all), MergedMeta(k.metadata, es),
                             if c.Some? then Recorded(k.processed, SeqsOf(all)) else SeqsOf(all)))
  {
    var all := NewOf(Window(c), es);
    NewPartsOf(Window(c), es);
    if c.Some? {
      MergedOnto(c.value.metadata, None, es);
    } else {
      assert "" + TextOf(all) == TextOf(all);
    }
  }

  lemma LastOfLast(n: nat, a: seq<int>, b: seq<int>)
    ensures LastN(n, LastN(n, a) + b) == LastN(n, a + b)
  {
  }

  lemma {:induction false} RecordedKeepsLast(w: seq<int>, ss: seq<int>)
    requires ss != []
    ensures Recorded(w, ss) == LastN(MAX_PROCESSED_DELTAS, w + ss)
    decreases ss
  {
    var next := CapProcessedDeltas(w, ss[0]);
    if |ss| == 1 {
      assert ss == [ss[0]] && ss[1..] == [];
    } else {
      RecordedKeepsLast(next, ss[1..]);
      LastOfLast(MAX_PROCESSED_DELTAS, w + [ss[0]], ss[1..]);
      assert w + [ss[0]] + ss[1..] == w + ss;
    }
  }

  /** A list recorded from nothing is the list itself exactly when it needs no cap. */
  lemma RecordedFromNone(ss: seq<int>)
    ensures Recorded([], ss) == ss <==> |ss| <= MAX_PROCESSED_DELTAS
  {
    if ss != [] {
      RecordedKeepsLast([], ss);
      assert [] + ss == ss;
    }
  }

  predicate SameText(a: Option<Core>, b: Option<Core>) {
    a.Some? == b.Some? && (a.Some? ==> a.value.content == b.value.content)
  }

  function MetaOf(c: Option<Core>): Option<Meta> { if c.Some? then c.value.metadata else None }

  /** Both forms take the same deltas: at its turn a shown delta is in the window exactly when its
      number was recorded before the frame. */
  predicate Agreeable(w: seq<int>, es: seq<Entry>) { WindowFresh(w, w, es) && RecordedStay(w, w, es) }

  /** What both forms make of such a frame. They differ in the metadata of the deltas that are not taken,
      which the coalesced event carries along, and in the capping of a new message's list. */
  lemma AgreeableForms(c: Option<Core>, es: seq<Entry>)
    requires Agreeable(Window(c), es)
    ensures var all, k := NewOf(Window(c), es), (if c.Some? then c.value else Core("", None, []));
            var a, b := Deliver(c, Coalesced(es)), DeliverEach(c, es);
            if all == [] then a == b == c
            else
              && a == Some(Core(k.content + TextOf(all), MergedMeta(k.metadata, es),
                                if c.Some? then Recorded(k.processed, SeqsOf(all)) else SeqsOf(all)))
              && b == Some(Core(k.content + TextOf(all), MergedMeta(k.metadata, all),
                                Recorded(k.processed, SeqsOf(all))))
  {
    CoalescedForm(c, es);
    DeliverEachAccepts(c, es);
    AcceptsTheNew(Window(c), Window(c), es);
  }

  /** Coalescing a frame of deltas, replayed ones included, shows the same text as dispatching them one
      by one. */
  lemma CoalescingRefines(c: Option<Core>, es: seq<Entry>)
    requires Agreeable(Window(c), es)
    ensures SameText(Deliver(c, Coalesced(es)), DeliverEach(c, es))
  {
    AgreeableForms(c, es);
  }

  /** It is enough that the frame repeats no new number and that the message's list has room for it. */
  lemma ShortFramesAgree(c: Option<Core>, es: seq<Entry>)
    requires NewOnce(Window(c), es) && |Window(c)| + |es| <= MAX_PROCESSED_DELTAS
    ensures Agreeable(Window(c), es) && SameText(Deliver(c, Coalesced(es)), DeliverEach(c, es))
  {
    NewOnceIsFresh(Window(c), Window(c), es);
    RoomKeepsRecorded(Window(c), Window(c), es);
    CoalescingRefines(c, es);
  }

  /** The exact condition: while recorded numbers stay in the window, the two forms give the same
      non-empty texts only when no number new to the message repeats within the window. */
  lemma CoalescingAgreesExactlyWhenFresh(c: Option<Core>, es: seq<Entry>)
    requires RecordedStay(Window(c), Window(c), es) && NonEmptyTexts(es)
    ensures SameText(Deliver(c, Coalesced(es)), DeliverEach(c, es)) <==> WindowFresh(Window(c), Window(c), es)
  {
    if WindowFresh(Window(c), Window(c), es) {
      CoalescingRefines(c, es);
    } else {
      CoalescedForm(c, es);
      DeliverEachAccepts(c, es);
      AcceptIsNoLonger(Window(c), Window(c), es);
    }
  }

  /** And the other way round: without such repeats, only when no recorded number has left the window. */
  lemma CoalescingAgreesExactlyWhenRecordedStay(c: Option<Core>, es: seq<Entry>)
    requires WindowFresh(Window(c), Window(c), es) && NonEmptyTexts(es)
    ensures SameText(Deliver(c, Coalesced(es)), DeliverEach(c, es)) <==> RecordedStay(Window(c), Window(c), es)
  {
    if RecordedStay(Window(c), Window(c), es) {
      CoalescingRefines(c, es);
    } else {
      CoalescedForm(c, es);
      DeliverEachAccepts(c, es);
      AcceptIsNoShorter(Window(c), Window(c), es);
    }
  }

  // ---------------------------------------------------------------- metadata of deltas not taken

  predicate Writes(e: Entry, k: string) { e.metadata.Some? && k in e.metadata.value }

  function Lookup(m: Option<Meta>, k: string): Option<string> {
    if m.Some? && k in m.value then Some(m.value[k]) else None
  }

  /** What a key ends with: the value its last writer gave it. */
  function ValueAfter(m: Option<Meta>, es: seq<Entry>, k: string): Option<string>
    decreases |es|
  {
    if es == [] then Lookup(m, k)
    else if Writes(es[|es| - 1], k) then Some(es[|es| - 1].metadata.value[k])
    else ValueAfter(m, es[..|es| - 1], k)
  }

  predicate CarriesMeta(es: seq<Entry>) { exists e <- es :: e.metadata.Some? }

  /** Deltas that are not taken, diagnostic or already recorded, do no harm: metadata does not come from
      them alone, and each of their keys is written again later or ends with the same value without them. */
  ghost predicate Harmless(m: Option<Meta>, w: seq<int>, es: seq<Entry>) {
    && (m.None? && CarriesMeta(es) ==> CarriesMeta(NewOf(w, es)))
    && forall i, k :: 0 <= i < |es| && !Takes(w, es[i]) && Writes(es[i], k) && LastWriter(es, i, k) ==>
         ValueAfter(m, NewOf(w, es), k) == Some(es[i].metadata.value[k])
  }

  predicate LastWriter(es: seq<Entry>, i: int, k: string) {
    forall j :: i < j < |es| ==> 0 <= j && !Writes(es[j], k)
  }

  lemma {:induction false} MergedMetaLast(m: Option<Meta>, es: seq<Entry>, e: Entry)
    ensures MergedMeta(m, es + [e]) == MergeMeta(MergedMeta(m, es), e.metadata)
    decreases es
  {
    if es == [] {
      assert es + [e] == [e] && [e][1..] == [];
    } else {
      assert (es + [e])[1..] == es[1..] + [e];
      MergedMetaLast(MergeMeta(m, es[0].metadata), es[1..], e);
    }
  }

  lemma {:induction false} MergedLookup(m: Option<Meta>, es: seq<Entry>, k: string)
    ensures Lookup(MergedMeta(m, es), k) == ValueAfter(m, es, k)
    decreases |es|
  {
    if es != [] {
      var pre, e := es[..|es| - 1], es[|es| - 1];
      assert es == pre + [e];
      MergedMetaLast(m, pre, e);
      MergedLookup(m, pre, k);
    }
  }

  lemma {:induction false} MergedIsSome(m: Option<Meta>, es: seq<Entry>)
    ensures MergedMeta(m, es).Some? <==> m.Some? || CarriesMeta(es)
    decreases es
  {
    if es != [] {
      MergedIsSome(MergeMeta(m, es[0].metadata), es[1..]);
      assert es[0] in es && forall e <- es[1..] :: e in es;
    }
  }

  lemma SameMeta(a: Option<Meta>, b: Option<Meta>)
    requires a.Some? == b.Some? && forall k :: Lookup(a, k) == Lookup(b, k)
    ensures a == b
  {
    if a.Some? {
      forall k ensures k in a.value <==> k in b.value { assert Lookup(a, k) == Lookup(b, k); }
      forall k | k in a.value ensures a.value[k] == b.value[k] { assert Lookup(a, k) == Lookup(b, k); }
      assert a.value == b.value;
    }
  }

  lemma {:induction false} NewOfLast(w: seq<int>, es: seq<Entry>, e: Entry)
    ensures NewOf(w, es + [e]) == NewOf(w, es) + if Takes(w, e) then [e] else []
    decreases |es|
  {
    if es == [] {
      assert es + [e] == [e] && [e][1..] == [];
    } else {
      assert (es + [e])[1..] == es[1..] + [e];
      NewOfLast(w, es[1..], e);
    }
  }

  /** The last writer of a key decides, with and without the deltas not taken. */
  lemma {:induction false} LastWriterDecides(m: Option<Meta>, w: seq<int>, es: seq<Entry>, k: string) returns (i: int)
    ensures -1 <= i < |es|
    ensures if i < 0 then ValueAfter(m, es, k) == ValueAfter(m, NewOf(w, es), k)
            else
              && Writes(es[i], k) && LastWriter(es, i, k) && ValueAfter(m, es, k) == Some(es[i].metadata.value[k])
              && (Takes(w, es[i]) ==> ValueAfter(m, NewOf(w, es), k) == ValueAfter(m, es, k))
    decreases |es|
  {
    if es == [] {
      i := -1;
    } else {
      var pre, e := es[..|es| - 1], es[|es| - 1];
      assert es == pre + [e];
      ValueOfLast(m, pre, e, k);
      NewValueOfLast(m, w, pre, e, k);
      if Writes(e, k) {
        i := |es| - 1;
      } else {
        i := LastWriterDecides(m, w, pre, k);
        if i >= 0 { LastWriterStays(pre, e, i, k); }
      }
    }
  }

  lemma LastWriterStays(pre: seq<Entry>, e: Entry, i: nat, k: string)
    requires i < |pre| && LastWriter(pre, i, k) && !Writes(e, k)
    ensures (pre + [e])[i] == pre[i] && LastWriter(pre + [e], i, k)
  {
    forall j | i < j < |pre + [e]| ensures !Writes((pre + [e])[j], k) {
      if j < |pre| { assert !Writes(pre[j], k); }
    }
  }

  lemma NewValueOfLast(m: Option<Meta>, w: seq<int>, es: seq<Entry>, e: Entry, k: string)
    ensures ValueAfter(m, NewOf(w, es + [e]), k)
         == if Takes(w, e) && Writes(e, k) then Some(e.metadata.value[k]) else ValueAfter(m, NewOf(w, es), k)
  {
    NewOfLast(w, es, e);
    if Takes(w, e) { ValueOfLast(m, NewOf(w, es), e, k); } else { assert NewOf(w, es) + [] == NewOf(w, es); }
  }

  lemma ValueOfLast(m: Option<Meta>, es: seq<Entry>, e: Entry, k: string)
    ensures ValueAfter(m, es + [e], k) == if Writes(e, k) then Some(e.metadata.value[k]) else ValueAfter(m, es, k)
  {
    assert (es + [e])[..|es|] == es;
  }

  lemma {:induction false} TheLastWriterIs(m: Option<Meta>, es: seq<Entry>, i: nat, k: string)
    requires i < |es| && Writes(es[i], k) && LastWriter(es, i, k)
    ensures ValueAfter(m, es, k) == Some(es[i].metadata.value[k])
    decreases |es|
  {
    var pre := es[..|es| - 1];
    if i < |es| - 1 {
      assert !Writes(es[|es| - 1], k);
      assert pre[i] == es[i];
      forall j | i < j < |pre| ensures 0 <= j && !Writes(pre[j], k) { assert pre[j] == es[j]; }
      TheLastWriterIs(m, pre, i, k);
    }
  }

  /** The metadata with and without the deltas not taken is the same exactly when they do no harm. */
  lemma MergedExactlyWhenHarmless(m: Option<Meta>, w: seq<int>, es: seq<Entry>)
    ensures MergedMeta(m, es) == MergedMeta(m, NewOf(w, es)) <==> Harmless(m, w, es)
  {
    var a, b := MergedMeta(m, es), MergedMeta(m, NewOf(w, es));
    MergedIsSome(m, es);
    MergedIsSome(m, NewOf(w, es));
    forall k ensures Lookup(a, k) == ValueAfter(m, es, k) && Lookup(b, k) == ValueAfter(m, NewOf(w, es), k) {
      MergedLookup(m, es, k);
      MergedLookup(m, NewOf(w, es), k);
    }
    NewIn(w, es);
    if Harmless(m, w, es) {
      forall k ensures Lookup(a, k) == Lookup(b, k) { var i := LastWriterDecides(m, w, es, k); }
      SameMeta(a, b);
    }
    if a == b {
      forall i, k | 0 <= i < |es| && !Takes(w, es[i]) && Writes(es[i], k) && LastWriter(es, i, k)
        ensures ValueAfter(m, NewOf(w, es), k) == Some(es[i].metadata.value[k])
      {
        TheLastWriterIs(m, es, i, k);
        assert Lookup(a, k) == Lookup(b, k);
      }
    }
  }

  /** A new message takes its first list uncapped. */
  predicate FitsTheCap(c: Option<Core>, es: seq<Entry>) {
    c.Some? || |SeqsOf(NewOf([], es))| <= MAX_PROCESSED_DELTAS
  }

  /** The whole message is the same exactly when the deltas not taken do no harm and the list of a new
      message needs no cap. */
  lemma CoalescingIsExactExactlyWhenHarmless(c: Option<Core>, es: seq<Entry>)
    requires Agreeable(Window(c), es)
    ensures Deliver(c, Coalesced(es)) == DeliverEach(c, es)
       <==> NewOf(Window(c), es) == [] || (Harmless(MetaOf(c), Window(c), es) && FitsTheCap(c, es))
  {
    AgreeableForms(c, es);
    MergedExactlyWhenHarmless(MetaOf(c), Window(c), es);
    RecordedFromNone(SeqsOf(NewOf([], es)));
  }

  /** Metadata that only a diagnostic delta carries reaches the message through the coalesced event. */
  lemma DiagnosticMetadataLeaks(meta: Meta)
    ensures var es := [Entry(Part("a", Some(1)), None), Entry(Part("[Incomplete response:", Some(2)), Some(meta))];
            && Deliver(None, Coalesced(es)) == Some(Core("a", Some(meta), [1]))
            && DeliverEach(None, es) == Some(Core("a", None, [1]))
  {
    var e, d := Entry(Part("a", Some(1)), None), Entry(Part("[Incomplete response:", Some(2)), Some(meta));
    var es := [e, d];
    DiagnosticFree();
    assert StartsWith(d.part.text, "[Incomplete response:");
    assert es[1..] == [d] && [d][1..] == [];
    assert NewOf([], [d]) == [] && NewOf([], es) == [e];
    assert WindowFresh([], [1], [d]) && RecordedStay([], [1], [d]);
    AgreeableForms(None, es);
    Singleton(e);
    assert "" + "a" == "a" && [] + [1] == [1];
    assert MergedMeta(None, [e]) == None by { assert [e][1..] == []; }
    assert MergedMeta(None, es) == MergedMeta(None, [d]) == MergeMeta(None, Some(meta));
    MergeOntoNone(Some(meta));
    RecordedFromNone([1]);
  }

  /** A number repeated inside one frame is appended twice. */
  lemma RepeatInsideFrameIsDoubled()
    ensures var e := Entry(Part("a", Some(7)), None);
            && Deliver(None, Coalesced([e, e])).value.content == "aa"
            && DeliverEach(None, [e, e]).value.content == "a"
  {
    var e := Entry(Part("a", Some(7)), None);
    DiagnosticFree();
    assert [e, e][1..] == [e] && [e][1..] == [];
    assert PartsOf([e, e]) == [e.part, e.part] && [e.part, e.part][1..] == [e.part] && [e.part][1..] == [];
    DeliverOne(None, e);
    AbsorbOne(None, e);
    var c := Deliver(None, Batch([e.part], None));
    assert c.value.processed == [7];
    DeliverOne(c, e);
    assert NonDiagnostic([e.part]) == [e.part];
    assert NewParts([e.part], []) == [e.part];
    assert NonDiagnostic([e.part, e.part]) == [e.part, e.part];
    assert NewParts([e.part, e.part], []) == [e.part, e.part];
    assert Joined([e.part]) == "a" + "";
    assert Joined([e.part, e.part]) == "a" + "a";
  }

  /** Outside both conditions the faults can cancel: a new number comes twice and pushes a recorded one
      out of a full window, and both forms show the same text. */
  lemma FaultsCanCancel(w: seq<int>, text: string, metadata: Option<Meta>, a: int, b: int)
    requires |w| == MAX_PROCESSED_DELTAS && w[0] == b && b !in w[1..] && a !in w && !IsDiagnosticMessage(text)
    ensures var c, p, q := Some(Core("", metadata, w)), Entry(Part(text, Some(a)), None), Entry(Part(text, Some(b)), None);
            var es := [p, p, q];
            && !WindowFresh(w, w, es) && !RecordedStay(w, w, es)
            && SameText(Deliver(c, Coalesced(es)), DeliverEach(c, es))
  {
    var c, p, q := Some(Core("", metadata, w)), Entry(Part(text, Some(a)), None), Entry(Part(text, Some(b)), None);
    FullWindowSlides(w, p, q);
    FaultsTake(w, p, q);
    TextOfPair(p, p);
    TextOfPair(p, q);
    SameTaken(c, [p, p, q]);
  }

  lemma FullWindowSlides(w: seq<int>, p: Entry, q: Entry)
    requires |w| == MAX_PROCESSED_DELTAS && p.part.seqNo.Some? && q.part.seqNo == Some(w[0])
    requires w[0] !in w[1..] && Takes(w, p) && Shown(q)
    ensures !Takes(w, q) && !Takes(Slide(w, p.part), p) && Takes(Slide(w, p.part), q)
  {
    var w' := Slide(w, p.part);
    assert w' == w[1..] + [p.part.seqNo.value];
    assert w'[|w'| - 1] == p.part.seqNo.value;
  }

  lemma SameTaken(c: Option<Core>, es: seq<Entry>)
    requires c.Some? && TextOf(NewOf(Window(c), es)) == TextOf(Accept(Window(c), es))
    requires NewOf(Window(c), es) != [] && Accept(Window(c), es) != []
    ensures SameText(Deliver(c, Coalesced(es)), DeliverEach(c, es))
  {
    CoalescedForm(c, es);
    DeliverEachAccepts(c, es);
  }

  /** The one delta is new and then in the window, the other recorded and then out of it. */
  lemma FaultsTake(w: seq<int>, p: Entry, q: Entry)
    requires Takes(w, p) && !Takes(w, q) && !Takes(Slide(w, p.part), p) && Takes(Slide(w, p.part), q)
    ensures NewOf(w, [p, p, q]) == [p, p] && Accept(w, [p, p, q]) == [p, q]
    ensures !WindowFresh(w, w, [p, p, q]) && !RecordedStay(w, w, [p, p, q])
  {
    var w' := Slide(w, p.part);
    assert [p, p, q][1..] == [p, q] && [p, q][1..] == [q] && [q][1..] == [];
    assert NewOf(w, [q]) == [] && NewOf(w, [p, q]) == [p];
    assert Accept(w', [q]) == [q] && Accept(w', [p, q]) == [q];
    assert !RecordedStay(w, w', [q]) && !RecordedStay(w, w', [p, q]);
  }

  lemma TextOfPair(p: Entry, q: Entry)
    ensures TextOf([p, q]) == p.part.text + q.part.text
  {
    TextCons(p, [q]);
    TextCons(q, []);
    assert [p] + [q] == [p, q] && [q] + [] == [q];
  }

  lemma DiagnosticFree()
    ensures !IsDiagnosticMessage("a")
  {
    assert "a"[1..] == "";
    assert !StartsWith("", "Task budget at") && !StartsWith("a", "Task budget at");
    assert !Contains("", "Task budget at");
  }

  // ---------------------------------------------------------------- exactly once

  /** The shown deltas that repeat no earlier shown number, in order of arrival. */
  function FirstArrivals(seen: seq<int>, es: seq<Entry>): seq<Entry>
    decreases es
  {
    if es == [] then []
    else if Shown(es[0]) && Unprocessed(es[0].part, seen) then
      [es[0]] + FirstArrivals(Seen(seen, es[0].part), es[1..])
    else FirstArrivals(seen, es[1..])
  }

  function Seen(seen: seq<int>, p: Part): seq<int> {
    if p.seqNo.Some? then seen + [p.seqNo.value] else seen
  }

  /** Every repeated number arrives before a hundred newer numbers have been accepted. */
  predicate RepeatsInWindow(seen: seq<int>, es: seq<Entry>)
    decreases es
  {
    es == []
    || (if !Shown(es[0]) then RepeatsInWindow(seen, es[1..])
        else if Unprocessed(es[0].part, seen) then RepeatsInWindow(Seen(seen, es[0].part), es[1..])
        else !Unprocessed(es[0].part, LastN(MAX_PROCESSED_DELTAS, seen)) && RepeatsInWindow(seen, es[1..]))
  }

  /** The recorded numbers are the latest accepted ones, at least the last hundred of them. */
  ghost predicate WindowOf(w: seq<int>, seen: seq<int>) {
    && |w| <= |seen|
    && w == seen[|seen| - |w|..]
    && (|w| == |seen| || |w| >= MAX_PROCESSED_DELTAS)
  }

  lemma WindowSlides(w: seq<int>, seen: seq<int>, p: Part)
    requires WindowOf(w, seen)
    ensures WindowOf(Slide(w, p), Seen(seen, p))
  {
  }

  lemma WindowDecides(w: seq<int>, seen: seq<int>, p: Part)
    requires WindowOf(w, seen)
    ensures Unprocessed(p, seen) ==> Unprocessed(p, w)
    ensures !Unprocessed(p, LastN(MAX_PROCESSED_DELTAS, seen)) ==> !Unprocessed(p, w)
  {
    if !Unprocessed(p, LastN(MAX_PROCESSED_DELTAS, seen)) {
      var last := LastN(MAX_PROCESSED_DELTAS, seen);
      var k :| 0 <= k < |last| && last[k] == p.seqNo.value;
      assert last[k] == w[|w| - |last| + k];
    }
  }

  lemma {:induction false} AcceptsFirstArrivals(w: seq<int>, seen: seq<int>, es: seq<Entry>)
    requires WindowOf(w, seen) && RepeatsInWindow(seen, es)
    ensures Accept(w, es) == FirstArrivals(seen, es)
    decreases es
  {
    if es != [] {
      var p := es[0].part;
      WindowDecides(w, seen, p);
      WindowSlides(w, seen, p);
      if Shown(es[0]) && Unprocessed(p, seen) {
        AcceptsFirstArrivals(Slide(w, p), Seen(seen, p), es[1..]);
      } else {
        AcceptsFirstArrivals(w, seen, es[1..]);
      }
    }
  }

  /** A first arrival is never lost, whatever else was appended before. */
  lemma {:induction false} FirstArrivalsAreAccepted(w: seq<int>, seen: seq<int>, es: seq<Entry>)
    requires forall s <- w :: s in seen
    ensures |TextOf(FirstArrivals(seen, es))| <= |TextOf(Accept(w, es))|
    decreases es
  {
    if es != [] {
      var e := es[0];
      var first := Shown(e) && Unprocessed(e.part, seen);
      var takes := Shown(e) && Unprocessed(e.part, w);
      var w', seen' := if takes then Slide(w, e.part) else w, if first then Seen(seen, e.part) else seen;
      FirstArrivalsAreAccepted(w', seen', es[1..]);
      TextCons(e, FirstArrivals(seen', es[1..]));
      TextCons(e, Accept(w', es[1..]));
    }
  }

  lemma LastNIsWindow(seen: seq<int>, p: Part)
    ensures LastN(MAX_PROCESSED_DELTAS, Seen(seen, p)) == Slide(LastN(MAX_PROCESSED_DELTAS, seen), p)
  {
  }

  lemma {:induction false} LateRepeatIsDoubled(seen: seq<int>, es: seq<Entry>)
    requires NonEmptyTexts(es) && !RepeatsInWindow(seen, es)
    ensures |TextOf(FirstArrivals(seen, es))| < |TextOf(Accept(LastN(MAX_PROCESSED_DELTAS, seen), es))|
    decreases es
  {
    var w, e := LastN(MAX_PROCESSED_DELTAS, seen), es[0];
    assert e in es && forall x <- es[1..] :: x in es;
    LastNIsWindow(seen, e.part);
    if Shown(e) && !Unprocessed(e.part, seen) && Unprocessed(e.part, w) {
      FirstArrivalsAreAccepted(Slide(w, e.part), seen, es[1..]);
      TextCons(e, Accept(Slide(w, e.part), es[1..]));
    } else if Shown(e) && Unprocessed(e.part, seen) {
      LateRepeatIsDoubled(Seen(seen, e.part), es[1..]);
      TextCons(e, Accept(Slide(w, e.part), es[1..]));
      TextCons(e, FirstArrivals(Seen(seen, e.part), es[1..]));
    } else {
      LateRepeatIsDoubled(seen, es[1..]);
    }
  }

  // ---------------------------------------------------------------- on the message list

  function DeltaOf(key: string, e: Entry): EventBody { Delta([e.part], key, e.metadata, 0) }

  function ApplyEach(ms: seq<Message>, wf: string, agent: string, key: string, es: seq<Entry>): seq<Message>
    decreases es
  {
    if es == [] then ms
    else ApplyEach(ApplyDelta(ms, wf, agent, DeltaOf(key, es[0])), wf, agent, key, es[1..])
  }

  lemma {:induction false} ApplyEachDelivers(
      base: seq<Message>, wf: string, agent: string, key: string, c: Option<Core>, es: seq<Entry>)
    requires key != "" && Opens(base, wf, key, c)
    ensures ApplyEach(Place(base, wf, agent, key, c), wf, agent, key, es)
         == Place(base, wf, agent, key, DeliverEach(c, es))
    decreases es
  {
    if es != [] {
      DeltaDelivers(base, wf, agent, c, DeltaOf(key, es[0]));
      ApplyEachDelivers(base, wf, agent, key, Deliver(c, Batch([es[0].part], es[0].metadata)), es[1..]);
    }
  }

  /** The whole message list, id, position and sender included, is the same in both forms under the
      same condition. */
  lemma CoalescingRefinesReducer(base: seq<Message>, wf: string, agent: string, key: string,
                                 c: Option<Core>, es: seq<Entry>, clock: nat)
    requires key != "" && Opens(base, wf, key, c) && Agreeable(Window(c), es)
    ensures var ms := Place(base, wf, agent, key, c);
            ApplyDelta(ms, wf, agent, Delta(PartsOf(es), key, MergedMeta(None, es), clock))
            == ApplyEach(ms, wf, agent, key, es)
            <==> NewOf(Window(c), es) == [] || (Harmless(MetaOf(c), Window(c), es) && FitsTheCap(c, es))
  {
    CoalescingIsExactExactlyWhenHarmless(c, es);
    AgreeableForms(c, es);
    ApplyEachDelivers(base, wf, agent, key, c, es);
    DeltaDelivers(base, wf, agent, c, Delta(PartsOf(es), key, MergedMeta(None, es), clock));
    var a, b := Deliver(c, Coalesced(es)), DeliverEach(c, es);
    if a.Some? && b.Some? {
      PlacedAt(base, wf, agent, key, a);
      PlacedAt(base, wf, agent, key, b);
    }
  }

  /** The text the stream's message shows after the run, empty while there is no message. */
  function ShownText(ms: seq<Message>, wf: string): string {
    var i := LastStreaming(ms, wf);
    if i >= 0 then ms[i].content else ""
  }

  lemma StreamText(base: seq<Message>, wf: string, agent: string, key: string, es: seq<Entry>)
    requires key != "" && LastStreaming(base, wf) < 0 && !Has(base, WithId(StreamMsgId(wf, key)))
    ensures ShownText(ApplyEach(base, wf, agent, key, es), wf) == TextOf(Accept([], es))
  {
    ApplyEachDelivers(base, wf, agent, key, None, es);
    DeliverEachAccepts(None, es);
    var c := DeliverEach(None, es);
    if c.Some? {
      PlacedAt(base, wf, agent, key, c);
      assert "" + TextOf(Accept([], es)) == TextOf(Accept([], es));
    }
  }

  /** Exactly-once text: a stream delivered with repeats shows every distinct shown delta once. */
  lemma ExactlyOnceText(base: seq<Message>, wf: string, agent: string, key: string, es: seq<Entry>)
    requires key != "" && LastStreaming(base, wf) < 0 && !Has(base, WithId(StreamMsgId(wf, key)))
    requires RepeatsInWindow([], es)
    ensures ShownText(ApplyEach(base, wf, agent, key, es), wf) == TextOf(FirstArrivals([], es))
  {
    StreamText(base, wf, agent, key, es);
    AcceptsFirstArrivals([], [], es);
  }

  /** The window of a hundred is exactly what exactly-once delivery costs. */
  lemma ExactlyOnceNeedsTheWindow(base: seq<Message>, wf: string, agent: string, key: string, es: seq<Entry>)
    requires key != "" && LastStreaming(base, wf) < 0 && !Has(base, WithId(StreamMsgId(wf, key)))
    requires NonEmptyTexts(es)
    ensures ShownText(ApplyEach(base, wf, agent, key, es), wf) == TextOf(FirstArrivals([], es))
       <==> RepeatsInWindow([], es)
  {
    if RepeatsInWindow([], es) {
      ExactlyOnceText(base, wf, agent, key, es);
    } else {
      StreamText(base, wf, agent, key, es);
      LateRepeatIsDoubled([], es);
    }
  }

  // ---------------------------------------------------------------- several streams of one workflow

  /** A delta of any directly shown stream: its agent, its stream and what it brings. */
  datatype Sent = Sent(agent: string, key: string, entry: Entry)

  function EntriesOf(ds: seq<Sent>): seq<Entry> { if ds == [] then [] else [ds[0].entry] + EntriesOf(ds[1..]) }

  function ApplyAll(ms: seq<Message>, wf: string, ds: seq<Sent>): seq<Message>
    decreases ds
  {
    if ds == [] then ms
    else ApplyAll(ApplyDelta(ms, wf, ds[0].agent, DeltaOf(ds[0].key, ds[0].entry)), wf, ds[1..])
  }

  lemma AnyDeltaDelivers(ms: seq<Message>, wf: string, d: Sent)
    requires LastStreaming(ms, wf) >= 0
    ensures var i := LastStreaming(ms, wf);
            var next := Deliver(Some(CoreOf(ms[i])), Batch([d.entry.part], d.entry.metadata));
            && next.Some?
            && ApplyDelta(ms, wf, d.agent, DeltaOf(d.key, d.entry)) == ms[i := WithCore(ms[i], next.value)]
            && LastStreaming(ms[i := WithCore(ms[i], next.value)], wf) == i
  {
    var i := LastStreaming(ms, wf);
    var next := Deliver(Some(CoreOf(ms[i])), Batch([d.entry.part], d.entry.metadata));
    LastStreamingIs(ms[i := WithCore(ms[i], next.value)], wf, i);
  }

  /** Directly shown streams of one workflow are not told apart: whatever agents and streams the deltas
      come from, they build on the one open message, under its id and sender, with one shared window. */
  lemma {:induction false} StreamsOfOneWorkflowMerge(ms: seq<Message>, wf: string, ds: seq<Sent>)
    requires LastStreaming(ms, wf) >= 0
    ensures var i := LastStreaming(ms, wf);
            var c := DeliverEach(Some(CoreOf(ms[i])), EntriesOf(ds));
            c.Some? && ApplyAll(ms, wf, ds) == ms[i := WithCore(ms[i], c.value)]
    decreases ds
  {
    var i := LastStreaming(ms, wf);
    if ds == [] {
      assert ms[i := ms[i]] == ms;
    } else {
      AnyDeltaDelivers(ms, wf, ds[0]);
      var next := ApplyDelta(ms, wf, ds[0].agent, DeltaOf(ds[0].key, ds[0].entry));
      StreamsOfOneWorkflowMerge(next, wf, ds[1..]);
      assert ([ds[0].entry] + EntriesOf(ds[1..]))[1..] == EntriesOf(ds[1..]);
    }
  }

  /** The merged text: what was shown, then the deltas of all streams in order of arrival, without those
      whose number any of the streams has brought within the window. */
  lemma MergedText(ms: seq<Message>, wf: string, ds: seq<Sent>)
    requires LastStreaming(ms, wf) >= 0
    ensures var i := LastStreaming(ms, wf);
            var after := ApplyAll(ms, wf, ds);
            && |after| == |ms| && after[i].id == ms[i].id && after[i].sender == ms[i].sender
            && after[i].content == ms[i].content + TextOf(Accept(ms[i].processed, EntriesOf(ds)))
  {
    var i := LastStreaming(ms, wf);
    StreamsOfOneWorkflowMerge(ms, wf, ds);
    DeliverEachAccepts(Some(CoreOf(ms[i])), EntriesOf(ds));
    assert TextOf([]) == "" && ms[i].content + "" == ms[i].content;
  }

  // ---------------------------------------------------------------- replay of a finished stream

  /** A replayed event of one stream: one of its deltas, or its completed event. */
  predicate OfStream(b: EventBody, key: string) {
    match b
    case Delta(_, k, _, _) => k == key
    case Completed(_, _, k, _, _, _) => k == key
    case _ => false
  }

  function ApplyOne(ms: seq<Message>, wf: string, agent: string, b: EventBody): seq<Message> {
    if b.Delta? then ApplyDelta(ms, wf, agent, b)
    else if b.Completed? then ApplyCompleted(ms, wf, agent, b)
    else ms
  }

  function Replay(ms: seq<Message>, wf: string, agent: string, bs: seq<EventBody>): seq<Message>
    decreases bs
  {
    if bs == [] then ms else Replay(ApplyOne(ms, wf, agent, bs[0]), wf, agent, bs[1..])
  }

  /** The stream has its message, and the message is no longer open. */
  predicate Settled(ms: seq<Message>, wf: string, key: string) {
    LastStreaming(ms, wf) < 0 && Has(ms, WithId(StreamMsgId(wf, key)))
  }

  lemma {:induction false} SettledAbsorbs(
      ms: seq<Message>, wf: string, agent: string, key: string, bs: seq<EventBody>)
    requires key != "" && Settled(ms, wf, key) && forall b <- bs :: OfStream(b, key)
    ensures Replay(ms, wf, agent, bs) == ms
    decreases bs
  {
    if bs != [] {
      assert bs[0] in bs && forall b <- bs[1..] :: b in bs;
      SettledAbsorbs(ms, wf, agent, key, bs[1..]);
    }
  }

  /** `ms` is `base` with the one open message of the workflow, under this stream's id, put in. */
  predicate OpenedIn(base: seq<Message>, ms: seq<Message>, wf: string, key: string) {
    var j := LastStreaming(ms, wf);
    && 0 <= j <= |base| && |ms| == |base| + 1 && ms[j].id == StreamMsgId(wf, key)
    && ms[..j] + ms[j + 1..] == base
    && forall k :: 0 <= k < |ms| && k != j ==> !ms[k].StreamingFor(wf)
  }

  /** Where a stream that finds no message puts its own. */
  lemma PlacedFirst(base: seq<Message>, wf: string, agent: string, key: string, c: Option<Core>)
    requires LastStreaming(base, wf) < 0 && !Has(base, WithId(StreamMsgId(wf, key))) && c.Some?
    ensures OpenedIn(base, Place(base, wf, agent, key, c), wf, key)
  {
    var m := Message(StreamMsgId(wf, key), Assistant, c.value.content, wf, agent, true, false, false,
                     c.value.metadata, "", c.value.processed);
    InsertedOpens(base, FirstIndex(base, GeneratingAssistant(wf)), m, wf, key);
  }

  lemma InsertedOpens(base: seq<Message>, g: nat, m: Message, wf: string, key: string)
    requires g <= |base| && LastStreaming(base, wf) < 0
    requires m.StreamingFor(wf) && m.id == StreamMsgId(wf, key)
    ensures OpenedIn(base, base[..g] + [m] + base[g..], wf, key)
  {
    var ms := base[..g] + [m] + base[g..];
    Inserted(base, g, m);
    LastStreamingIs(ms, wf, g);
  }

  lemma Inserted<T>(base: seq<T>, g: nat, m: T)
    requires g <= |base|
    ensures var ms := base[..g] + [m] + base[g..];
            && ms[..g] + ms[g + 1..] == base
            && forall k :: 0 <= k < |ms| ==> ms[k] == if k == g then m else base[if k < g then k else k - 1]
  {
    var ms := base[..g] + [m] + base[g..];
    assert ms[..g] == base[..g] && ms[g + 1..] == base[g..];
  }

  lemma CompletedSettles(base: seq<Message>, wf: string, agent: string, key: string, c: Option<Core>, done: EventBody)
    requires key != "" && LastStreaming(base, wf) < 0 && !Has(base, WithId(StreamMsgId(wf, key)))
    requires c.Some? && done.Completed?
    ensures var ms := ApplyCompleted(Place(base, wf, agent, key, c), wf, agent, done);
            if IsDiagnosticMessage(done.response) then ms == base else Settled(ms, wf, key)
  {
    PlacedFirst(base, wf, agent, key, c);
    ClosesOpen(base, Place(base, wf, agent, key, c), wf, agent, key, done);
  }

  lemma ClosesOpen(base: seq<Message>, ms: seq<Message>, wf: string, agent: string, key: string, done: EventBody)
    requires OpenedIn(base, ms, wf, key) && done.Completed?
    ensures var after := ApplyCompleted(ms, wf, agent, done);
            if IsDiagnosticMessage(done.response) then after == base else Settled(after, wf, key)
  {
    if !IsDiagnosticMessage(done.response) {
      var j := LastStreaming(ms, wf);
      FinishedIsClosed(ms[j], wf, done);
      ClosedIsSettled(ms, j, Finished(ms[j], done), wf, key);
    }
  }

  lemma FinishedIsClosed(m: Message, wf: string, done: EventBody)
    requires done.Completed?
    ensures Finished(m, done).id == m.id && !Finished(m, done).StreamingFor(wf)
  {
  }

  lemma ClosedIsSettled(ms: seq<Message>, j: nat, m: Message, wf: string, key: string)
    requires j < |ms| && forall k :: 0 <= k < |ms| && k != j ==> !ms[k].StreamingFor(wf)
    requires m.id == StreamMsgId(wf, key) && !m.StreamingFor(wf)
    ensures Settled(ms[j := m], wf, key)
  {
    var after := ms[j := m];
    assert after[j] in after && WithId(StreamMsgId(wf, key)).Matches(after[j]);
  }

  /** A finished stream absorbs any replay of its deltas and of its completed event, in any
      order and however long it was, unless the completed event was a diagnostic one. */
  lemma FinishedStreamAbsorbsReplay(
      base: seq<Message>, wf: string, agent: string, key: string, es: seq<Entry>,
      done: EventBody, bs: seq<EventBody>)
    requires key != "" && LastStreaming(base, wf) < 0 && !Has(base, WithId(StreamMsgId(wf, key)))
    requires ShownOf(es) != [] && done.Completed? && !IsDiagnosticMessage(done.response)
    requires forall b <- bs :: OfStream(b, key)
    ensures var ms := ApplyCompleted(ApplyEach(base, wf, agent, key, es), wf, agent, done);
            Replay(ms, wf, agent, bs) == ms
  {
    ApplyEachDelivers(base, wf, agent, key, None, es);
    DeliverEachAccepts(None, es);
    SomethingAccepted([], es);
    CompletedSettles(base, wf, agent, key, DeliverEach(None, es), done);
    SettledAbsorbs(ApplyCompleted(ApplyEach(base, wf, agent, key, es), wf, agent, done), wf, agent, key, bs);
  }

  lemma {:induction false} SomethingAccepted(w: seq<int>, es: seq<Entry>)
    requires w == [] && ShownOf(es) != []
    ensures Accept(w, es) != []
    decreases es
  {
    if !Shown(es[0]) { SomethingAccepted(w, es[1..]); }
  }

  /** A diagnostic completion removes the message, and a replayed delta brings it back. */
  lemma DiagnosticCompletionForgets(
      base: seq<Message>, wf: string, agent: string, key: string, es: seq<Entry>, done: EventBody, e: Entry)
    requires key != "" && LastStreaming(base, wf) < 0 && !Has(base, WithId(StreamMsgId(wf, key)))
    requires ShownOf(es) != [] && done.Completed? && IsDiagnosticMessage(done.response)
    requires Shown(e)
    ensures var ms := ApplyCompleted(ApplyEach(base, wf, agent, key, es), wf, agent, done);
            ms == base && Replay(ms, wf, agent, [DeltaOf(key, e)]) != ms
  {
    ApplyEachDelivers(base, wf, agent, key, None, es);
    DeliverEachAccepts(None, es);
    SomethingAccepted([], es);
    CompletedSettles(base, wf, agent, key, DeliverEach(None, es), done);
    FirstDeltaShows(base, wf, agent, key, e);
  }

  lemma FirstDeltaShows(base: seq<Message>, wf: string, agent: string, key: string, e: Entry)
    requires key != "" && LastStreaming(base, wf) < 0 && !Has(base, WithId(StreamMsgId(wf, key)))
    requires Shown(e)
    ensures Replay(base, wf, agent, [DeltaOf(key, e)]) != base
  {
    ApplyEachDelivers(base, wf, agent, key, None, [e]);
    assert [e][1..] == [];
    DeliverOne(None, e);
    AbsorbOne(None, e);
    PlacedAt(base, wf, agent, key, Deliver(None, Batch([e.part], e.metadata)));
  }

  ghost predicate AbsorbsAnyReplay(ms: seq<Message>, wf: string, agent: string, key: string) {
    forall bs :: (forall b <- bs :: OfStream(b, key)) ==> Replay(ms, wf, agent, bs) == ms
  }

  /** Both directions: replay is absorbed exactly when the completed event carried no
      diagnostic response. */
  lemma ReplayIsAbsorbedExactlyWhen(
      base: seq<Message>, wf: string, agent: string, key: string, es: seq<Entry>, done: EventBody)
    requires key != "" && LastStreaming(base, wf) < 0 && !Has(base, WithId(StreamMsgId(wf, key)))
    requires ShownOf(es) != [] && done.Completed?
    ensures var ms := ApplyCompleted(ApplyEach(base, wf, agent, key, es), wf, agent, done);
            AbsorbsAnyReplay(ms, wf, agent, key) <==> !IsDiagnosticMessage(done.response)
  {
    var ms := ApplyCompleted(ApplyEach(base, wf, agent, key, es), wf, agent, done);
    if IsDiagnosticMessage(done.response) {
      ShownIn(es);
      var e := ShownOf(es)[0];
      assert e in ShownOf(es);
      DiagnosticCompletionForgets(base, wf, agent, key, es, done, e);
      NotAbsorbed(ms, wf, agent, key, e);
    } else {
      forall bs | forall b <- bs :: OfStream(b, key) ensures Replay(ms, wf, agent, bs) == ms {
        FinishedStreamAbsorbsReplay(base, wf, agent, key, es, done, bs);
      }
    }
  }

  lemma NotAbsorbed(ms: seq<Message>, wf: string, agent: string, key: string, e: Entry)
    requires Replay(ms, wf, agent, [DeltaOf(key, e)]) != ms
    ensures !AbsorbsAnyReplay(ms, wf, agent, key)
  {
    var bs := [DeltaOf(key, e)];
    assert forall b <- bs :: OfStream(b, key);
  }

  // ---------------------------------------------------------------- through the whole reducer

  function EventsOf(wf: string, agent: string, bs: seq<EventBody>): seq<Event> {
    if bs == [] then [] else [Event(wf, agent, false, bs[0])] + EventsOf(wf, agent, bs[1..])
  }

  /** For an agent shown directly, delta and completed events change the messages as ApplyOne
      says, whatever else they do to the state. */
  lemma {:induction false} ReducerReplays(s: RunState, wf: string, agent: string, key: string, bs: seq<EventBody>)
    requires !IsIntermediate(agent) && agent != "final_output"
    requires forall b <- bs :: OfStream(b, key)
    ensures ReduceAll(s, EventsOf(wf, agent, bs)).messages == Replay(s.messages, wf, agent, bs)
    decreases bs
  {
    if bs != [] {
      assert bs[0] in bs && forall b <- bs[1..] :: b in bs;
      var e := Event(wf, agent, false, bs[0]);
      assert EventsOf(wf, agent, bs)[1..] == EventsOf(wf, agent, bs[1..]);
      assert Reduce(s, e).messages == ApplyOne(s.messages, wf, agent, bs[0]);
      ReducerReplays(Reduce(s, e), wf, agent, key, bs[1..]);
    }
  }
}
