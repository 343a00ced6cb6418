/** Events other than deltas under at-least-once delivery: exactly when a repeat changes nothing. */
module RunSliceRepeat {
  import opened Text
  import opened MessageFilter
  import opened RunSlice
  import Invariant = RunSliceInvariant

  // ---------------------------------------------------------------- filters

  lemma {:induction false} WithoutNothing(ms: seq<Message>, sel: Selector)
    requires forall k :: 0 <= k < |ms| ==> !sel.Matches(ms[k])
    ensures Without(ms, sel) == ms
  {
    if ms != [] { WithoutNothing(ms[1..], sel); }
  }

  lemma WithoutTwice(ms: seq<Message>, sel: Selector)
    ensures Without(Without(ms, sel), sel) == Without(ms, sel)
  {
    var r := Without(ms, sel);
    forall k | 0 <= k < |r| ensures !sel.Matches(r[k]) { assert r[k] in r; }
    WithoutNothing(r, sel);
  }

  lemma {:induction false} WithoutAppend(ms: seq<Message>, m: Message, sel: Selector)
    requires sel.Matches(m)
    ensures Without(ms + [m], sel) == Without(ms, sel)
  {
    if ms == [] {
      assert [] + [m] == [m] && [m][1..] == [];
    } else {
      assert (ms + [m])[1..] == ms[1..] + [m];
      WithoutAppend(ms[1..], m, sel);
    }
  }

  predicate NoneMatch(ms: seq<Message>, sel: Selector) { forall k :: 0 <= k < |ms| ==> !sel.Matches(ms[k]) }

  lemma WithoutLeavesNone(ms: seq<Message>, sel: Selector)
    ensures NoneMatch(Without(ms, sel), sel)
  {
    var r := Without(ms, sel);
    forall k | 0 <= k < |r| ensures !sel.Matches(r[k]) { assert r[k] in r; }
  }

  lemma NoneMatchStays(ms: seq<Message>, sel: Selector, other: Selector)
    requires NoneMatch(ms, sel)
    ensures NoneMatch(Without(ms, other), sel)
  {
    var r := Without(ms, other);
    forall k | 0 <= k < |r| ensures !sel.Matches(r[k]) { assert r[k] in r && r[k] in ms; }
  }

  /** Adding a message under a new id and removing that id restores the list. */
  lemma AddedThenRemoved(ms: seq<Message>, m: Message)
    ensures Without(Added(ms, m), WithId(m.id)) == Without(ms, WithId(m.id))
    ensures !Has(ms, WithId(m.id)) ==> Without(Added(ms, m), WithId(m.id)) == ms
  {
    if !Has(ms, WithId(m.id)) {
      WithoutAppend(ms, m, WithId(m.id));
      forall k | 0 <= k < |ms| ensures !WithId(m.id).Matches(ms[k]) { assert ms[k] in ms; }
      WithoutNothing(ms, WithId(m.id));
    }
  }

  lemma FirstIndexIs(ms: seq<Message>, sel: Selector, i: nat)
    requires i < |ms| && sel.Matches(ms[i]) && forall k :: 0 <= k < i ==> !sel.Matches(ms[k])
    ensures FirstIndex(ms, sel) == i
  {
    var f := FirstIndex(ms, sel);
    assert !(f < i) && !(i < f);
  }

  // ---------------------------------------------------------------- one kind of event at a time

  lemma PillTwice(ms: seq<Message>, wf: string, kind: StatusKind, message: string)
    ensures AddPill(AddPill(ms, wf, kind, message), wf, kind, message) == AddPill(ms, wf, kind, message)
  {
    var msg := Trim(message);
    if ShowsPill(kind, msg) {
      WithoutAppend(Without(ms, StatusOf(wf)), PillMessage(wf, msg, KindName(kind)), StatusOf(wf));
      WithoutTwice(ms, StatusOf(wf));
    }
  }

  // ---------------------------------------------------------------- the final answer

  /** A placeholder of the workflow, or a streamed draft of its answer. */
  predicate Draft(m: Message, wf: string) {
    m.taskId == wf && (m.isGenerating || (m.sender == "final_output" && m.isStreaming))
  }

  predicate NoDraft(ms: seq<Message>, wf: string) { forall k :: 0 <= k < |ms| ==> !Draft(ms[k], wf) }

  lemma DraftsAreSelected(m: Message, wf: string)
    ensures Draft(m, wf) <==> GeneratingOf(wf).Matches(m) || StreamingFinal(wf).Matches(m)
  {
  }

  lemma ClearedIs(ms: seq<Message>, wf: string)
    ensures var r := ClearedForFinal(ms, wf);
            NoDraft(r, wf) && (forall m <- r :: m in ms) && (forall m <- ms :: Draft(m, wf) || m in r)
  {
    var once, r := Without(ms, GeneratingOf(wf)), ClearedForFinal(ms, wf);
    forall k | 0 <= k < |r| ensures !Draft(r[k], wf) {
      assert r[k] in r && r[k] in once;
      DraftsAreSelected(r[k], wf);
    }
    forall m | m in ms && !Draft(m, wf) ensures m in r {
      DraftsAreSelected(m, wf);
      assert m in once;
    }
  }

  lemma NothingToClear(ms: seq<Message>, wf: string)
    requires NoDraft(ms, wf)
    ensures ClearedForFinal(ms, wf) == ms
  {
    forall k | 0 <= k < |ms| ensures !GeneratingOf(wf).Matches(ms[k]) && !StreamingFinal(wf).Matches(ms[k]) {
      DraftsAreSelected(ms[k], wf);
    }
    WithoutNothing(ms, GeneratingOf(wf));
    WithoutNothing(ms, StreamingFinal(wf));
  }

  predicate IsAnswer(m: Message, wf: string, content: string) {
    && m.id == FinalId(wf) && m.role == Assistant && m.sender == "final_output" && m.content == content
    && m.taskId == wf && m.isFinalOutput && !m.isStreaming && !m.isGenerating
  }

  /** The final message of the workflow: the first under its id, or a new last one. */
  function PutFinal(ms: seq<Message>, wf: string, m: Message): seq<Message> {
    var i := FirstIndex(ms, WithId(FinalId(wf)));
    if i < |ms| then ms[i := m] else ms + [m]
  }

  /** The answer stands under the final id, and no draft is left. */
  predicate Answered(ms: seq<Message>, wf: string, content: string) {
    var i := FirstIndex(ms, WithId(FinalId(wf)));
    i < |ms| && IsAnswer(ms[i], wf, content) && NoDraft(ms, wf)
  }

  lemma PutFinalAnswers(ms: seq<Message>, wf: string, m: Message, content: string)
    requires NoDraft(ms, wf) && IsAnswer(m, wf, content)
    ensures Answered(PutFinal(ms, wf, m), wf, content)
    ensures FirstIndex(PutFinal(ms, wf, m), WithId(FinalId(wf))) == FirstIndex(ms, WithId(FinalId(wf)))
  {
    var i, r := FirstIndex(ms, WithId(FinalId(wf))), PutFinal(ms, wf, m);
    FirstIndexIs(r, WithId(FinalId(wf)), i);
    forall k | 0 <= k < |r| ensures !Draft(r[k], wf) { assert k != i ==> r[k] == ms[k]; }
  }

  lemma PutFinalKeepsOthers(ms: seq<Message>, wf: string, m: Message)
    ensures forall x <- ms :: x.id == FinalId(wf) || x in PutFinal(ms, wf, m)
  {
    var i, r := FirstIndex(ms, WithId(FinalId(wf))), PutFinal(ms, wf, m);
    forall x | x in ms && x.id != FinalId(wf) ensures x in r {
      var k :| 0 <= k < |ms| && ms[k] == x;
      assert r[k] == x;
    }
  }

  lemma PutFinalTwice(ms: seq<Message>, wf: string, m: Message)
    requires FirstIndex(ms, WithId(FinalId(wf))) < |ms| && ms[FirstIndex(ms, WithId(FinalId(wf)))] == m
    ensures PutFinal(ms, wf, m) == ms
  {
  }

  predicate Substantive(content: string) {
    !IsDiagnosticMessage(content) && !IsStatusMessage(content) && content != ""
  }

  function CompletedText(c: EventBody): string
    requires c.Completed?
  {
    if c.response != "" then c.response else c.content
  }

  /** What the completed branch puts under the final id. */
  function FinalReply(cleared: seq<Message>, wf: string, c: EventBody): Message
    requires c.Completed?
  {
    var i := FirstIndex(cleared, WithId(FinalId(wf)));
    if i < |cleared| then
      AsFinal(cleared[i], wf, CompletedText(c)).(
        metadata := if c.metadata.Some? then c.metadata else cleared[i].metadata)
    else FinalMessage(wf, CompletedText(c), c.metadata)
  }

  lemma FinalCompletedPuts(ms: seq<Message>, wf: string, c: EventBody)
    requires c.Completed? && Substantive(CompletedText(c))
    ensures var cleared := ClearedForFinal(ms, wf);
            ApplyFinalCompleted(ms, wf, c) == PutFinal(cleared, wf, FinalReply(cleared, wf, c))
  {
  }

  lemma FinalReplyAnswers(cleared: seq<Message>, wf: string, c: EventBody)
    requires c.Completed? && NoDraft(cleared, wf)
    requires forall m <- cleared :: m.id == FinalId(wf) ==> m.taskId == wf
    ensures IsAnswer(FinalReply(cleared, wf, c), wf, CompletedText(c))
  {
    var i := FirstIndex(cleared, WithId(FinalId(wf)));
    if i < |cleared| { assert cleared[i] in cleared; }
  }

  /** A substantive completed answer stands afterwards in place of every draft, all other messages
      are kept, and the same event once more changes nothing. */
  lemma FinalCompletedAnswers(ms: seq<Message>, wf: string, c: EventBody)
    requires c.Completed? && Substantive(CompletedText(c))
    requires forall m <- ms :: m.id == FinalId(wf) ==> m.taskId == wf
    ensures var after := ApplyFinalCompleted(ms, wf, c);
            && Answered(after, wf, CompletedText(c))
            && (forall m <- ms :: m.id == FinalId(wf) || Draft(m, wf) || m in after)
            && ApplyFinalCompleted(after, wf, c) == after
  {
    var cleared := ClearedForFinal(ms, wf);
    ClearedIs(ms, wf);
    FinalCompletedPuts(ms, wf, c);
    FinalReplyAnswers(cleared, wf, c);
    var m := FinalReply(cleared, wf, c);
    PutFinalAnswers(cleared, wf, m, CompletedText(c));
    PutFinalKeepsOthers(cleared, wf, m);
    var after := PutFinal(cleared, wf, m);
    NothingToClear(after, wf);
    FinalCompletedPuts(after, wf, c);
    FinalReplyAgain(cleared, wf, c);
    PutFinalTwice(after, wf, m);
  }

  lemma FinalReplyAgain(cleared: seq<Message>, wf: string, c: EventBody)
    requires c.Completed?
    requires var r := PutFinal(cleared, wf, FinalReply(cleared, wf, c));
             FirstIndex(r, WithId(FinalId(wf))) == FirstIndex(cleared, WithId(FinalId(wf)))
    ensures var r := PutFinal(cleared, wf, FinalReply(cleared, wf, c));
            && FirstIndex(r, WithId(FinalId(wf))) < |r|
            && r[FirstIndex(r, WithId(FinalId(wf)))] == FinalReply(cleared, wf, c) == FinalReply(r, wf, c)
  {
  }

  // ---------------------------------------------------------------- the other branches

  lemma FinalOutputTwice(ms: seq<Message>, wf: string, message: string)
    requires forall m <- ms :: m.id == FinalId(wf) ==> m.taskId == wf
    ensures var after := ApplyFinalOutput(ms, wf, message); ApplyFinalOutput(after, wf, message) == after
  {
    if message != "" {
      var cleared := ClearedForFinal(ms, wf);
      ClearedIs(ms, wf);
      var i := FirstIndex(cleared, WithId(FinalId(wf)));
      if i == |cleared| && Has(cleared, Selector.FinalOf(wf)) {
        NothingToClear(cleared, wf);
      } else {
        var m := OutputReply(cleared, wf, message);
        if i < |cleared| { assert cleared[i] in cleared; }
        PutFinalAnswers(cleared, wf, m, message);
        NothingToClear(PutFinal(cleared, wf, m), wf);
        OutputReplyAgain(cleared, wf, message);
      }
    }
  }

  /** What the LLM_OUTPUT branch puts under the final id. */
  function OutputReply(cleared: seq<Message>, wf: string, message: string): Message {
    var i := FirstIndex(cleared, WithId(FinalId(wf)));
    if i < |cleared| then AsFinal(cleared[i], wf, message) else FinalMessage(wf, message, None)
  }

  lemma OutputReplyAgain(cleared: seq<Message>, wf: string, message: string)
    requires NoDraft(cleared, wf) && message != ""
    requires var r := PutFinal(cleared, wf, OutputReply(cleared, wf, message));
             && FirstIndex(r, WithId(FinalId(wf))) == FirstIndex(cleared, WithId(FinalId(wf)))
             && ClearedForFinal(r, wf) == r
    ensures var r := PutFinal(cleared, wf, OutputReply(cleared, wf, message)); ApplyFinalOutput(r, wf, message) == r
  {
  }

  lemma InterimTwice(ms: seq<Message>, wf: string, message: string)
    ensures var after := ApplyInterim(ms, wf, message); ApplyInterim(after, wf, message) == after
  {
    if message != "" {
      var id := MsgId(InterimLead, wf);
      var after := ApplyInterim(ms, wf, message);
      FirstIndexIs(after, WithId(id), FirstIndex(ms, WithId(id)));
    }
  }

  lemma AnswerTwice(ms: seq<Message>, wf: string, agent: string, o: EventBody)
    requires o.LlmOutput?
    ensures var after := ApplyAnswer(ms, wf, agent, o); ApplyAnswer(after, wf, agent, o) == after
  {
    var after := ApplyAnswer(ms, wf, agent, o);
    if after != ms {
      var m := after[|after| - 1];
      assert m in after && WithId(m.id).Matches(m);
    }
  }

  lemma LlmOutputTwice(ms: seq<Message>, wf: string, agent: string, o: EventBody)
    requires o.LlmOutput? && forall m <- ms :: m.id == FinalId(wf) ==> m.taskId == wf
    ensures var after := ApplyLlmOutput(ms, wf, agent, o); ApplyLlmOutput(after, wf, agent, o) == after
  {
    FinalOutputTwice(ms, wf, o.message);
    InterimTwice(ms, wf, o.message);
    AnswerTwice(ms, wf, agent, o);
  }

  lemma FinalCompletedTwice(ms: seq<Message>, wf: string, c: EventBody)
    requires c.Completed? && forall m <- ms :: m.id == FinalId(wf) ==> m.taskId == wf
    ensures var after := ApplyFinalCompleted(ms, wf, c); ApplyFinalCompleted(after, wf, c) == after
  {
    if Substantive(CompletedText(c)) { FinalCompletedAnswers(ms, wf, c); }
  }

  lemma StreamEndTwice(ms: seq<Message>, wf: string)
    requires Invariant.WellFormed(ms)
    ensures var after := ApplyStreamEnd(ms, wf); ApplyStreamEnd(after, wf) == after
  {
    var after := ApplyStreamEnd(ms, wf);
    Invariant.StreamEndKeeps(ms, wf);
    Invariant.StreamEndRemovesPlaceholder(ms, wf);
    Invariant.StreamEndRemovesPlaceholder(after, wf);
    if Has(ms, SettledAssistant(wf)) {
      WithoutTwice(ms, AnyStatusOrGenerating);
      NoStatusLeft(ms);
    } else {
      WithoutTwice(ms, AnyStatus);
      NothingSettles(ms, wf);
    }
  }

  lemma NoStatusLeft(ms: seq<Message>)
    ensures var r := Without(ms, AnyStatusOrGenerating); Without(r, AnyStatus) == r
  {
    var r := Without(ms, AnyStatusOrGenerating);
    forall k | 0 <= k < |r| ensures !AnyStatus.Matches(r[k]) {
      assert r[k] in r && !AnyStatusOrGenerating.Matches(r[k]);
    }
    WithoutNothing(r, AnyStatus);
  }

  lemma NothingSettles(ms: seq<Message>, wf: string)
    requires !Has(ms, SettledAssistant(wf))
    ensures !Has(Without(ms, AnyStatus), SettledAssistant(wf))
  {
    forall m | m in Without(ms, AnyStatus) ensures !SettledAssistant(wf).Matches(m) { assert m in ms; }
  }

  lemma SwarmTwice(sw: Swarm, agent: string, body: EventBody)
    ensures TrackSwarm(TrackSwarm(sw, agent, body), agent, body) == TrackSwarm(sw, agent, body)
  {
    var once := TrackSwarm(sw, agent, body);
    assert TrackSwarm(once, agent, body).agentRegistry == once.agentRegistry;
  }

  // ---------------------------------------------------------------- end of a workflow

  /** An event body that reads another clock. */
  function Later(b: EventBody, later: nat): EventBody {
    match b
    case Completed(response, content, streamId, seqNo, metadata, _) =>
      Completed(response, content, streamId, seqNo, metadata, later)
    case WorkflowCompleted(message, _) => WorkflowCompleted(message, later)
    case _ => b
  }

  /** A waiting placeholder counts as the workflow's message here too, so it is removed. */
  lemma SettleIs(ms: seq<Message>, wf: string)
    requires Invariant.WellFormed(ms) && NoneMatch(ms, StatusOf(wf))
    ensures SettleWorkflow(ms, wf) == Without(ms, StatusOrGeneratingOf(wf))
  {
    if !Has(ms, SettledProper(wf)) {
      forall k | 0 <= k < |ms| ensures !StatusOrGeneratingOf(wf).Matches(ms[k]) && !GeneratingAssistant(wf).Matches(ms[k]) {
        assert Invariant.Shaped(ms[k]) && !StatusOf(wf).Matches(ms[k]);
        assert ms[k] in ms && !SettledProper(wf).Matches(ms[k]);
      }
      WithoutNothing(ms, StatusOrGeneratingOf(wf));
      WithoutNothing(ms, StatusOf(wf));
    }
  }

  lemma ResultTwice(ms: seq<Message>, wf: string, message: string, clock: nat, later: nat)
    ensures var once := ApplyWorkflowResult(ms, wf, message, clock);
            NoneMatch(once, InterimOf(wf)) && ApplyWorkflowResult(once, wf, message, later) == once
  {
    var once := ApplyWorkflowResult(ms, wf, message, clock);
    var base := Without(ms, InterimOf(wf));
    WithoutLeavesNone(ms, InterimOf(wf));
    assert NoneMatch(once, InterimOf(wf));
    if once != base {
      var m := once[|base|];
      assert m in once && AnyAssistant(wf).Matches(m);
    }
    NoMoreResult(once, wf, message, later);
  }

  lemma NoMoreResult(ms: seq<Message>, wf: string, message: string, later: nat)
    requires NoneMatch(ms, InterimOf(wf)) && (Has(ms, AnyAssistant(wf)) || !SubstantiveResult(message))
    ensures ApplyWorkflowResult(ms, wf, message, later) == ms
  {
    WithoutNothing(ms, InterimOf(wf));
  }

  lemma ResultAddsNone(ms: seq<Message>, wf: string, message: string, clock: nat, sel: Selector)
    requires NoneMatch(ms, sel) && (sel == StatusOf(wf) || sel == StatusOrGeneratingOf(wf))
    ensures NoneMatch(ApplyWorkflowResult(ms, wf, message, clock), sel)
  {
    NoneMatchStays(ms, sel, InterimOf(wf));
  }

  /** The same end of a workflow once more, whatever the clock says then. */
  lemma WorkflowDoneTwice(s: RunState, once: RunState, e: Event, later: nat)
    requires e.body.WorkflowCompleted? && Invariant.WellFormed(s.messages)
    requires once.messages == ContentMessages(StatusMessages(s, e), e)
    requires once.status == NextStatus(s, e) && once.mainWorkflowId == s.mainWorkflowId
    ensures ContentMessages(StatusMessages(once, AtClock(e, later)), AtClock(e, later)) == once.messages
  {
    var wf, message, clock := e.wf, e.body.message, e.body.clock;
    var ms1, ms2 := Without(s.messages, StatusOf(wf)), StatusMessages(s, e);
    WithoutLeavesNone(s.messages, StatusOf(wf));
    Invariant.WithoutKeeps(s.messages, StatusOf(wf));
    SettleIs(ms1, wf);
    NoneMatchStays(ms1, StatusOf(wf), StatusOrGeneratingOf(wf));
    assert NoneMatch(ms2, StatusOf(wf));
    ResultAddsNone(ms2, wf, message, clock, StatusOf(wf));
    WithoutNothing(once.messages, StatusOf(wf));
    ResultTwice(ms2, wf, message, clock, later);
    if CompletesRun(s, wf, message) {
      WithoutLeavesNone(ms1, StatusOrGeneratingOf(wf));
      ResultAddsNone(ms2, wf, message, clock, StatusOrGeneratingOf(wf));
      WithoutNothing(once.messages, StatusOrGeneratingOf(wf));
      Invariant.SettleKeeps(ms1, wf);
      Invariant.WorkflowResultKeeps(ms2, wf, message, clock);
      SettleIs(once.messages, wf);
    }
  }

  // ---------------------------------------------------------------- agents' own completed messages

  /** The id a completed event gives to a message of its own. */
  function CompletedId(wf: string, c: EventBody): MsgId
    requires c.Completed?
  {
    StreamMsgId(wf, CompletedKey(c.streamId, c.seqNo, c.clock))
  }

  /** Without an open message: the event brings a text under a new id that no answer shows yet. */
  predicate BringsText(ms: seq<Message>, wf: string, c: EventBody)
    requires c.Completed?
  {
    Substantive(CompletedText(c)) && !Has(ms, WithId(CompletedId(wf, c))) && !Has(ms, SameAnswer(wf, CompletedText(c)))
  }

  /** The repeat brings a text the first event did not show: because that one only closed a streamed
      message, giving no response, or because its clock made an id that another message had. */
  predicate AddsOnRepeat(ms: seq<Message>, wf: string, c: EventBody, later: nat)
    requires c.Completed?
  {
    var i := LastStreaming(ms, wf);
    && BringsText(ms, wf, Later(c, later))
    && if i >= 0 then c.response == "" && ms[i].content != c.content else Has(ms, WithId(CompletedId(wf, c)))
  }

  lemma CompletedRepeatsExactlyWhen(ms: seq<Message>, wf: string, agent: string, c: EventBody, later: nat)
    requires c.Completed? && Invariant.WellFormed(ms)
    ensures var once := ApplyCompleted(ms, wf, agent, c);
            ApplyCompleted(once, wf, agent, Later(c, later)) == once <==> !AddsOnRepeat(ms, wf, c, later)
  {
    var i := LastStreaming(ms, wf);
    if i >= 0 {
      Invariant.CompletedKeeps(ms, wf, agent, c);
      if IsDiagnosticMessage(c.response) { RemovedLeavesNone(ms, wf, i); } else { ClosedRepeats(ms, wf, agent, c, later); }
    } else {
      PlainRepeats(ms, wf, agent, c, later);
    }
  }

  lemma RemovedLeavesNone(ms: seq<Message>, wf: string, i: nat)
    requires Invariant.WellFormed(ms) && i == LastStreaming(ms, wf)
    ensures LastStreaming(ms[..i] + ms[i + 1..], wf) < 0
  {
    var r := ms[..i] + ms[i + 1..];
    forall k | 0 <= k < |r| ensures !r[k].StreamingFor(wf) {
      Invariant.NoOtherStreams(ms, wf, if k < i then k else k + 1);
    }
  }

  lemma ClosedLeavesNone(ms: seq<Message>, wf: string, i: nat, m: Message)
    requires Invariant.WellFormed(ms) && i == LastStreaming(ms, wf) && !m.isStreaming
    ensures LastStreaming(ms[i := m], wf) < 0
  {
    var after := ms[i := m];
    forall k | 0 <= k < |after| ensures !after[k].StreamingFor(wf) {
      if k != i { Invariant.NoOtherStreams(ms, wf, k); }
    }
  }

  /** Closing a message changes which ids are there not at all, and adds its text to the answers. */
  lemma ClosedHas(ms: seq<Message>, i: nat, m: Message, wf: string, id: MsgId, text: string)
    requires i < |ms| && ms[i].isStreaming && m.id == ms[i].id
    requires m.taskId == wf && m.role == Assistant && !m.isStreaming && !m.isGenerating
    ensures Has(ms[i := m], WithId(id)) <==> Has(ms, WithId(id))
    ensures Has(ms[i := m], SameAnswer(wf, text)) <==> Has(ms, SameAnswer(wf, text)) || m.content == text
  {
    var after := ms[i := m];
    if Has(ms, WithId(id)) {
      var k :| 0 <= k < |ms| && WithId(id).Matches(ms[k]);
      assert after[k] in after && WithId(id).Matches(after[k]);
    }
    if Has(after, WithId(id)) {
      var k :| 0 <= k < |after| && WithId(id).Matches(after[k]);
      assert ms[k] in ms && WithId(id).Matches(ms[k]);
    }
    if Has(ms, SameAnswer(wf, text)) {
      var k :| 0 <= k < |ms| && SameAnswer(wf, text).Matches(ms[k]);
      assert after[k] in after && SameAnswer(wf, text).Matches(after[k]);
    }
    if m.content == text { assert after[i] in after && SameAnswer(wf, text).Matches(after[i]); }
    if Has(after, SameAnswer(wf, text)) && m.content != text {
      var k :| 0 <= k < |after| && SameAnswer(wf, text).Matches(after[k]);
      assert ms[k] in ms && SameAnswer(wf, text).Matches(ms[k]);
    }
  }

  lemma ClosedRepeats(ms: seq<Message>, wf: string, agent: string, c: EventBody, later: nat)
    requires c.Completed? && Invariant.WellFormed(ms) && LastStreaming(ms, wf) >= 0
    requires !IsDiagnosticMessage(c.response)
    ensures var once := ms[LastStreaming(ms, wf) := Finished(ms[LastStreaming(ms, wf)], c)];
            ApplyCompleted(once, wf, agent, Later(c, later)) == once <==> !AddsOnRepeat(ms, wf, c, later)
  {
    var i := LastStreaming(ms, wf);
    var m := Finished(ms[i], c);
    assert Invariant.Shaped(ms[i]);
    ClosedLeavesNone(ms, wf, i, m);
    ClosedHas(ms, i, m, wf, CompletedId(wf, Later(c, later)), CompletedText(c));
    UnopenedChanges(ms[i := m], wf, agent, Later(c, later));
  }

  /** Without an open message a completed event changes the list exactly when it adds its text. */
  lemma UnopenedChanges(ms: seq<Message>, wf: string, agent: string, c: EventBody)
    requires c.Completed? && LastStreaming(ms, wf) < 0
    ensures ApplyCompleted(ms, wf, agent, c) != ms <==> BringsText(ms, wf, c)
    ensures BringsText(ms, wf, c) ==> ApplyCompleted(ms, wf, agent, c) == WithOwn(ms, wf, agent, c)
  {
    if BringsText(ms, wf, c) {
      var after, base := ApplyCompleted(ms, wf, agent, c), PlaceholderCleared(ms, wf, agent);
      var g := FirstIndex(base, GeneratingAssistant(wf));
      assert after[g] in after && WithId(CompletedId(wf, c)).Matches(after[g]);
    }
  }

  function WithOwn(ms: seq<Message>, wf: string, agent: string, c: EventBody): seq<Message>
    requires c.Completed?
  {
    InsertBeforePlaceholder(PlaceholderCleared(ms, wf, agent), wf,
                            PlainMessage(CompletedId(wf, c), wf, agent, CompletedText(c), c.metadata))
  }

  lemma PlainRepeats(ms: seq<Message>, wf: string, agent: string, c: EventBody, later: nat)
    requires c.Completed? && LastStreaming(ms, wf) < 0
    ensures var once := ApplyCompleted(ms, wf, agent, c);
            ApplyCompleted(once, wf, agent, Later(c, later)) == once <==> !AddsOnRepeat(ms, wf, c, later)
  {
    UnopenedChanges(ms, wf, agent, c);
    if BringsText(ms, wf, c) {
      OwnTextIsShown(ms, wf, agent, c, later);
    } else {
      UnopenedChanges(ms, wf, agent, Later(c, later));
    }
  }

  lemma OwnTextIsShown(ms: seq<Message>, wf: string, agent: string, c: EventBody, later: nat)
    requires c.Completed? && LastStreaming(ms, wf) < 0
    ensures var once := WithOwn(ms, wf, agent, c); ApplyCompleted(once, wf, agent, Later(c, later)) == once
  {
    InsertedAnswers(ms, wf, agent, PlainMessage(CompletedId(wf, c), wf, agent, CompletedText(c), c.metadata));
    UnopenedChanges(WithOwn(ms, wf, agent, c), wf, agent, Later(c, later));
  }

  lemma InsertedAnswers(ms: seq<Message>, wf: string, agent: string, m: Message)
    requires LastStreaming(ms, wf) < 0
    requires m.taskId == wf && m.role == Assistant && !m.isStreaming && !m.isGenerating
    ensures var once := InsertBeforePlaceholder(PlaceholderCleared(ms, wf, agent), wf, m);
            LastStreaming(once, wf) < 0 && Has(once, SameAnswer(wf, m.content))
  {
    var base := PlaceholderCleared(ms, wf, agent);
    var g, once := FirstIndex(base, GeneratingAssistant(wf)), InsertBeforePlaceholder(base, wf, m);
    assert once[g] in once && SameAnswer(wf, m.content).Matches(once[g]);
    forall k | 0 <= k < |once| ensures !once[k].StreamingFor(wf) {
      if k != g {
        assert once[k] == base[if k < g then k else k - 1];
        assert once[k] in base && once[k] in ms;
      }
    }
  }

  // ---------------------------------------------------------------- whole events

  /** The same event reduced at another time. */
  function AtClock(e: Event, later: nat): Event {
    e.(body := Later(e.body, later))
  }

  /** Whether an agent's own completed message changes the state once more. */
  predicate ChangesOnRepeat(s: RunState, e: Event, later: nat) {
    && !e.historical && e.body.Completed? && !IsIntermediate(e.agent)
    && e.agent != "final_output" && AddsOnRepeat(s.messages, e.wf, e.body, later)
  }

  /** r is s after the event, field by field. */
  predicate StateAfter(s: RunState, e: Event, r: RunState) {
    && r.messages == ContentMessages(StatusMessages(s, e), e)
    && r.status == NextStatus(s, e)
    && r.mainWorkflowId == s.mainWorkflowId
    && r.sessionTitle == NextTitle(s.sessionTitle, e)
    && r.swarm == ReduceSwarm(s, e.agent, e.body).swarm
    && r.swarmMode == ReduceSwarm(s, e.agent, e.body).swarmMode
  }

  lemma ReduceSplits(s: RunState, e: Event)
    requires !e.historical
    ensures StateAfter(s, e, Reduce(s, e))
  {
  }

  /** Events that touch messages in one of the two parts only, and do not read a clock. */
  lemma SimpleMessagesTwice(s: RunState, once: RunState, e: Event)
    requires !e.body.Delta? && !e.body.Completed? && !e.body.WorkflowCompleted?
    requires Invariant.WellFormed(s.messages)
    requires once.messages == ContentMessages(StatusMessages(s, e), e)
    ensures ContentMessages(StatusMessages(once, e), e) == once.messages
  {
    var ms := s.messages;
    match e.body
    case StatusUpdate(kind, message, _) => PillTwice(ms, e.wf, kind, message);
    case WorkflowFailed => WithoutTwice(ms, AnyStatusOrGenerating);
    case StreamError => WithoutTwice(ms, AnyStatusOrGenerating);
    case StreamEnd => StreamEndTwice(ms, e.wf);
    case LlmOutput(_, _, _, _, _) => FinalIdsFit(ms, e.wf); LlmOutputTwice(ms, e.wf, e.agent, e.body);
    case _ =>
  }

  lemma FinalIdsFit(ms: seq<Message>, wf: string)
    requires Invariant.WellFormed(ms)
    ensures forall m <- ms :: m.id == FinalId(wf) ==> m.taskId == wf
  {
    forall m | m in ms && m.id == FinalId(wf) ensures m.taskId == wf {
      var k :| 0 <= k < |ms| && ms[k] == m;
      assert Invariant.Shaped(ms[k]);
    }
  }

  lemma CompletedMessagesTwice(s: RunState, once: RunState, e: Event, later: nat)
    requires e.body.Completed? && !e.historical && Invariant.WellFormed(s.messages)
    requires once.messages == ContentMessages(StatusMessages(s, e), e)
    ensures ContentMessages(StatusMessages(once, AtClock(e, later)), AtClock(e, later)) == once.messages
       <==> !ChangesOnRepeat(s, e, later)
  {
    if e.agent == "final_output" {
      FinalIdsFit(s.messages, e.wf);
      FinalCompletedTwice(s.messages, e.wf, e.body);
      FinalIgnoresClock(once.messages, e.wf, e.body, later);
    } else {
      CompletedRepeatsExactlyWhen(s.messages, e.wf, e.agent, e.body, later);
    }
  }

  lemma FinalIgnoresClock(ms: seq<Message>, wf: string, c: EventBody, later: nat)
    requires c.Completed?
    ensures ApplyFinalCompleted(ms, wf, Later(c, later)) == ApplyFinalCompleted(ms, wf, c)
  {
  }

  lemma MessagesTwice(s: RunState, once: RunState, e: Event, later: nat)
    requires !e.body.Delta? && !e.historical && Invariant.WellFormed(s.messages) && StateAfter(s, e, once)
    ensures ContentMessages(StatusMessages(once, AtClock(e, later)), AtClock(e, later)) == once.messages
       <==> !ChangesOnRepeat(s, e, later)
  {
    if e.body.WorkflowCompleted? {
      WorkflowDoneTwice(s, once, e, later);
    } else if e.body.Completed? {
      CompletedMessagesTwice(s, once, e, later);
    } else {
      SimpleMessagesTwice(s, once, e);
    }
  }

  /** For every event but a delta, and whatever the clock says at the repeat: the whole state after the
      repeat is the state before it, unless the event is an agent's own completed message whose text the
      first one did not show. */
  lemma RepeatChangesNothingExactlyWhen(s: RunState, e: Event, later: nat)
    requires !e.body.Delta? && Invariant.WellFormed(s.messages)
    ensures Reduce(Reduce(s, e), AtClock(e, later)) == Reduce(s, e) <==> !ChangesOnRepeat(s, e, later)
  {
    if !e.historical {
      var once := Reduce(s, e);
      ReduceSplits(s, e);
      ReduceSplits(once, AtClock(e, later));
      MessagesTwice(s, once, e, later);
      OtherFieldsTwice(s, once, Reduce(once, AtClock(e, later)), e, later);
    }
  }

  /** So it is in every state a run of the store can reach. */
  lemma EveryRunAbsorbsRepeats(acts: seq<Invariant.Action>, e: Event, later: nat)
    requires !e.body.Delta? && forall a <- acts :: Invariant.Admissible(a)
    ensures var s := Invariant.PerformAll(INITIAL_STATE, acts);
            Reduce(Reduce(s, e), AtClock(e, later)) == Reduce(s, e) <==> !ChangesOnRepeat(s, e, later)
  {
    Invariant.EveryRunIsWellFormed(acts);
    RepeatChangesNothingExactlyWhen(Invariant.PerformAll(INITIAL_STATE, acts), e, later);
  }

  lemma OtherFieldsTwice(s: RunState, once: RunState, twice: RunState, e: Event, later: nat)
    requires !e.body.Delta? && StateAfter(s, e, once) && StateAfter(once, AtClock(e, later), twice)
    ensures twice == once <==> twice.messages == once.messages
  {
    SwarmPartTwice(s, once, e);
    StatusTwice(s, once, e, later);
  }

  lemma StatusTwice(s: RunState, once: RunState, e: Event, later: nat)
    requires !e.body.Delta? && once.status == NextStatus(s, e) && once.mainWorkflowId == s.mainWorkflowId
    requires once.sessionTitle == NextTitle(s.sessionTitle, e)
    ensures NextStatus(once, AtClock(e, later)) == once.status
    ensures NextTitle(once.sessionTitle, AtClock(e, later)) == once.sessionTitle
  {
  }

  lemma SwarmPartTwice(s: RunState, once: RunState, e: Event)
    requires once.swarm == ReduceSwarm(s, e.agent, e.body).swarm
    requires once.swarmMode == ReduceSwarm(s, e.agent, e.body).swarmMode
    ensures ReduceSwarm(once, e.agent, e.body).swarm == once.swarm
    ensures ReduceSwarm(once, e.agent, e.body).swarmMode == once.swarmMode
  {
    if once.swarm.Some? {
      var sw := if s.swarm.None? then EMPTY_SWARM else s.swarm.value;
      SwarmTwice(sw, e.agent, e.body);
    }
  }

  // ---------------------------------------------------------------- witness

  /** A run in which a repeat adds text: the completed event closes a streamed message without giving a
      response, and comes under another id than the stream's. */
  lemma RepeatAddsText(wf: string, streamed: string, content: string)
    requires !IsDiagnosticMessage(streamed) && Substantive(content) && streamed != content
    ensures var delta := Event(wf, "", false, Delta([Part(streamed, None)], "k", None, 0));
            var done := Event(wf, "", false, Completed("", content, "", Some(5), None, 0));
            var once := ReduceAll(INITIAL_STATE, [delta, done]).messages;
            var twice := ReduceAll(INITIAL_STATE, [delta, done, done]).messages;
            && |once| == 1 && once[0].content == streamed && !once[0].isStreaming
            && twice == once + [PlainMessage(StreamMsgId(wf, "5"), wf, "", content, None)]
  {
    var delta := Event(wf, "", false, Delta([Part(streamed, None)], "k", None, 0));
    var done := Event(wf, "", false, Completed("", content, "", Some(5), None, 0));
    var open := StreamMessage(StreamMsgId(wf, "k"), wf, "", [Part(streamed, None)], None);
    var closed := Finished(open, done.body);
    var s1 := Reduce(INITIAL_STATE, delta);
    var s2 := Reduce(s1, done);
    JoinedOne(Part(streamed, None));
    OpensFirst(wf, streamed);
    ClosesOnly(open, wf, done.body);
    AddsBeside(closed, wf, content, done.body);
    OwnEventReduces(INITIAL_STATE, delta);
    OwnEventReduces(s1, done);
    OwnEventReduces(s2, done);
    ReduceTwo(INITIAL_STATE, delta, done);
    ReduceThree(INITIAL_STATE, delta, done, done);
  }

  lemma OwnEventReduces(s: RunState, e: Event)
    requires !e.historical && e.agent == "" && (e.body.Delta? || e.body.Completed?)
    ensures Reduce(s, e).messages == if e.body.Delta? then ApplyDelta(s.messages, e.wf, "", e.body)
                                     else ApplyCompleted(s.messages, e.wf, "", e.body)
  {
    ReduceSplits(s, e);
  }

  lemma JoinedOne(p: Part)
    ensures Joined([p]) == p.text
  {
    assert [p][1..] == [] && Joined([]) == "";
    assert Joined([p]) == p.text + Joined([p][1..]);
  }

  lemma ReduceOne(s: RunState, a: Event)
    ensures ReduceAll(s, [a]) == Reduce(s, a)
  {
    var none: seq<Event> := [];
    assert [a][1..] == none && ReduceAll(Reduce(s, a), none) == Reduce(s, a);
  }

  lemma ReduceTwo(s: RunState, a: Event, b: Event)
    ensures ReduceAll(s, [a, b]) == Reduce(Reduce(s, a), b)
  {
    assert [a, b][1..] == [b];
    ReduceOne(Reduce(s, a), b);
  }

  lemma ReduceThree(s: RunState, a: Event, b: Event, c: Event)
    ensures ReduceAll(s, [a, b, c]) == Reduce(Reduce(Reduce(s, a), b), c)
  {
    assert [a, b, c][1..] == [b, c];
    ReduceTwo(Reduce(s, a), b, c);
  }

  lemma OpensFirst(wf: string, streamed: string)
    requires !IsDiagnosticMessage(streamed)
    ensures ApplyDelta([], wf, "", Delta([Part(streamed, None)], "k", None, 0))
         == [StreamMessage(StreamMsgId(wf, "k"), wf, "", [Part(streamed, None)], None)]
  {
    var parts := [Part(streamed, None)];
    assert parts[1..] == [];
    assert NonDiagnostic(parts) == parts && NewParts(parts, []) == parts;
  }

  lemma ClosesOnly(m: Message, wf: string, c: EventBody)
    requires m.StreamingFor(wf) && c.Completed? && !IsDiagnosticMessage(c.response)
    ensures ApplyCompleted([m], wf, "", c) == [Finished(m, c)]
  {
  }

  lemma AddsBeside(m: Message, wf: string, content: string, c: EventBody)
    requires c == Completed("", content, "", Some(5), None, 0) && Substantive(content) && m.content != content
    requires m.id == StreamMsgId(wf, "k") && !m.isStreaming && !m.isGenerating
    ensures ApplyCompleted([m], wf, "", c) == [m] + [PlainMessage(StreamMsgId(wf, "5"), wf, "", content, None)]
  {
    var id := StreamMsgId(wf, "5");
    assert PrintInt(5) == "5";
    assert (wf + "-" + "k")[|wf| + 1] == 'k' && (wf + "-" + "5")[|wf| + 1] == '5';
    assert !WithId(id).Matches(m) && !SameAnswer(wf, content).Matches(m);
    assert FirstIndex([m], GeneratingAssistant(wf)) == 1;
  }
}
