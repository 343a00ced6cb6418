/** The open message of one stream, and the events that leave it alone. */
module OpenMessage {
  import opened Text
  import opened MessageFilter
  import opened RunSlice
  import opened RunSliceReplay
  import Invariant = RunSliceInvariant

  /** The workflow, agent and stream whose text a run is about. `unmarked` says that none of its
      deltas carries the interim mark, which the end of its workflow would take for a reason to
      remove the message. */
  datatype Source = Source(wf: string, agent: string, key: string, unmarked: bool) {
    predicate Direct() { key != "" && !IsIntermediate(agent) }

    function Id(): MsgId { StreamMsgId(wf, key) }
  }

  predicate Marked(m: Option<Meta>) { m.Some? && "interim" in m.value && m.value["interim"] != "" }

  /** An event that leaves the open message of the source alone: any status, task list, timeline,
      failure and end-of-stream event of any workflow, every event of another workflow unless it
      uses the id of the source's message, every event of an intermediate agent, and answers of the
      same workflow that do not replace a streamed final answer. */
  predicate Foreign(e: Event, src: Source) {
    || e.historical || (IsIntermediate(e.agent) && !e.body.WorkflowCompleted?)
    || match e.body
       case Delta(_, streamId, _, clock) => e.wf != src.wf && StreamMsgId(e.wf, DeltaKey(streamId, clock)) != src.Id()
       case Completed(_, _, streamId, seqNo, _, clock) =>
         if e.agent == "final_output" then e.wf != src.wf || src.agent != "final_output"
         else e.wf != src.wf && StreamMsgId(e.wf, CompletedKey(streamId, seqNo, clock)) != src.Id()
       case LlmOutput(_, _, _, _, _) => e.agent != "final_output" || e.wf != src.wf || src.agent != "final_output"
       case WorkflowCompleted(_, _) => e.wf != src.wf || src.unmarked
       case _ => true
  }

  // ---------------------------------------------------------------- the open message

  predicate OwnMessage(m: Message, src: Source) {
    m.id == src.Id() && m.sender == src.agent && (src.unmarked ==> !m.Interim())
  }

  /** The message list holds `c` as the open message of the source. */
  ghost predicate Shows(ms: seq<Message>, src: Source, c: Option<Core>) {
    && Invariant.WellFormed(ms)
    && var i := LastStreaming(ms, src.wf);
       if i >= 0 then c == Some(CoreOf(ms[i])) && OwnMessage(ms[i], src)
       else c.None? && !Has(ms, WithId(src.Id()))
  }

  lemma DeltaStep(ms: seq<Message>, src: Source, c: Option<Core>, parts: seq<Part>, metadata: Option<Meta>, clock: nat)
    requires Shows(ms, src, c) && src.Direct() && (src.unmarked ==> !Marked(metadata))
    ensures Shows(ApplyDelta(ms, src.wf, src.agent, Delta(parts, src.key, metadata, clock)), src,
                  Deliver(c, Batch(parts, metadata)))
  {
    var d := Delta(parts, src.key, metadata, clock);
    var c' := Deliver(c, Batch(parts, metadata));
    assert Place(ms, src.wf, src.agent, src.key, c) == ms;
    DeltaDelivers(ms, src.wf, src.agent, c, d);
    Invariant.DeltaKeeps(ms, src.wf, src.agent, d);
    if c'.Some? {
      PlacedAt(ms, src.wf, src.agent, src.key, c');
      PlacedOwn(ms, src, c, c'.value);
    }
  }

  lemma PlacedOwn(ms: seq<Message>, src: Source, c: Option<Core>, next: Core)
    requires Shows(ms, src, c) && (src.unmarked ==> !Marked(next.metadata))
    ensures var after := Place(ms, src.wf, src.agent, src.key, Some(next));
            LastStreaming(after, src.wf) >= 0 && OwnMessage(after[LastStreaming(after, src.wf)], src)
  {
    PlacedAt(ms, src.wf, src.agent, src.key, Some(next));
  }

  // ---------------------------------------------------------------- what leaves it alone

  /** The message of the source once its stream is finished. */
  predicate ClosedOwn(m: Message, src: Source) {
    && m.id == src.Id() && m.role == Assistant && m.taskId == src.wf && !m.isStreaming && !m.isGenerating
    && (src.unmarked ==> !m.Interim())
  }

  predicate Kept(m: Message, src: Source) { m.StreamingFor(src.wf) || ClosedOwn(m, src) }

  /** The same open messages of the source's workflow, no closed message of the source lost, and no new
      message under its id. */
  ghost predicate Spared(ms: seq<Message>, after: seq<Message>, src: Source) {
    && (forall m <- ms :: Kept(m, src) ==> m in after)
    && (forall m <- after :: m.StreamingFor(src.wf) ==> m in ms)
    && (Has(after, WithId(src.Id())) ==> Has(ms, WithId(src.Id())))
  }

  ghost predicate OpenIsOwn(ms: seq<Message>, src: Source) {
    forall m <- ms :: m.StreamingFor(src.wf) ==> OwnMessage(m, src) && !m.isGenerating
  }

  lemma ShowsOpensOwn(ms: seq<Message>, src: Source, c: Option<Core>)
    requires Shows(ms, src, c)
    ensures OpenIsOwn(ms, src)
  {
    Invariant.OneStream(ms, src.wf);
    forall m | m in ms && m.StreamingFor(src.wf) ensures OwnMessage(m, src) && !m.isGenerating {
      var k :| 0 <= k < |ms| && ms[k] == m;
      assert Invariant.Shaped(ms[k]);
    }
  }

  lemma SparedShows(ms: seq<Message>, after: seq<Message>, src: Source, c: Option<Core>)
    requires Shows(ms, src, c) && Spared(ms, after, src) && Invariant.WellFormed(after)
    ensures Shows(after, src, c)
  {
    var i := LastStreaming(ms, src.wf);
    Invariant.OneStream(after, src.wf);
    if i >= 0 {
      assert ms[i] in ms && ms[i] in after;
      var n :| 0 <= n < |after| && after[n] == ms[i];
    } else {
      assert forall m <- ms :: !m.StreamingFor(src.wf);
      forall k | 0 <= k < |after| ensures !after[k].StreamingFor(src.wf) { assert after[k] in after; }
    }
  }

  lemma SparedThen(a: seq<Message>, b: seq<Message>, c: seq<Message>, src: Source)
    requires Spared(a, b, src) && Spared(b, c, src)
    ensures Spared(a, c, src)
    ensures OpenIsOwn(a, src) ==> OpenIsOwn(b, src)
  {
  }

  lemma WithoutSpares(ms: seq<Message>, sel: Selector, src: Source)
    requires forall m <- ms :: Kept(m, src) ==> !sel.Matches(m)
    ensures Spared(ms, Without(ms, sel), src)
  {
  }

  lemma InsertSpares(ms: seq<Message>, g: nat, m: Message, src: Source)
    requires g <= |ms| && !m.StreamingFor(src.wf) && m.id != src.Id()
    ensures Spared(ms, ms[..g] + [m] + ms[g..], src)
  {
    var after := ms[..g] + [m] + ms[g..];
    forall x | x in ms ensures x in after {
      var k :| 0 <= k < |ms| && ms[k] == x;
      assert after[if k < g then k else k + 1] == x;
    }
    forall x | x in after && x != m ensures x in ms {
      var k :| 0 <= k < |after| && after[k] == x;
      assert ms[if k < g then k else k - 1] == x;
    }
  }

  lemma AppendSpares(ms: seq<Message>, m: Message, src: Source)
    requires !m.StreamingFor(src.wf) && m.id != src.Id()
    ensures Spared(ms, ms + [m], src)
  {
    InsertSpares(ms, |ms|, m, src);
    assert ms[..|ms|] + [m] + ms[|ms|..] == ms + [m];
  }

  lemma UpdateSpares(ms: seq<Message>, i: nat, m: Message, src: Source)
    requires i < |ms| && !Kept(ms[i], src) && !m.StreamingFor(src.wf) && m.id == ms[i].id
    ensures Spared(ms, ms[i := m], src)
  {
    var after := ms[i := m];
    forall x | x in ms && Kept(x, src) ensures x in after {
      var k :| 0 <= k < |ms| && ms[k] == x;
      assert after[k] == x;
    }
    if Has(after, WithId(src.Id())) {
      var k :| 0 <= k < |after| && WithId(src.Id()).Matches(after[k]);
      assert ms[k] in ms && WithId(src.Id()).Matches(ms[k]);
    }
  }

  lemma RemoveSpares(ms: seq<Message>, i: nat, src: Source)
    requires i < |ms| && !Kept(ms[i], src)
    ensures Spared(ms, ms[..i] + ms[i + 1..], src)
  {
    var after := ms[..i] + ms[i + 1..];
    forall x | x in ms && Kept(x, src) ensures x in after {
      var k :| 0 <= k < |ms| && ms[k] == x;
      assert after[if k < i then k else k - 1] == x;
    }
    forall x | x in after ensures x in ms {
      var k :| 0 <= k < |after| && after[k] == x;
      assert ms[if k < i then k else k + 1] == x;
    }
  }

  // ---------------------------------------------------------------- foreign events

  lemma FinalizingSpares(ms: seq<Message>, wf: string, src: Source)
    requires OpenIsOwn(ms, src)
    ensures Spared(ms, Finalizing(ms, wf), src)
  {
    var i := FirstIndex(ms, GeneratingAssistant(wf));
    if i < |ms| {
      assert ms[i] in ms && ms[i].isGenerating;
      UpdateSpares(ms, i, ms[i].(content := "Finalizing response...", isGenerating := true), src);
    }
  }

  lemma SettleSpares(ms: seq<Message>, wf: string, src: Source)
    requires OpenIsOwn(ms, src)
    ensures Spared(ms, SettleWorkflow(ms, wf), src)
  {
    if Has(ms, SettledProper(wf)) {
      WithoutSpares(ms, StatusOrGeneratingOf(wf), src);
    } else {
      var mid := Finalizing(ms, wf);
      FinalizingSpares(ms, wf, src);
      WithoutSpares(mid, StatusOf(wf), src);
      SparedThen(ms, mid, Without(mid, StatusOf(wf)), src);
    }
  }

  lemma StreamEndSpares(ms: seq<Message>, wf: string, src: Source)
    requires OpenIsOwn(ms, src)
    ensures Spared(ms, ApplyStreamEnd(ms, wf), src)
  {
    if Has(ms, SettledAssistant(wf)) {
      WithoutSpares(ms, AnyStatusOrGenerating, src);
    } else {
      var mid := Finalizing(ms, wf);
      FinalizingSpares(ms, wf, src);
      WithoutSpares(mid, AnyStatus, src);
      SparedThen(ms, mid, Without(mid, AnyStatus), src);
    }
  }

  lemma PillSpares(ms: seq<Message>, wf: string, kind: StatusKind, message: string, src: Source)
    ensures Spared(ms, AddPill(ms, wf, kind, message), src)
  {
    var msg := Trim(message);
    if ShowsPill(kind, msg) {
      var mid, pill := Without(ms, StatusOf(wf)), PillMessage(wf, msg, KindName(kind));
      WithoutSpares(ms, StatusOf(wf), src);
      AppendSpares(mid, pill, src);
      SparedThen(ms, mid, mid + [pill], src);
    }
  }

  lemma StatusSpares(s: RunState, e: Event, src: Source)
    requires OpenIsOwn(s.messages, src)
    ensures Spared(s.messages, StatusMessages(s, e), src)
  {
    var ms := s.messages;
    match e.body
    case WorkflowCompleted(message, _) =>
      var mid := Without(ms, StatusOf(e.wf));
      WithoutSpares(ms, StatusOf(e.wf), src);
      SparedThen(ms, mid, mid, src);
      SettleSpares(mid, e.wf, src);
      SparedThen(ms, mid, SettleWorkflow(mid, e.wf), src);
    case WorkflowFailed => WithoutSpares(ms, AnyStatusOrGenerating, src);
    case StreamError => WithoutSpares(ms, AnyStatusOrGenerating, src);
    case StreamEnd => StreamEndSpares(ms, e.wf, src);
    case StatusUpdate(kind, message, _) => PillSpares(ms, e.wf, kind, message, src);
    case _ =>
  }

  lemma OtherDeltaSpares(ms: seq<Message>, wf: string, agent: string, d: EventBody, src: Source)
    requires d.Delta? && wf != src.wf && StreamMsgId(wf, DeltaKey(d.streamId, d.clock)) != src.Id()
    ensures Spared(ms, ApplyDelta(ms, wf, agent, d), src)
  {
    var i := LastStreaming(ms, wf);
    var unseen := NewParts(NonDiagnostic(d.parts), if i >= 0 then ms[i].processed else []);
    if i >= 0 {
      UpdateSpares(ms, i, Appended(ms[i], unseen, d.metadata), src);
    } else {
      InsertSpares(ms, FirstIndex(ms, GeneratingAssistant(wf)),
                   StreamMessage(StreamMsgId(wf, DeltaKey(d.streamId, d.clock)), wf, agent, unseen, d.metadata), src);
    }
  }

  lemma PlaceholderClearedSpares(ms: seq<Message>, wf: string, agent: string, src: Source)
    requires OpenIsOwn(ms, src)
    ensures Spared(ms, PlaceholderCleared(ms, wf, agent), src)
  {
    WithoutSpares(ms, GeneratingOf(wf), src);
  }

  lemma OtherCompletedSpares(ms: seq<Message>, wf: string, agent: string, c: EventBody, src: Source)
    requires OpenIsOwn(ms, src) && c.Completed?
    requires wf != src.wf && StreamMsgId(wf, CompletedKey(c.streamId, c.seqNo, c.clock)) != src.Id()
    ensures Spared(ms, ApplyCompleted(ms, wf, agent, c), src)
  {
    var i := LastStreaming(ms, wf);
    if i >= 0 {
      RemoveSpares(ms, i, src);
      UpdateSpares(ms, i, Finished(ms[i], c), src);
    } else {
      var content := if c.response != "" then c.response else c.content;
      var m := PlainMessage(StreamMsgId(wf, CompletedKey(c.streamId, c.seqNo, c.clock)), wf, agent, content, c.metadata);
      var base := PlaceholderCleared(ms, wf, agent);
      PlaceholderClearedSpares(ms, wf, agent, src);
      InsertSpares(base, FirstIndex(base, GeneratingAssistant(wf)), m, src);
      SparedThen(ms, base, InsertBeforePlaceholder(base, wf, m), src);
    }
  }

  lemma ClearedForFinalSpares(ms: seq<Message>, wf: string, src: Source)
    requires OpenIsOwn(ms, src) && (wf != src.wf || src.agent != "final_output")
    ensures Spared(ms, ClearedForFinal(ms, wf), src)
  {
    var mid := Without(ms, GeneratingOf(wf));
    WithoutSpares(ms, GeneratingOf(wf), src);
    WithoutSpares(mid, StreamingFinal(wf), src);
    SparedThen(ms, mid, ClearedForFinal(ms, wf), src);
  }

  /** A final answer written over the message under its id, which no open message has. */
  lemma FinalUpdateSpares(ms: seq<Message>, i: nat, m: Message, wf: string, src: Source)
    requires Invariant.WellFormed(ms) && i < |ms| && ms[i].id == FinalId(wf)
    requires m.id == FinalId(wf) && !m.isStreaming
    ensures Spared(ms, ms[i := m], src)
  {
    assert Invariant.Shaped(ms[i]);
    UpdateSpares(ms, i, m, src);
  }

  lemma FinalCompletedSpares(ms: seq<Message>, wf: string, c: EventBody, src: Source)
    requires OpenIsOwn(ms, src) && Invariant.WellFormed(ms) && (wf != src.wf || src.agent != "final_output")
    requires c.Completed?
    ensures Spared(ms, ApplyFinalCompleted(ms, wf, c), src)
  {
    var content := if c.response != "" then c.response else c.content;
    if !IsDiagnosticMessage(content) && !IsStatusMessage(content) && content != "" {
      var mid := ClearedForFinal(ms, wf);
      ClearedForFinalSpares(ms, wf, src);
      Invariant.ClearedForFinalKeeps(ms, wf);
      FinalCompletedWritten(mid, wf, content, c.metadata, src);
      SparedThen(ms, mid, WithFinalCompleted(mid, wf, content, c.metadata), src);
    }
  }

  /** The completed answer written into a list that holds no draft. */
  function WithFinalCompleted(mid: seq<Message>, wf: string, content: string, metadata: Option<Meta>): seq<Message> {
    var i := FirstIndex(mid, WithId(FinalId(wf)));
    if i < |mid| then
      mid[i := AsFinal(mid[i], wf, content).(metadata := if metadata.Some? then metadata else mid[i].metadata)]
    else mid + [FinalMessage(wf, content, metadata)]
  }

  lemma FinalCompletedWritten(mid: seq<Message>, wf: string, content: string, metadata: Option<Meta>, src: Source)
    requires Invariant.WellFormed(mid)
    ensures Spared(mid, WithFinalCompleted(mid, wf, content, metadata), src)
  {
    var i := FirstIndex(mid, WithId(FinalId(wf)));
    if i < |mid| {
      FinalUpdateSpares(mid, i, WithFinalCompleted(mid, wf, content, metadata)[i], wf, src);
    } else {
      AppendSpares(mid, FinalMessage(wf, content, metadata), src);
    }
  }

  lemma FinalOutputSpares(ms: seq<Message>, wf: string, message: string, src: Source)
    requires OpenIsOwn(ms, src) && Invariant.WellFormed(ms) && (wf != src.wf || src.agent != "final_output")
    ensures Spared(ms, ApplyFinalOutput(ms, wf, message), src)
  {
    if message != "" {
      var mid := ClearedForFinal(ms, wf);
      ClearedForFinalSpares(ms, wf, src);
      Invariant.ClearedForFinalKeeps(ms, wf);
      FinalOutputWritten(mid, wf, message, src);
      SparedThen(ms, mid, WithFinalOutput(mid, wf, message), src);
    }
  }

  /** The LLM_OUTPUT answer written into a list that holds no draft. */
  function WithFinalOutput(mid: seq<Message>, wf: string, message: string): seq<Message> {
    var i := FirstIndex(mid, WithId(FinalId(wf)));
    if i < |mid| then mid[i := AsFinal(mid[i], wf, message)]
    else if Has(mid, FinalOf(wf)) then mid
    else mid + [FinalMessage(wf, message, None)]
  }

  lemma FinalOutputWritten(mid: seq<Message>, wf: string, message: string, src: Source)
    requires Invariant.WellFormed(mid)
    ensures Spared(mid, WithFinalOutput(mid, wf, message), src)
  {
    var i := FirstIndex(mid, WithId(FinalId(wf)));
    if i < |mid| {
      FinalUpdateSpares(mid, i, AsFinal(mid[i], wf, message), wf, src);
    } else {
      AppendSpares(mid, FinalMessage(wf, message, None), src);
    }
  }

  lemma InterimSpares(ms: seq<Message>, wf: string, message: string, src: Source)
    requires OpenIsOwn(ms, src)
    ensures Spared(ms, ApplyInterim(ms, wf, message), src)
  {
    var i := FirstIndex(ms, WithId(MsgId(InterimLead, wf)));
    if i < |ms| {
      assert ms[i] in ms;
      UpdateSpares(ms, i, ms[i].(content := message), src);
    } else {
      AppendSpares(ms, PlainMessage(MsgId(InterimLead, wf), wf, "swarm-lead", message, Some(map["interim" := "true"])), src);
    }
  }

  lemma AnswerSpares(ms: seq<Message>, wf: string, agent: string, o: EventBody, src: Source)
    requires OpenIsOwn(ms, src) && o.LlmOutput?
    ensures Spared(ms, ApplyAnswer(ms, wf, agent, o), src)
  {
    var content := if o.text != "" then o.text else o.message;
    var mid := PlaceholderCleared(ms, wf, agent);
    var m := PlainMessage(LlmId(agent, wf, content, o.seqNo), wf, agent, content, o.metadata);
    PlaceholderClearedSpares(ms, wf, agent, src);
    AppendSpares(mid, m, src);
    SparedThen(ms, mid, mid + [m], src);
  }

  lemma ResultSpares(ms: seq<Message>, wf: string, message: string, clock: nat, src: Source)
    requires OpenIsOwn(ms, src) && (wf != src.wf || src.unmarked)
    ensures Spared(ms, ApplyWorkflowResult(ms, wf, message, clock), src)
  {
    var mid := Without(ms, InterimOf(wf));
    var m := PlainMessage(MsgId(Workflow, wf + "-" + PrintNat(clock)), wf, "", message, None);
    WithoutSpares(ms, InterimOf(wf), src);
    AppendSpares(mid, m, src);
    SparedThen(ms, mid, mid + [m], src);
  }

  lemma ContentSpares(ms: seq<Message>, e: Event, src: Source)
    requires OpenIsOwn(ms, src) && Invariant.WellFormed(ms) && Foreign(e, src) && !e.historical
    ensures Spared(ms, ContentMessages(ms, e), src)
  {
    match e.body
    case WorkflowCompleted(message, clock) => ResultSpares(ms, e.wf, message, clock, src);
    case _ =>
      if !IsIntermediate(e.agent) {
        match e.body
        case Delta(_, _, _, _) => OtherDeltaSpares(ms, e.wf, e.agent, e.body, src);
        case Completed(_, _, _, _, _, _) =>
          if e.agent == "final_output" {
            FinalCompletedSpares(ms, e.wf, e.body, src);
          } else {
            OtherCompletedSpares(ms, e.wf, e.agent, e.body, src);
          }
        case LlmOutput(message, _, interim, _, _) =>
          if e.agent == "final_output" {
            FinalOutputSpares(ms, e.wf, message, src);
          } else if interim {
            InterimSpares(ms, e.wf, message, src);
          } else {
            AnswerSpares(ms, e.wf, e.agent, e.body, src);
          }
        case _ =>
      }
  }

  lemma ReducedMessages(s: RunState, e: Event)
    ensures Reduce(s, e).messages == if e.historical then s.messages else ContentMessages(StatusMessages(s, e), e)
  {
  }

  lemma ForeignSpares(s: RunState, e: Event, src: Source)
    requires OpenIsOwn(s.messages, src) && Invariant.WellFormed(s.messages) && Foreign(e, src) && !e.historical
    ensures var after := ContentMessages(StatusMessages(s, e), e);
            Spared(s.messages, after, src) && Invariant.WellFormed(after)
  {
    var mid := StatusMessages(s, e);
    StatusSpares(s, e, src);
    SparedThen(s.messages, mid, mid, src);
    Invariant.StatusKeeps(s, e);
    ContentSpares(mid, e, src);
    Invariant.ContentMessagesKeep(mid, e);
    SparedThen(s.messages, mid, ContentMessages(mid, e), src);
  }

  /** A foreign event leaves what the source shows as it is. */
  lemma ForeignStep(s: RunState, e: Event, src: Source, c: Option<Core>)
    requires Shows(s.messages, src, c) && Foreign(e, src)
    ensures Shows(Reduce(s, e).messages, src, c)
  {
    ReducedMessages(s, e);
    if !e.historical {
      ShowsOpensOwn(s.messages, src, c);
      ForeignSpares(s, e, src);
      SparedShows(s.messages, Reduce(s, e).messages, src, c);
    }
  }
}
