/** What every reachable state of the reducer satisfies. */
module RunSliceInvariant {
  import opened Text
  import opened RunSlice

  // ---------------------------------------------------------------- statement

  /** Two messages that must not be in the list together. */
  predicate Clash(a: Message, b: Message) {
    || a.id == b.id
    || (a.isStreaming && b.isStreaming && a.taskId == b.taskId)
    || (a.role == Status && b.role == Status && a.taskId == b.taskId)
    || (a.isFinalOutput && b.isFinalOutput && a.taskId == b.taskId)
  }

  /** How the id of a message fits its flags. */
  predicate Shaped(m: Message) {
    && (m.role == Status <==> m.id.kind == StatusPill)
    && (m.role == Status ==> m.id == StatusId(m.taskId))
    && (m.isFinalOutput ==> m.id.kind == Final)
    && (m.id.kind == Final ==> m.id == FinalId(m.taskId) && !m.isStreaming)
    && (m.id.kind == Workflow ==> m.role == Assistant && BeforeLastDash(m.id.rest) == m.taskId)
    && (m.isStreaming ==> m.role == Assistant && !m.isGenerating)
    && (m.isGenerating ==> m.role == Assistant && !m.Interim())
  }

  /** The workflow part of a workflow-result id: what precedes its clock. */
  function BeforeLastDash(s: string): string {
    if s == "" then "" else if s[|s| - 1] == '-' then s[..|s| - 1] else BeforeLastDash(s[..|s| - 1])
  }

  ghost predicate WellFormed(ms: seq<Message>) {
    && (forall i :: 0 <= i < |ms| ==> Shaped(ms[i]))
    && (forall i, j :: 0 <= i < j < |ms| ==> !Clash(ms[i], ms[j]))
  }

  /** The colour indices are a bijection from the registered agents onto 0..nextColorIndex-1. */
  ghost predicate Coloured(sw: Swarm) {
    && (forall a <- sw.agentRegistry :: sw.agentRegistry[a].colorIndex < sw.nextColorIndex)
    && (forall a, b :: a in sw.agentRegistry && b in sw.agentRegistry && a != b
          ==> sw.agentRegistry[a].colorIndex != sw.agentRegistry[b].colorIndex)
    && (forall c: nat :: c < sw.nextColorIndex ==> HasColour(sw, c))
  }

  ghost predicate HasColour(sw: Swarm, c: nat) {
    exists a :: a in sw.agentRegistry && sw.agentRegistry[a].colorIndex == c
  }

  ghost predicate Inv(s: RunState) {
    WellFormed(s.messages) && (s.swarm.Some? ==> Coloured(s.swarm.value))
  }

  /** What a component may do to the store. A message added by a page is neither a pill nor
      a streaming message, and its id fits its flags; metadata added later does not make a message
      an interim one. */
  datatype Action =
    | AddEvent(e: Event)
    | AddMessage(m: Message)
    | RemoveMessage(id: MsgId)
    | UpdateMessageMetadata(wf: string, metadata: Meta)
    | SetMainWorkflowId(main: Option<string>)
    | SetStatus(status: RunStatus)
    | RemoveGeneratingPlaceholder(wf: string)
    | SetSwarmMode(on: bool)
    | ResetRun

  predicate Admissible(a: Action) {
    match a
    case AddMessage(m) => Shaped(m) && !m.isStreaming && m.role != Status
    case UpdateMessageMetadata(_, metadata) => "interim" in metadata ==> metadata["interim"] == ""
    case _ => true
  }

  function Perform(s: RunState, a: Action): RunState {
    match a
    case AddEvent(e) => Reduce(s, e)
    case AddMessage(m) => s.(messages := Added(s.messages, m))
    case RemoveMessage(id) => s.(messages := Without(s.messages, WithId(id)))
    case UpdateMessageMetadata(wf, metadata) => s.(messages := WithMetadata(s.messages, wf, metadata))
    case SetMainWorkflowId(main) => s.(mainWorkflowId := main)
    case SetStatus(status) => s.(status := status)
    case RemoveGeneratingPlaceholder(wf) => s.(messages := Without(s.messages, GeneratingAssistant(wf)))
    case SetSwarmMode(on) => WithSwarmMode(s, on)
    case ResetRun => INITIAL_STATE
  }

  function PerformAll(s: RunState, acts: seq<Action>): RunState
    decreases acts
  {
    if acts == [] then s else PerformAll(Perform(s, acts[0]), acts[1..])
  }

  // ---------------------------------------------------------------- list operations

  lemma {:induction false} WithoutKeeps(ms: seq<Message>, sel: Selector)
    requires WellFormed(ms)
    ensures WellFormed(Without(ms, sel))
  {
    if ms != [] {
      WithoutKeeps(ms[1..], sel);
      var rest := Without(ms[1..], sel);
      forall m | m in rest ensures !Clash(ms[0], m) {
        var k :| 0 <= k < |ms[1..]| && ms[1..][k] == m;
        assert ms[k + 1] == m;
      }
    }
  }

  lemma OriginOf(ms: seq<Message>, sel: Selector, k: nat) returns (j: nat)
    requires k < |Without(ms, sel)|
    ensures j < |ms| && ms[j] == Without(ms, sel)[k] && !sel.Matches(ms[j])
  {
    assert Without(ms, sel)[k] in Without(ms, sel);
    j :| 0 <= j < |ms| && ms[j] == Without(ms, sel)[k];
  }

  lemma InsertKeeps(ms: seq<Message>, g: nat, m: Message)
    requires WellFormed(ms) && g <= |ms| && Shaped(m)
    requires forall k :: 0 <= k < |ms| ==> !Clash(ms[k], m)
    ensures WellFormed(ms[..g] + [m] + ms[g..])
  {
    var r := ms[..g] + [m] + ms[g..];
    forall i, j | 0 <= i < j < |r| ensures !Clash(r[i], r[j]) {
      var a, b := if i <= g then i else i - 1, if j <= g then j else j - 1;
      if i == g { assert r[j] == ms[b] && !Clash(ms[b], m); }
      else if j == g { assert r[i] == ms[a] && !Clash(ms[a], m); }
      else { assert r[i] == ms[a] && r[j] == ms[b] && !Clash(ms[a], ms[b]); }
    }
  }

  lemma AppendKeeps(ms: seq<Message>, m: Message)
    requires WellFormed(ms) && Shaped(m)
    requires forall k :: 0 <= k < |ms| ==> !Clash(ms[k], m)
    ensures WellFormed(ms + [m])
  {
    InsertKeeps(ms, |ms|, m);
    assert ms[..|ms|] + [m] + ms[|ms|..] == ms + [m];
  }

  lemma UpdateKeeps(ms: seq<Message>, i: nat, m: Message)
    requires WellFormed(ms) && i < |ms| && Shaped(m)
    requires forall k :: 0 <= k < |ms| && k != i ==> !Clash(ms[k], m)
    ensures WellFormed(ms[i := m])
  {
  }

  /** A replacement that keeps id, task and role and gains no flag. */
  lemma RefreshKeeps(ms: seq<Message>, i: nat, m: Message)
    requires WellFormed(ms) && i < |ms| && Shaped(m)
    requires m.id == ms[i].id && m.taskId == ms[i].taskId && m.role == ms[i].role
    requires (m.isStreaming ==> ms[i].isStreaming) && (m.isFinalOutput ==> ms[i].isFinalOutput)
    ensures WellFormed(ms[i := m])
  {
    forall k | 0 <= k < |ms| && k != i ensures !Clash(ms[k], m) {
      if k < i { assert !Clash(ms[k], ms[i]); } else { assert !Clash(ms[i], ms[k]); }
    }
  }

  lemma NoOtherStreams(ms: seq<Message>, wf: string, k: nat)
    requires WellFormed(ms) && k < |ms| && LastStreaming(ms, wf) >= 0 && k != LastStreaming(ms, wf)
    ensures !ms[k].StreamingFor(wf)
  {
    var i := LastStreaming(ms, wf);
    assert k < i ==> !Clash(ms[k], ms[i]);
  }

  /** A workflow has at most one open message. */
  lemma OneStream(ms: seq<Message>, wf: string)
    requires WellFormed(ms)
    ensures forall k :: 0 <= k < |ms| && ms[k].StreamingFor(wf) ==> k == LastStreaming(ms, wf)
  {
    if LastStreaming(ms, wf) >= 0 {
      forall k | 0 <= k < |ms| && k != LastStreaming(ms, wf) ensures !ms[k].StreamingFor(wf) {
        NoOtherStreams(ms, wf, k);
      }
    }
  }

  lemma NoneWithId(ms: seq<Message>, id: MsgId)
    requires !Has(ms, WithId(id))
    ensures forall k :: 0 <= k < |ms| ==> ms[k].id != id
  {
    forall k | 0 <= k < |ms| ensures ms[k].id != id { assert !WithId(id).Matches(ms[k]); }
  }

  // ---------------------------------------------------------------- branch by branch

  lemma PillKeeps(ms: seq<Message>, wf: string, kind: StatusKind, message: string)
    requires WellFormed(ms)
    ensures WellFormed(AddPill(ms, wf, kind, message))
  {
    var msg := Trim(message);
    if ShowsPill(kind, msg) {
      WithoutKeeps(ms, StatusOf(wf));
      var rest := Without(ms, StatusOf(wf));
      var pill := PillMessage(wf, msg, KindName(kind));
      forall k | 0 <= k < |rest| ensures !Clash(rest[k], pill) {
        var j := OriginOf(ms, StatusOf(wf), k);
        assert Shaped(ms[j]);
      }
      AppendKeeps(rest, pill);
    }
  }

  lemma DeltaKeeps(ms: seq<Message>, wf: string, agent: string, d: EventBody)
    requires WellFormed(ms) && d.Delta?
    ensures WellFormed(ApplyDelta(ms, wf, agent, d))
  {
    var i := LastStreaming(ms, wf);
    var id := StreamMsgId(wf, DeltaKey(d.streamId, d.clock));
    var unseen := NewParts(NonDiagnostic(d.parts), if i >= 0 then ms[i].processed else []);
    if i >= 0 {
      RefreshKeeps(ms, i, Appended(ms[i], unseen, d.metadata));
    } else if !Has(ms, WithId(id)) {
      NoneWithId(ms, id);
      InsertKeeps(ms, FirstIndex(ms, GeneratingAssistant(wf)),
                  StreamMessage(id, wf, agent, unseen, d.metadata));
    }
  }

  lemma RemoveAtKeeps(ms: seq<Message>, i: nat)
    requires WellFormed(ms) && i < |ms|
    ensures WellFormed(ms[..i] + ms[i + 1..])
  {
  }

  lemma CompletedKeeps(ms: seq<Message>, wf: string, agent: string, c: EventBody)
    requires WellFormed(ms) && c.Completed?
    ensures WellFormed(ApplyCompleted(ms, wf, agent, c))
  {
    var i := LastStreaming(ms, wf);
    if i >= 0 {
      RemoveAtKeeps(ms, i);
      RefreshKeeps(ms, i, Finished(ms[i], c));
    } else {
      var content := if c.response != "" then c.response else c.content;
      var id := StreamMsgId(wf, CompletedKey(c.streamId, c.seqNo, c.clock));
      if !Has(ms, WithId(id)) {
        NoneWithId(ms, id);
        WithoutKeeps(ms, GeneratingOf(wf));
        var base := PlaceholderCleared(ms, wf, agent);
        forall k | 0 <= k < |base| ensures base[k].id != id && !base[k].StreamingFor(wf) {
          if agent == "simple-agent" { var j := OriginOf(ms, GeneratingOf(wf), k); }
        }
        InsertKeeps(base, FirstIndex(base, GeneratingAssistant(wf)),
                    PlainMessage(id, wf, agent, content, c.metadata));
      }
    }
  }

  lemma ClearedForFinalKeeps(ms: seq<Message>, wf: string)
    requires WellFormed(ms)
    ensures WellFormed(ClearedForFinal(ms, wf))
    ensures forall k :: 0 <= k < |ClearedForFinal(ms, wf)| && ClearedForFinal(ms, wf)[k].id == FinalId(wf)
              ==> !ClearedForFinal(ms, wf)[k].isGenerating
  {
    var once := Without(ms, GeneratingOf(wf));
    WithoutKeeps(ms, GeneratingOf(wf));
    WithoutKeeps(once, StreamingFinal(wf));
    var r := ClearedForFinal(ms, wf);
    forall k | 0 <= k < |r| && r[k].id == FinalId(wf) ensures !r[k].isGenerating {
      assert r[k] in r && r[k] in once;
      assert Shaped(r[k]) && !GeneratingOf(wf).Matches(r[k]);
    }
  }

  /** Writing the final answer over the message that carries its id. */
  lemma AsFinalKeeps(ms: seq<Message>, i: nat, wf: string, m: Message)
    requires WellFormed(ms) && i < |ms| && ms[i].id == FinalId(wf)
    requires m.id == FinalId(wf) && m.taskId == wf && m.role == Assistant && !m.isStreaming && !m.isGenerating
    ensures WellFormed(ms[i := m])
  {
    forall k | 0 <= k < |ms| && k != i ensures !Clash(ms[k], m) {
      assert ms[k].id != FinalId(wf) by {
        if k < i { assert !Clash(ms[k], ms[i]); } else { assert !Clash(ms[i], ms[k]); }
      }
      assert Shaped(ms[k]);
    }
    UpdateKeeps(ms, i, m);
  }

  lemma AppendFinalKeeps(ms: seq<Message>, wf: string, m: Message)
    requires WellFormed(ms) && forall k :: 0 <= k < |ms| ==> ms[k].id != FinalId(wf)
    requires m.id == FinalId(wf) && m.taskId == wf && m.role == Assistant && !m.isStreaming && !m.isGenerating
    ensures WellFormed(ms + [m])
  {
    forall k | 0 <= k < |ms| ensures !Clash(ms[k], m) {
      assert Shaped(ms[k]);
    }
    AppendKeeps(ms, m);
  }

  lemma FinalCompletedKeeps(ms: seq<Message>, wf: string, c: EventBody)
    requires WellFormed(ms) && c.Completed?
    ensures WellFormed(ApplyFinalCompleted(ms, wf, c))
  {
    var content := if c.response != "" then c.response else c.content;
    ClearedForFinalKeeps(ms, wf);
    var base := ClearedForFinal(ms, wf);
    var i := FirstIndex(base, WithId(FinalId(wf)));
    if i < |base| {
      AsFinalKeeps(base, i, wf, AsFinal(base[i], wf, content).(
                     metadata := if c.metadata.Some? then c.metadata else base[i].metadata));
    } else {
      assert forall k :: 0 <= k < |base| ==> !WithId(FinalId(wf)).Matches(base[k]);
      AppendFinalKeeps(base, wf, FinalMessage(wf, content, c.metadata));
    }
  }

  lemma LlmOutputKeeps(ms: seq<Message>, wf: string, agent: string, o: EventBody)
    requires WellFormed(ms) && o.LlmOutput?
    ensures WellFormed(ApplyLlmOutput(ms, wf, agent, o))
  {
    if agent == "final_output" {
      ClearedForFinalKeeps(ms, wf);
      var base := ClearedForFinal(ms, wf);
      var i := FirstIndex(base, WithId(FinalId(wf)));
      if i < |base| {
        AsFinalKeeps(base, i, wf, AsFinal(base[i], wf, o.message));
      } else {
        assert forall k :: 0 <= k < |base| ==> !WithId(FinalId(wf)).Matches(base[k]);
        AppendFinalKeeps(base, wf, FinalMessage(wf, o.message, None));
      }
    } else if o.interim {
      InterimKeeps(ms, wf, o.message);
    } else {
      AnswerKeeps(ms, wf, agent, o);
    }
  }

  lemma InterimKeeps(ms: seq<Message>, wf: string, message: string)
    requires WellFormed(ms)
    ensures WellFormed(ApplyInterim(ms, wf, message))
  {
    var id := MsgId(InterimLead, wf);
    var i := FirstIndex(ms, WithId(id));
    if i < |ms| {
      RefreshKeeps(ms, i, ms[i].(content := message));
    } else {
      var m := PlainMessage(id, wf, "swarm-lead", message, Some(map["interim" := "true"]));
      AppendKeeps(ms, m);
    }
  }

  lemma AnswerKeeps(ms: seq<Message>, wf: string, agent: string, o: EventBody)
    requires WellFormed(ms) && o.LlmOutput?
    ensures WellFormed(ApplyAnswer(ms, wf, agent, o))
  {
    var content := if o.text != "" then o.text else o.message;
    var id := LlmId(agent, wf, content, o.seqNo);
    if !Has(ms, WithId(id)) {
      NoneWithId(ms, id);
      WithoutKeeps(ms, GeneratingOf(wf));
      var base := PlaceholderCleared(ms, wf, agent);
      var m := PlainMessage(id, wf, agent, content, o.metadata);
      forall k | 0 <= k < |base| ensures base[k].id != id {
        if agent == "simple-agent" { var j := OriginOf(ms, GeneratingOf(wf), k); }
      }
      AppendKeeps(base, m);
    }
  }

  lemma FinalizingKeeps(ms: seq<Message>, wf: string)
    requires WellFormed(ms)
    ensures WellFormed(Finalizing(ms, wf))
  {
    var i := FirstIndex(ms, GeneratingAssistant(wf));
    if i < |ms| {
      RefreshKeeps(ms, i, ms[i].(content := "Finalizing response...", isGenerating := true));
    }
  }

  lemma StreamEndKeeps(ms: seq<Message>, wf: string)
    requires WellFormed(ms)
    ensures WellFormed(ApplyStreamEnd(ms, wf))
  {
    FinalizingKeeps(ms, wf);
    WithoutKeeps(Finalizing(ms, wf), AnyStatus);
    WithoutKeeps(ms, AnyStatusOrGenerating);
  }

  lemma SettleKeeps(ms: seq<Message>, wf: string)
    requires WellFormed(ms)
    ensures WellFormed(SettleWorkflow(ms, wf))
  {
    FinalizingKeeps(ms, wf);
    WithoutKeeps(Finalizing(ms, wf), StatusOf(wf));
    WithoutKeeps(ms, StatusOrGeneratingOf(wf));
  }

  lemma StatusKeeps(s: RunState, e: Event)
    requires WellFormed(s.messages)
    ensures WellFormed(ReduceStatus(s, e).messages)
  {
    match e.body
    case WorkflowCompleted(_, _) =>
      WithoutKeeps(s.messages, StatusOf(e.wf));
      SettleKeeps(Without(s.messages, StatusOf(e.wf)), e.wf);
    case WorkflowFailed => WithoutKeeps(s.messages, AnyStatusOrGenerating);
    case StreamError => WithoutKeeps(s.messages, AnyStatusOrGenerating);
    case StreamEnd => StreamEndKeeps(s.messages, e.wf);
    case StatusUpdate(kind, message, _) => PillKeeps(s.messages, e.wf, kind, message);
    case _ =>
  }

  lemma {:induction false} DigitsHideNoDash(wf: string, digits: string)
    requires forall c <- digits :: IsDigit(c)
    ensures BeforeLastDash(wf + "-" + digits) == wf
  {
    var s := wf + "-" + digits;
    if digits == "" {
      assert s[|s| - 1] == '-' && s[..|s| - 1] == wf;
    } else {
      assert IsDigit(digits[|digits| - 1]);
      assert s[|s| - 1] == digits[|digits| - 1];
      assert s[..|s| - 1] == wf + "-" + digits[..|digits| - 1];
      DigitsHideNoDash(wf, digits[..|digits| - 1]);
    }
  }

  lemma ResultIdNamesWorkflow(wf: string, clock: nat)
    ensures BeforeLastDash(wf + "-" + PrintNat(clock)) == wf
  {
    DigitsHideNoDash(wf, PrintNat(clock));
  }

  /** The id of a workflow result is new although its clock may repeat: the result is added
      only when the workflow has no assistant message. */
  lemma WorkflowResultKeeps(ms: seq<Message>, wf: string, message: string, clock: nat)
    requires WellFormed(ms)
    ensures WellFormed(ApplyWorkflowResult(ms, wf, message, clock))
  {
    WithoutKeeps(ms, InterimOf(wf));
    var base := Without(ms, InterimOf(wf));
    if !Has(base, AnyAssistant(wf)) {
      ResultIdNamesWorkflow(wf, clock);
      var m := PlainMessage(MsgId(Workflow, wf + "-" + PrintNat(clock)), wf, "", message, None);
      forall k | 0 <= k < |base| ensures !Clash(base[k], m) {
        assert !AnyAssistant(wf).Matches(base[k]);
        assert Shaped(base[k]);
      }
      AppendKeeps(base, m);
    }
  }

  /** The agents of `sw` keep their colours in `after`. */
  predicate ColoursKept(sw: Swarm, after: Swarm) {
    forall a <- sw.agentRegistry ::
      a in after.agentRegistry && after.agentRegistry[a].colorIndex == sw.agentRegistry[a].colorIndex
  }

  lemma RegisteredKeeps(sw: Swarm, agent: string, role: string)
    requires Coloured(sw)
    ensures Coloured(Registered(sw, agent, role)) && ColoursKept(sw, Registered(sw, agent, role))
  {
    var after := Registered(sw, agent, role);
    forall c: nat | c < after.nextColorIndex ensures HasColour(after, c) {
      if c < sw.nextColorIndex {
        assert HasColour(sw, c);
        var a :| a in sw.agentRegistry && sw.agentRegistry[a].colorIndex == c;
        assert a in after.agentRegistry && after.agentRegistry[a].colorIndex == c;
      } else {
        assert agent in after.agentRegistry && after.agentRegistry[agent].colorIndex == c;
      }
    }
  }

  /** A swarm with the same colours for the same agents. */
  lemma SameColoursKeep(sw: Swarm, after: Swarm)
    requires Coloured(sw) && ColoursKept(sw, after)
    requires after.agentRegistry.Keys == sw.agentRegistry.Keys && after.nextColorIndex == sw.nextColorIndex
    ensures Coloured(after)
  {
    forall c: nat | c < after.nextColorIndex ensures HasColour(after, c) {
      assert HasColour(sw, c);
      var a :| a in sw.agentRegistry && sw.agentRegistry[a].colorIndex == c;
      assert a in after.agentRegistry && after.agentRegistry[a].colorIndex == c;
    }
  }

  lemma SwarmKeeps(sw: Swarm, agent: string, body: EventBody)
    requires Coloured(sw)
    ensures Coloured(TrackSwarm(sw, agent, body)) && ColoursKept(sw, TrackSwarm(sw, agent, body))
  {
    if body.StatusUpdate? && body.kind == AgentStarted {
      RegisteredKeeps(sw, agent, body.role);
    } else {
      var after := TrackSwarm(sw, agent, body);
      assert after.agentRegistry.Keys == sw.agentRegistry.Keys;
      SameColoursKeep(sw, after);
    }
  }

  // ---------------------------------------------------------------- every run

  lemma StepKeeps(s: RunState, a: Action)
    requires Inv(s) && Admissible(a)
    ensures Inv(Perform(s, a))
  {
    match a
    case AddEvent(e) => EventKeeps(s, e);
    case AddMessage(m) =>
      if !Has(s.messages, WithId(m.id)) {
        NoneWithId(s.messages, m.id);
        forall k | 0 <= k < |s.messages| ensures !Clash(s.messages[k], m) {
          assert Shaped(s.messages[k]);
        }
        AppendKeeps(s.messages, m);
      }
    case RemoveMessage(id) => WithoutKeeps(s.messages, WithId(id));
    case UpdateMessageMetadata(wf, metadata) => MetadataKeeps(s.messages, wf, metadata);
    case RemoveGeneratingPlaceholder(wf) => WithoutKeeps(s.messages, GeneratingAssistant(wf));
    case _ =>
  }

  lemma MetadataKeeps(ms: seq<Message>, wf: string, metadata: Meta)
    requires WellFormed(ms) && ("interim" in metadata ==> metadata["interim"] == "")
    ensures WellFormed(WithMetadata(ms, wf, metadata))
  {
    var i := LastAssistant(ms, wf);
    if i >= 0 {
      assert Shaped(ms[i]);
      RefreshKeeps(ms, i, ms[i].(metadata := MergeMeta(ms[i].metadata, Some(metadata))));
    }
  }

  lemma EventKeeps(s: RunState, e: Event)
    requires Inv(s)
    ensures Inv(Reduce(s, e))
  {
    if !e.historical {
      StatusKeeps(s, e);
      var s1 := ReduceStatus(s, e);
      SwarmEventKeeps(s1, e);
      var s2 := ReduceSwarm(s1, e.agent, e.body);
      ContentKeeps(s2, e);
    }
  }

  lemma SwarmEventKeeps(s: RunState, e: Event)
    requires Inv(s)
    ensures Inv(ReduceSwarm(s, e.agent, e.body))
  {
    SwarmKeeps(if s.swarm.Some? then s.swarm.value else EMPTY_SWARM, e.agent, e.body);
  }

  lemma ContentMessagesKeep(ms: seq<Message>, e: Event)
    requires WellFormed(ms)
    ensures WellFormed(ContentMessages(ms, e))
  {
    match e.body
    case Delta(_, _, _, _) => DeltaKeeps(ms, e.wf, e.agent, e.body);
    case Completed(_, _, _, _, _, _) =>
      if e.agent == "final_output" {
        FinalCompletedKeeps(ms, e.wf, e.body);
      } else {
        CompletedKeeps(ms, e.wf, e.agent, e.body);
      }
    case LlmOutput(_, _, _, _, _) => LlmOutputKeeps(ms, e.wf, e.agent, e.body);
    case WorkflowCompleted(message, clock) => WorkflowResultKeeps(ms, e.wf, message, clock);
    case _ =>
  }

  lemma ContentKeeps(s: RunState, e: Event)
    requires Inv(s)
    ensures Inv(ReduceContent(s, e))
  {
    ContentMessagesKeep(s.messages, e);
  }

  /** Safety over every run of the store. */
  lemma {:induction false} ReachableStatesAreWellFormed(s: RunState, acts: seq<Action>)
    requires Inv(s) && forall a <- acts :: Admissible(a)
    ensures Inv(PerformAll(s, acts))
    decreases acts
  {
    if acts != [] {
      StepKeeps(s, acts[0]);
      ReachableStatesAreWellFormed(Perform(s, acts[0]), acts[1..]);
    }
  }

  lemma EveryRunIsWellFormed(acts: seq<Action>)
    requires forall a <- acts :: Admissible(a)
    ensures Inv(PerformAll(INITIAL_STATE, acts))
  {
    ReachableStatesAreWellFormed(INITIAL_STATE, acts);
  }

  predicate KeepsColour(s: RunState, t: RunState, agent: string) {
    && s.swarm.Some? && agent in s.swarm.value.agentRegistry
    && t.swarm.Some? && agent in t.swarm.value.agentRegistry
    && t.swarm.value.agentRegistry[agent].colorIndex == s.swarm.value.agentRegistry[agent].colorIndex
  }

  lemma StepKeepsColour(s: RunState, a: Action, agent: string)
    requires Inv(s) && s.swarm.Some? && agent in s.swarm.value.agentRegistry
    requires a != ResetRun && a != SetSwarmMode(false)
    ensures KeepsColour(s, Perform(s, a), agent)
  {
    if a.AddEvent? { EventKeepsColour(s, a.e, agent); }
  }

  lemma EventKeepsColour(s: RunState, e: Event, agent: string)
    requires Inv(s) && s.swarm.Some? && agent in s.swarm.value.agentRegistry
    ensures KeepsColour(s, Reduce(s, e), agent)
  {
    if !e.historical {
      SwarmKeeps(s.swarm.value, e.agent, e.body);
    }
  }

  /** An agent keeps its colour as long as swarm mode is not switched off. */
  lemma {:induction false} ColoursAreStable(s: RunState, acts: seq<Action>, agent: string)
    requires Inv(s) && s.swarm.Some? && agent in s.swarm.value.agentRegistry
    requires forall a <- acts :: Admissible(a) && a != ResetRun && a != SetSwarmMode(false)
    ensures KeepsColour(s, PerformAll(s, acts), agent)
    decreases acts
  {
    if acts != [] {
      assert acts[0] in acts;
      StepKeeps(s, acts[0]);
      StepKeepsColour(s, acts[0], agent);
      assert forall a <- acts[1..] :: a in acts;
      ColoursAreStable(Perform(s, acts[0]), acts[1..], agent);
    }
  }

  /** The "Finalizing response..." text of the stream-end branch is never shown: a waiting
      placeholder itself counts as the workflow's assistant message, so it is removed. */
  lemma StreamEndRemovesPlaceholder(ms: seq<Message>, wf: string)
    requires WellFormed(ms)
    ensures Finalizing(ms, wf) == ms || Has(ms, SettledAssistant(wf))
    ensures forall m <- ApplyStreamEnd(ms, wf) :: m.role == Assistant && m.taskId == wf ==> !m.isGenerating
  {
    var i := FirstIndex(ms, GeneratingAssistant(wf));
    if i < |ms| {
      assert Shaped(ms[i]);
      assert SettledAssistant(wf).Matches(ms[i]);
    } else {
      forall m | m in ms ensures !GeneratingAssistant(wf).Matches(m) {
        var k :| 0 <= k < |ms| && ms[k] == m;
      }
    }
  }
}
