/** Pills, results, ends and the swarm: what they leave behind, event by event and over runs. */
module RunSliceVerdicts {
  import opened Text
  import opened MessageFilter
  import opened RunSlice
  import opened RunSliceShown
  import Invariant = RunSliceInvariant
  import Repeat = RunSliceRepeat

  // ---------------------------------------------------------------- pills

  /** Which status texts are shown: not empty, not "All done", at most 150 characters, and of an agent's
      thoughts only short plain ones. */
  predicate PillShown(kind: StatusKind, text: string) {
    && text != "" && text != "All done" && |text| <= 150
    && (kind.AgentThinking? ==>
          && |text| <= 100
          && !(StartsWith(text, "Thinking:") && |text| > 50)
          && !Contains(text, "**") && !Contains(text, "REASON:") && !Contains(text, "ACT:"))
  }

  function PillType(kind: StatusKind): string {
    match kind
    case WorkflowStarted => "WORKFLOW_STARTED"
    case Progress => "PROGRESS"
    case AgentStarted => "AGENT_STARTED"
    case AgentCompleted => "AGENT_COMPLETED"
    case AgentThinking => "AGENT_THINKING"
    case Informative(name) => name
  }

  /** A shown status replaces the pill of its workflow by one at the end of the conversation, with the
      trimmed text; another one changes nothing. */
  lemma StatusShows(s: RunState, e: Event) returns (m: Message)
    requires e.body.StatusUpdate? && !e.historical
    ensures var now, text := Reduce(s, e).messages, Trim(e.body.message);
            if !PillShown(e.body.kind, text) then now == s.messages
            else
              && m == Message(MsgId(StatusPill, e.wf), Status, text, e.wf, "", false, false, false, None,
                              PillType(e.body.kind), [])
              && now != [] && now[|now| - 1] == m
              && (forall x :: x in now <==> (x in s.messages && !PillOf(x, e.wf)) || x == m)
    ensures Reduce(s, e).status == if s.status == Idle then Running else s.status
  {
    var text := Trim(e.body.message);
    m := PillMessage(e.wf, text, KindName(e.body.kind));
    Repeat.ReduceSplits(s, e);
    if PillShown(e.body.kind, text) {
      var base := Without(s.messages, StatusOf(e.wf));
      WithoutExactly(s.messages, StatusOf(e.wf));
      assert (base + [m])[|base|] == m;
    }
  }

  lemma WithoutExactly(ms: seq<Message>, sel: Selector)
    ensures forall x :: x in Without(ms, sel) <==> x in ms && !sel.Matches(x)
  {
  }

  /** `trim` removes white space at both ends and nothing else. */
  lemma {:induction false} TrimCuts(s: string) returns (a: nat, b: nat)
    ensures a <= b <= |s| && Trim(s) == s[a..b]
    ensures forall k :: (0 <= k < a || b <= k < |s|) ==> IsSpace(s[k])
    ensures a < b ==> !IsSpace(s[a]) && !IsSpace(s[b - 1])
  {
    a := StartCuts(s);
    var n := EndCuts(s[a..]);
    b := a + n;
    assert s[a..][..n] == s[a..b];
    forall k | b <= k < |s| ensures IsSpace(s[k]) { assert s[k] == s[a..][k - a]; }
    if a < b { assert s[a] == s[a..][0] && s[b - 1] == s[a..][n - 1]; }
  }

  lemma {:induction false} StartCuts(s: string) returns (a: nat)
    ensures a <= |s| && TrimStart(s) == s[a..] && forall k :: 0 <= k < a ==> IsSpace(s[k])
    ensures a < |s| ==> !IsSpace(s[a])
  {
    if s != "" && IsSpace(s[0]) {
      a := StartCuts(s[1..]);
      a := a + 1;
    } else {
      a := 0;
    }
  }

  lemma {:induction false} EndCuts(s: string) returns (n: nat)
    ensures n <= |s| && TrimEnd(s) == s[..n] && forall k :: n <= k < |s| ==> IsSpace(s[k])
    ensures n > 0 ==> !IsSpace(s[n - 1])
  {
    if s != "" && IsSpace(s[|s| - 1]) {
      n := EndCuts(s[..|s| - 1]);
      assert s[..|s| - 1][..n] == s[..n];
    } else {
      n := |s|;
    }
  }

  // ---------------------------------------------------------------- ends

  /** A failure leaves exactly the messages that are neither placeholder nor pill. */
  lemma FailureLeaves(s: RunState, e: Event)
    requires (e.body.WorkflowFailed? || e.body.StreamError?) && !e.historical
    ensures Reduce(s, e).status == Failed
    ensures forall x :: x in Reduce(s, e).messages <==> x in s.messages && !x.isGenerating && x.role != Status
  {
    Repeat.ReduceSplits(s, e);
    WithoutExactly(s.messages, AnyStatusOrGenerating);
  }

  /** The end of the stream takes all pills away, and all placeholders when the workflow has a settled
      message; a waiting placeholder is one. */
  lemma StreamEndLeaves(s: RunState, e: Event)
    requires e.body.StreamEnd? && !e.historical && Invariant.WellFormed(s.messages)
    ensures Reduce(s, e).status == if s.status == Failed then Failed else Done
    ensures forall x :: x in Reduce(s, e).messages
              <==> x in s.messages && x.role != Status && !(x.isGenerating && AnySettled(s.messages, e.wf))
  {
    Repeat.ReduceSplits(s, e);
    var ms := s.messages;
    WithoutExactly(ms, AnyStatusOrGenerating);
    WithoutExactly(ms, AnyStatus);
    SettledTests(ms, e.wf);
    if !AnySettled(ms, e.wf) { NothingToFinalize(ms, e.wf); }
  }

  ghost predicate AnySettled(ms: seq<Message>, wf: string) {
    exists m <- ms :: m.role == Assistant && !m.isStreaming && m.taskId == wf
  }

  lemma SettledTests(ms: seq<Message>, wf: string)
    ensures Has(ms, SettledAssistant(wf)) <==> AnySettled(ms, wf)
    ensures Has(ms, AnyAssistant(wf)) <==> AnyAssistantOf(ms, wf)
  {
    if Has(ms, SettledAssistant(wf)) {
      var m :| m in ms && SettledAssistant(wf).Matches(m);
      assert m.role == Assistant;
    }
    if AnySettled(ms, wf) {
      var m :| m in ms && m.role == Assistant && !m.isStreaming && m.taskId == wf;
      assert SettledAssistant(wf).Matches(m);
    }
    if Has(ms, AnyAssistant(wf)) {
      var m :| m in ms && AnyAssistant(wf).Matches(m);
      assert m.role == Assistant;
    }
    if AnyAssistantOf(ms, wf) {
      var m :| m in ms && m.role == Assistant && m.taskId == wf;
      assert AnyAssistant(wf).Matches(m);
    }
  }

  lemma NothingToFinalize(ms: seq<Message>, wf: string)
    requires Invariant.WellFormed(ms) && !AnySettled(ms, wf)
    ensures Finalizing(ms, wf) == ms
  {
    forall k | 0 <= k < |ms| ensures !GeneratingAssistant(wf).Matches(ms[k]) {
      assert Invariant.Shaped(ms[k]) && ms[k] in ms;
    }
  }

  // ---------------------------------------------------------------- end of a workflow

  /** The event completes the run: it comes from the main workflow, or there is none and it says so. */
  predicate Completing(s: RunState, wf: string, message: string) {
    if s.mainWorkflowId.Some? then s.mainWorkflowId.value == wf
    else s.status != Done && (message == "All done" || Contains(message, "workflow completed"))
  }

  /** A result worth showing. */
  predicate ResultShown(message: string) {
    && message != "" && message != "All done" && !Diagnostic(message) && !IsStatusMessage(message)
    && !Contains(ToLower(message), "research completed")
    && !Contains(ToLower(message), "pipeline completed")
    && !EndsWith(ToLower(message), " completed")
  }

  /** What the end of a workflow leaves of the messages before it. */
  predicate Outlives(s: RunState, e: Event, x: Message)
    requires e.body.WorkflowCompleted?
  {
    && !PillOf(x, e.wf)
    && !(x.isGenerating && x.taskId == e.wf && Completing(s, e.wf, e.body.message))
    && !(x.Interim() && x.taskId == e.wf)
  }

  ghost predicate AnyAssistantOf(ms: seq<Message>, wf: string) {
    exists m <- ms :: m.role == Assistant && m.taskId == wf
  }

  /** Exactly which messages are there after the end of a workflow: those that outlive it, and its result
      when it is worth showing and no assistant message of the workflow is left. */
  lemma WorkflowEndLeaves(s: RunState, e: Event) returns (rest: seq<Message>, m: Message)
    requires e.body.WorkflowCompleted? && !e.historical && Invariant.WellFormed(s.messages)
    ensures forall x :: x in rest <==> x in s.messages && Outlives(s, e, x)
    ensures m.role == Assistant && m.content == e.body.message && m.taskId == e.wf && !m.isStreaming && !m.isGenerating
    ensures Reduce(s, e).messages
         == if ResultShown(e.body.message) && !AnyAssistantOf(rest, e.wf) then rest + [m] else rest
    ensures Reduce(s, e).status == if Completing(s, e.wf, e.body.message) then Done else s.status
  {
    var settled := StatusMessages(s, e);
    rest := Without(settled, InterimOf(e.wf));
    m := PlainMessage(MsgId(Workflow, e.wf + "-" + PrintNat(e.body.clock)), e.wf, "", e.body.message, None);
    Repeat.ReduceSplits(s, e);
    SettledMessages(s, e);
    RestIs(s, e, settled);
    ResultIs(settled, e.wf, e.body.message, e.body.clock);
  }

  lemma RestIs(s: RunState, e: Event, settled: seq<Message>)
    requires e.body.WorkflowCompleted?
    requires forall x :: x in settled <==> SettlesTo(s, e, x)
    ensures forall x :: x in Without(settled, InterimOf(e.wf)) <==> x in s.messages && Outlives(s, e, x)
  {
    WithoutExactly(settled, InterimOf(e.wf));
  }

  lemma ResultIs(settled: seq<Message>, wf: string, message: string, clock: nat)
    ensures var rest := Without(settled, InterimOf(wf));
            ApplyWorkflowResult(settled, wf, message, clock)
            == if ResultShown(message) && !AnyAssistantOf(rest, wf) then
                 rest + [PlainMessage(MsgId(Workflow, wf + "-" + PrintNat(clock)), wf, "", message, None)]
               else rest
  {
    SettledTests(Without(settled, InterimOf(wf)), wf);
  }

  /** What is left once pills and placeholders are gone. */
  predicate SettlesTo(s: RunState, e: Event, x: Message)
    requires e.body.WorkflowCompleted?
  {
    && x in s.messages && !PillOf(x, e.wf)
    && !(x.isGenerating && x.taskId == e.wf && Completing(s, e.wf, e.body.message))
  }

  lemma SettledIs(s: RunState, e: Event)
    requires e.body.WorkflowCompleted? && Invariant.WellFormed(s.messages)
    ensures var bare := Without(s.messages, StatusOf(e.wf));
            StatusMessages(s, e)
            == if Completing(s, e.wf, e.body.message) then Without(bare, StatusOrGeneratingOf(e.wf)) else bare
  {
    var bare := Without(s.messages, StatusOf(e.wf));
    Invariant.WithoutKeeps(s.messages, StatusOf(e.wf));
    Repeat.WithoutLeavesNone(s.messages, StatusOf(e.wf));
    Repeat.SettleIs(bare, e.wf);
  }

  lemma SettledMessages(s: RunState, e: Event)
    requires e.body.WorkflowCompleted? && Invariant.WellFormed(s.messages)
    ensures forall x :: x in StatusMessages(s, e) <==> SettlesTo(s, e, x)
  {
    var bare := Without(s.messages, StatusOf(e.wf));
    SettledIs(s, e);
    WithoutExactly(s.messages, StatusOf(e.wf));
    WithoutExactly(bare, StatusOrGeneratingOf(e.wf));
  }

  /** Task lists, team news and timeline events leave the conversation alone. */
  lemma SilentEvents(s: RunState, e: Event)
    requires !e.historical && (e.body.TasklistUpdated? || e.body.TeamRecruited? || e.body.TimelineOnly?)
    ensures Reduce(s, e).messages == s.messages
    ensures Reduce(s, e).status == if s.status == Idle then Running else s.status
  {
    Repeat.ReduceSplits(s, e);
  }

  // ---------------------------------------------------------------- the verdict of a run

  predicate Fails(e: Event) { !e.historical && (e.body.WorkflowFailed? || e.body.StreamError?) }

  predicate EndsStream(e: Event) { !e.historical && e.body.StreamEnd? }

  /** The end of the workflow w itself, not of a sub-workflow. */
  predicate EndsMain(e: Event, w: string) { !e.historical && e.body.WorkflowCompleted? && e.wf == w }

  /** Some failure after which the main workflow does not complete. */
  predicate FailsLast(es: seq<Event>, w: string) {
    es != [] && (Fails(es[|es| - 1]) || (!EndsMain(es[|es| - 1], w) && FailsLast(es[..|es| - 1], w)))
  }

  predicate AnyEnd(es: seq<Event>, w: string) { exists e <- es :: EndsMain(e, w) || EndsStream(e) || Fails(e) }

  lemma {:induction false} ReduceLast(s: RunState, es: seq<Event>, e: Event)
    ensures ReduceAll(s, es + [e]) == Reduce(ReduceAll(s, es), e)
    decreases es
  {
    if es == [] {
      Repeat.ReduceOne(s, e);
      assert [] + [e] == [e];
    } else {
      assert (es + [e])[1..] == es[1..] + [e];
      ReduceLast(Reduce(s, es[0]), es[1..], e);
    }
  }

  lemma StatusStep(s: RunState, e: Event, w: string)
    requires s.mainWorkflowId == Some(w)
    ensures Reduce(s, e).mainWorkflowId == Some(w)
    ensures Reduce(s, e).status ==
      if EndsMain(e, w) then Done
      else if Fails(e) then Failed
      else if EndsStream(e) then (if s.status == Failed then Failed else Done)
      else if e.historical || e.body.WorkflowCompleted? || s.status != Idle then s.status
      else Running
  {
  }

  /** A run of a workflow reads failed exactly when a failure was not followed by the completion of that
      workflow, and completed exactly when it ended otherwise; a sub-workflow's completion decides nothing. */
  lemma {:induction false} RunVerdict(s: RunState, es: seq<Event>, w: string)
    requires s.mainWorkflowId == Some(w) && (s.status == Idle || s.status == Running)
    ensures ReduceAll(s, es).mainWorkflowId == Some(w)
    ensures ReduceAll(s, es).status == Failed <==> FailsLast(es, w)
    ensures ReduceAll(s, es).status == Done <==> !FailsLast(es, w) && AnyEnd(es, w)
    decreases |es|
  {
    if es != [] {
      var before, e := es[..|es| - 1], es[|es| - 1];
      RunVerdict(s, before, w);
      assert es == before + [e];
      ReduceLast(s, before, e);
      StatusStep(ReduceAll(s, before), e, w);
      AnyEndLast(before, e, w);
      VerdictStep(before, e, w);
    }
  }

  lemma VerdictStep(es: seq<Event>, e: Event, w: string)
    ensures FailsLast(es + [e], w) <==> Fails(e) || (!EndsMain(e, w) && FailsLast(es, w))
  {
    assert (es + [e])[..|es|] == es;
  }

  lemma AnyEndLast(es: seq<Event>, e: Event, w: string)
    ensures AnyEnd(es + [e], w) <==> AnyEnd(es, w) || EndsMain(e, w) || EndsStream(e) || Fails(e)
  {
    var all := es + [e];
    assert all[|es|] == e && e in all;
    assert forall x <- es :: x in all;
    if AnyEnd(all, w) {
      var x :| x in all && (EndsMain(x, w) || EndsStream(x) || Fails(x));
      assert x in es || x == e;
    }
  }

  // ---------------------------------------------------------------- the swarm over a run

  predicate System(agent: string) {
    || agent == "swarm-lead" || agent == "swarm-supervisor" || agent == "orchestrator" || agent == "planner"
    || agent == "title_generator" || agent == "router" || agent == "decomposer" || agent == "synthesizer"
  }

  predicate StartsAgent(e: Event, agent: string) {
    !e.historical && e.agent == agent && e.body.StatusUpdate? && e.body.kind.AgentStarted?
  }

  predicate CompletesAgent(e: Event, agent: string) {
    !e.historical && e.agent == agent && e.body.StatusUpdate? && e.body.kind.AgentCompleted?
  }

  predicate LeadSpeaks(e: Event) {
    !e.historical && (e.agent == "swarm-lead" || e.agent == "swarm-supervisor")
    && e.body.StatusUpdate? && e.body.kind.Progress?
  }

  predicate ListsTasks(e: Event) { !e.historical && e.body.TasklistUpdated? && e.body.tasks.Some? }

  /** What the events say last about an agent: None when they are silent about it. */
  function LastOf(es: seq<Event>, agent: string): Option<AgentState> {
    if es == [] then None
    else if StartsAgent(es[|es| - 1], agent) then Some(AgentRunning)
    else if CompletesAgent(es[|es| - 1], agent) then Some(AgentDone)
    else LastOf(es[..|es| - 1], agent)
  }

  function LastLead(was: string, es: seq<Event>): string {
    if es == [] then was
    else if LeadSpeaks(es[|es| - 1]) then es[|es| - 1].body.message
    else LastLead(was, es[..|es| - 1])
  }

  function LastTasks(was: seq<string>, es: seq<Event>): seq<string> {
    if es == [] then was
    else if ListsTasks(es[|es| - 1]) then es[|es| - 1].body.tasks.value
    else LastTasks(was, es[..|es| - 1])
  }

  /** The agents that were started. */
  predicate StartedIn(es: seq<Event>, agent: string) { exists e <- es :: StartsAgent(e, agent) }

  lemma SwarmStep(s: RunState, e: Event, agent: string)
    requires s.swarm.Some?
    ensures Reduce(s, e).swarm.Some?
    ensures var was, now := s.swarm.value, Reduce(s, e).swarm.value;
            && now.leadStatus == (if LeadSpeaks(e) then e.body.message else was.leadStatus)
            && now.tasks == (if ListsTasks(e) then e.body.tasks.value else was.tasks)
            && (agent in now.agentRegistry <==> agent in was.agentRegistry || JoinsSwarm(e, agent))
  {
    SwarmReduces(s, e);
    if !e.historical {
      TrackedReports(s.swarm.value, e);
      TrackedAgents(s.swarm.value, e, agent);
    }
  }

  lemma TrackedReports(sw: Swarm, e: Event)
    requires !e.historical
    ensures var now := TrackSwarm(sw, e.agent, e.body);
            && now.leadStatus == (if LeadSpeaks(e) then e.body.message else sw.leadStatus)
            && now.tasks == (if ListsTasks(e) then e.body.tasks.value else sw.tasks)
  {
  }

  lemma TrackedAgents(sw: Swarm, e: Event, agent: string)
    requires !e.historical
    ensures agent in TrackSwarm(sw, e.agent, e.body).agentRegistry <==> agent in sw.agentRegistry || JoinsSwarm(e, agent)
  {
  }

  /** The event brings an agent into the swarm. */
  predicate JoinsSwarm(e: Event, agent: string) { StartsAgent(e, agent) && agent != "" && !System(agent) }

  lemma SwarmReduces(s: RunState, e: Event)
    requires s.swarm.Some?
    ensures Reduce(s, e).swarm == if e.historical then s.swarm else Some(TrackSwarm(s.swarm.value, e.agent, e.body))
  {
  }

  /** An agent that joins gets the next colour and its role; the swarm starts with the first task list or
      team, and empty. */
  lemma AgentJoins(s: RunState, e: Event, agent: string)
    requires s.swarm.Some? && JoinsSwarm(e, agent) && agent !in s.swarm.value.agentRegistry
    ensures var was, role := s.swarm.value, e.body.role;
            var info := AgentInfo(was.nextColorIndex, if role == "" then "generalist" else role, AgentRunning);
            Reduce(s, e).swarm == Some(was.(agentRegistry := was.agentRegistry[agent := info],
                                            nextColorIndex := was.nextColorIndex + 1))
  {
    SwarmReduces(s, e);
    AgentRegisters(s.swarm.value, agent, e.body.role);
  }

  lemma AgentRegisters(sw: Swarm, agent: string, role: string)
    requires agent != "" && !System(agent) && agent !in sw.agentRegistry
    ensures Registered(sw, agent, role)
         == sw.(agentRegistry := sw.agentRegistry[agent :=
                  AgentInfo(sw.nextColorIndex, if role == "" then "generalist" else role, AgentRunning)],
                nextColorIndex := sw.nextColorIndex + 1)
  {
  }

  lemma SwarmBegins(s: RunState, e: Event)
    requires s.swarm.None?
    ensures Reduce(s, e).swarm
         == if e.historical || !(e.body.TasklistUpdated? || e.body.TeamRecruited?) then None
            else Some(Swarm(if ListsTasks(e) then e.body.tasks.value else [], map[], 0, ""))
    ensures Reduce(s, e).swarmMode == (s.swarmMode || Reduce(s, e).swarm.Some?)
  {
  }

  lemma AgentStep(s: RunState, e: Event, agent: string)
    requires s.swarm.Some? && agent != "" && !System(agent)
    requires Reduce(s, e).swarm.Some? && agent in Reduce(s, e).swarm.value.agentRegistry
    ensures var was, now := s.swarm.value.agentRegistry, Reduce(s, e).swarm.value.agentRegistry;
            now[agent].status == if StartsAgent(e, agent) then AgentRunning
                                 else if CompletesAgent(e, agent) then AgentDone
                                 else if agent in was then was[agent].status else now[agent].status
  {
    SwarmReduces(s, e);
  }

  /** Over any run with a swarm: the lead's status and the task list are the last ones reported, the agents
      are those there before and the ones started, and each reads running or done as its last event says. */
  lemma {:induction false} SwarmReadsItsLastEvents(s: RunState, es: seq<Event>, agent: string)
    requires s.swarm.Some? && agent != "" && !System(agent)
    ensures ReduceAll(s, es).swarm.Some?
    ensures var was, now := s.swarm.value, ReduceAll(s, es).swarm.value;
            && now.leadStatus == LastLead(was.leadStatus, es)
            && now.tasks == LastTasks(was.tasks, es)
            && (agent in now.agentRegistry <==> agent in was.agentRegistry || StartedIn(es, agent))
            && (agent in now.agentRegistry && LastOf(es, agent).Some? ==>
                  now.agentRegistry[agent].status == LastOf(es, agent).value)
    decreases |es|
  {
    if es != [] {
      var before, e := es[..|es| - 1], es[|es| - 1];
      SwarmReadsItsLastEvents(s, before, agent);
      assert es == before + [e];
      ReduceLast(s, before, e);
      var mid := ReduceAll(s, before);
      SwarmStep(mid, e, agent);
      StartedLast(before, e, agent);
      if agent in Reduce(mid, e).swarm.value.agentRegistry { AgentStep(mid, e, agent); }
    }
  }

  lemma StartedLast(es: seq<Event>, e: Event, agent: string)
    ensures StartedIn(es + [e], agent) <==> StartedIn(es, agent) || StartsAgent(e, agent)
  {
    var all := es + [e];
    assert all[|es|] == e && e in all;
    assert forall x <- es :: x in all;
    if StartedIn(all, agent) {
      var x :| x in all && StartsAgent(x, agent);
      assert x in es || x == e;
    }
  }
}
