/** desktop/lib/features/runSlice.ts: the conversation reducer. The functions of this module
    say what one action does to the state; the class `RunStore` below does it in place. */
module RunSlice {
  import opened Text
  import opened MessageFilter

  // ---------------------------------------------------------------- data

  datatype Role = User | Assistant | System | Status

  /** The literal prefix of a message id. The rest of the id is kept as text. */
  datatype IdKind = StatusPill | Stream | Final | InterimLead | Workflow | Agent | External

  datatype MsgId = MsgId(kind: IdKind, rest: string)

  type Meta = map<string, string>

  datatype Message = Message(
    id: MsgId,
    role: Role,
    content: string,
    taskId: string,
    sender: string,
    isStreaming: bool,
    isGenerating: bool,
    isFinalOutput: bool,
    metadata: Option<Meta>,
    eventType: string,
    processed: seq<int>)
  {
    predicate StreamingFor(wf: string) { role == Assistant && isStreaming && taskId == wf }

    predicate Interim() { metadata.Some? && "interim" in metadata.value && metadata.value["interim"] != "" }
  }

  /** One text delta. `seqNo` is absent when the event carried none. */
  datatype Part = Part(text: string, seqNo: Option<int>)

  datatype StatusKind =
    | WorkflowStarted | Progress | AgentStarted | AgentCompleted | AgentThinking
    | Informative(name: string)

  /** Empty strings stand for absent text, agent or stream fields: the code only tests them
      for truthiness. `clock` is the value of `Date.now()` when the event is reduced. */
  datatype EventBody =
    | Delta(parts: seq<Part>, streamId: string, metadata: Option<Meta>, clock: nat)
    | Completed(response: string, content: string, streamId: string, seqNo: Option<int>,
                metadata: Option<Meta>, clock: nat)
    | LlmOutput(message: string, text: string, interim: bool, seqNo: Option<int>, metadata: Option<Meta>)
    | StatusUpdate(kind: StatusKind, message: string, role: string)
    | TasklistUpdated(tasks: Option<seq<string>>)
    | TeamRecruited
    | WorkflowCompleted(message: string, clock: nat)
    | WorkflowFailed
    | StreamEnd
    | StreamError
    | TimelineOnly

  datatype Event = Event(wf: string, agent: string, historical: bool, body: EventBody)

  datatype RunStatus = Idle | Running | Done | Failed

  datatype AgentState = AgentRunning | AgentDone

  datatype AgentInfo = AgentInfo(colorIndex: nat, role: string, status: AgentState)

  datatype Swarm = Swarm(
    tasks: seq<string>,
    agentRegistry: map<string, AgentInfo>,
    nextColorIndex: nat,
    leadStatus: string)

  datatype RunState = RunState(
    messages: seq<Message>,
    sessionTitle: string,
    status: RunStatus,
    mainWorkflowId: Option<string>,
    swarmMode: bool,
    swarm: Option<Swarm>)

  const INITIAL_STATE := RunState([], "", Idle, None, false, None)
  const EMPTY_SWARM := Swarm([], map[], 0, "")

  // ---------------------------------------------------------------- selections

  /** The filters, searches and existence tests of the reducer, by name. */
  datatype Selector =
    | StatusOf(wf: string)
    | AnyStatusOrGenerating
    | AnyStatus
    | GeneratingOf(wf: string)
    | StatusOrGeneratingOf(wf: string)
    | GeneratingAssistant(wf: string)
    | StreamingFinal(wf: string)
    | InterimOf(wf: string)
    | SettledAssistant(wf: string)
    | SettledProper(wf: string)
    | AnyAssistant(wf: string)
    | SameAnswer(wf: string, content: string)
    | FinalOf(wf: string)
    | WithId(id: MsgId)
  {
    predicate Matches(m: Message) {
      match this
      case StatusOf(w) => m.role == Status && m.taskId == w
      case AnyStatusOrGenerating => m.isGenerating || m.role == Status
      case AnyStatus => m.role == Status
      case GeneratingOf(w) => m.isGenerating && m.taskId == w
      case StatusOrGeneratingOf(w) => (m.isGenerating || m.role == Status) && m.taskId == w
      case GeneratingAssistant(w) => m.role == Assistant && m.isGenerating && m.taskId == w
      case StreamingFinal(w) => m.taskId == w && m.sender == "final_output" && m.isStreaming
      case InterimOf(w) => m.Interim() && m.taskId == w
      case SettledAssistant(w) => m.role == Assistant && !m.isStreaming && m.taskId == w
      case SettledProper(w) => m.role == Assistant && !m.isStreaming && !m.Interim() && m.taskId == w
      case AnyAssistant(w) => m.role == Assistant && m.taskId == w
      case SameAnswer(w, c) =>
        m.taskId == w && m.role == Assistant && !m.isStreaming && !m.isGenerating && m.content == c
      case FinalOf(w) => m.taskId == w && m.isFinalOutput
      case WithId(i) => m.id == i
    }
  }

  /** `filter` with the negated selector. */
  function Without(ms: seq<Message>, s: Selector): (r: seq<Message>)
    ensures |r| <= |ms|
    ensures forall m <- r :: m in ms && !s.Matches(m)
    ensures forall m <- ms :: s.Matches(m) || m in r
  {
    if ms == [] then []
    else (if s.Matches(ms[0]) then [] else [ms[0]]) + Without(ms[1..], s)
  }

  predicate Has(ms: seq<Message>, s: Selector) { exists m <- ms :: s.Matches(m) }

  /** `findIndex`: the first match, or |ms| when there is none. */
  function FirstIndex(ms: seq<Message>, s: Selector): (i: nat)
    ensures i <= |ms|
    ensures i < |ms| ==> s.Matches(ms[i])
    ensures forall k :: 0 <= k < i ==> !s.Matches(ms[k])
  {
    if ms == [] || s.Matches(ms[0]) then 0 else 1 + FirstIndex(ms[1..], s)
  }

  /** The streaming assistant message of a workflow that stands last, or -1. */
  function LastStreaming(ms: seq<Message>, wf: string): (i: int)
    ensures -1 <= i < |ms|
    ensures i >= 0 ==> ms[i].StreamingFor(wf)
    ensures forall k :: i < k < |ms| ==> !ms[k].StreamingFor(wf)
  {
    if ms == [] then -1
    else if ms[|ms| - 1].StreamingFor(wf) then |ms| - 1
    else LastStreaming(ms[..|ms| - 1], wf)
  }

  // ---------------------------------------------------------------- ids

  function StatusId(wf: string): MsgId { MsgId(StatusPill, wf) }

  function StreamMsgId(wf: string, key: string): MsgId { MsgId(Stream, wf + "-" + key) }

  function FinalId(wf: string): MsgId { MsgId(Final, wf) }

  /** The stream part of a delta's message id. */
  function DeltaKey(streamId: string, clock: nat): string {
    if streamId != "" then streamId else "msg-" + PrintNat(clock)
  }

  /** The stream part of a completed event's message id. */
  function CompletedKey(streamId: string, seqNo: Option<int>, clock: nat): string {
    if streamId != "" then streamId
    else if seqNo.Some? && seqNo.value != 0 then PrintInt(seqNo.value)
    else PrintNat(clock)
  }

  function LlmId(agent: string, wf: string, content: string, seqNo: Option<int>): MsgId {
    var fingerprint := RemoveSpaces(
      if |content| > 100 then content[..50] + content[|content| - 50..] else content);
    var stable := if seqNo.Some? then PrintInt(seqNo.value) else "msg-" + fingerprint;
    MsgId(Agent, (if agent == "" then "assistant" else agent) + "-" + wf + "-" + stable)
  }

  // ---------------------------------------------------------------- agents

  /** Agents whose text is shown only in the timeline. */
  predicate IsIntermediate(agent: string) {
    agent != "" && agent !in {"simple-agent", "final_output", "swarm-lead"}
  }

  predicate IsSystemAgent(agent: string) {
    agent in {"swarm-lead", "swarm-supervisor", "orchestrator", "planner",
              "title_generator", "router", "decomposer", "synthesizer"}
  }

  // ---------------------------------------------------------------- status pills

  predicate IsShortStatus(message: string) {
    && message != ""
    && |message| <= 100
    && !(StartsWith(message, "Thinking:") && |message| > 50)
    && !Contains(message, "**") && !Contains(message, "REASON:") && !Contains(message, "ACT:")
  }

  predicate ShowsPill(kind: StatusKind, msg: string) {
    && msg != "" && msg != "All done"
    && !(kind == AgentThinking && !IsShortStatus(msg))
    && |msg| <= 150
  }

  function KindName(kind: StatusKind): string {
    match kind
    case WorkflowStarted => "WORKFLOW_STARTED"
    case Progress => "PROGRESS"
    case AgentStarted => "AGENT_STARTED"
    case AgentCompleted => "AGENT_COMPLETED"
    case AgentThinking => "AGENT_THINKING"
    case Informative(n) => n
  }

  function PillMessage(wf: string, text: string, eventType: string): Message {
    Message(StatusId(wf), Status, text, wf, "", false, false, false, None, eventType, [])
  }

  function AddPill(ms: seq<Message>, wf: string, kind: StatusKind, message: string): seq<Message> {
    var msg := Trim(message);
    if ShowsPill(kind, msg) then Without(ms, StatusOf(wf)) + [PillMessage(wf, msg, KindName(kind))] else ms
  }

  // ---------------------------------------------------------------- deltas

  function NonDiagnostic(parts: seq<Part>): (r: seq<Part>)
    ensures |r| <= |parts|
  {
    if parts == [] then []
    else (if IsDiagnosticMessage(parts[0].text) then [] else [parts[0]]) + NonDiagnostic(parts[1..])
  }

  predicate Unprocessed(p: Part, processed: seq<int>) { p.seqNo.None? || p.seqNo.value !in processed }

  /** The parts a message has not seen yet. The list is not updated between two parts. */
  function NewParts(parts: seq<Part>, processed: seq<int>): (r: seq<Part>)
    ensures |r| <= |parts|
  {
    if parts == [] then []
    else (if Unprocessed(parts[0], processed) then [parts[0]] else []) + NewParts(parts[1..], processed)
  }

  function Joined(parts: seq<Part>): string {
    if parts == [] then "" else parts[0].text + Joined(parts[1..])
  }

  function Seqs(parts: seq<Part>): seq<int> {
    if parts == [] then []
    else (if parts[0].seqNo.Some? then [parts[0].seqNo.value] else []) + Seqs(parts[1..])
  }

  /** Appending sequence numbers one at a time, capping after each. */
  function Recorded(processed: seq<int>, seqs: seq<int>): seq<int>
    decreases seqs
  {
    if seqs == [] then processed
    else Recorded(CapProcessedDeltas(processed, seqs[0]), seqs[1..])
  }

  /** `{...a, ...b}` when b is present. */
  function MergeMeta(a: Option<Meta>, b: Option<Meta>): Option<Meta> {
    match b
    case None => a
    case Some(m) => Some((if a.Some? then a.value else map[]) + m)
  }

  function StreamMessage(id: MsgId, wf: string, agent: string, parts: seq<Part>, metadata: Option<Meta>): Message {
    Message(id, Assistant, Joined(parts), wf, agent, true, false, false, metadata, "", Seqs(parts))
  }

  function Appended(m: Message, parts: seq<Part>, metadata: Option<Meta>): Message {
    m.(content := m.content + Joined(parts),
       metadata := MergeMeta(m.metadata, metadata),
       processed := Recorded(m.processed, Seqs(parts)))
  }

  /** Insertion before the generating placeholder of the workflow, or at the end. */
  function InsertBeforePlaceholder(ms: seq<Message>, wf: string, m: Message): seq<Message> {
    var g := FirstIndex(ms, GeneratingAssistant(wf));
    ms[..g] + [m] + ms[g..]
  }

  function ApplyDelta(ms: seq<Message>, wf: string, agent: string, d: EventBody): seq<Message>
    requires d.Delta?
  {
    var i := LastStreaming(ms, wf);
    var id := StreamMsgId(wf, DeltaKey(d.streamId, d.clock));
    var unseen := NewParts(NonDiagnostic(d.parts), if i >= 0 then ms[i].processed else []);
    if unseen == [] then ms
    else if i >= 0 then ms[i := Appended(ms[i], unseen, d.metadata)]
    else if Has(ms, WithId(id)) then ms
    else InsertBeforePlaceholder(ms, wf, StreamMessage(id, wf, agent, unseen, d.metadata))
  }

  // ---------------------------------------------------------------- completed messages

  function FinalMessage(wf: string, content: string, metadata: Option<Meta>): Message {
    Message(FinalId(wf), Assistant, content, wf, "final_output", false, false, true, metadata, "", [])
  }

  function AsFinal(m: Message, wf: string, content: string): Message {
    m.(role := Assistant, sender := "final_output", content := content, taskId := wf,
       isFinalOutput := true, isStreaming := false)
  }

  function ClearedForFinal(ms: seq<Message>, wf: string): seq<Message> {
    Without(Without(ms, GeneratingOf(wf)), StreamingFinal(wf))
  }

  function ApplyFinalCompleted(ms: seq<Message>, wf: string, c: EventBody): seq<Message>
    requires c.Completed?
  {
    var content := if c.response != "" then c.response else c.content;
    if IsDiagnosticMessage(content) || IsStatusMessage(content) || content == "" then ms
    else
      var ms := ClearedForFinal(ms, wf);
      var i := FirstIndex(ms, WithId(FinalId(wf)));
      if i < |ms| then
        ms[i := AsFinal(ms[i], wf, content).(
                  metadata := if c.metadata.Some? then c.metadata else ms[i].metadata)]
      else ms + [FinalMessage(wf, content, c.metadata)]
  }

  function Finished(m: Message, c: EventBody): Message
    requires c.Completed?
  {
    m.(isStreaming := false,
       content := if c.response != "" then c.response else m.content,
       metadata := c.metadata)
  }

  function PlaceholderCleared(ms: seq<Message>, wf: string, agent: string): seq<Message> {
    if agent == "simple-agent" then Without(ms, GeneratingOf(wf)) else ms
  }

  function PlainMessage(id: MsgId, wf: string, agent: string, content: string, metadata: Option<Meta>): Message {
    Message(id, Assistant, content, wf, agent, false, false, false, metadata, "", [])
  }

  /** A completed message of an agent other than title_generator and final_output. */
  function ApplyCompleted(ms: seq<Message>, wf: string, agent: string, c: EventBody): seq<Message>
    requires c.Completed?
  {
    var i := LastStreaming(ms, wf);
    if i >= 0 then
      if IsDiagnosticMessage(c.response) then ms[..i] + ms[i + 1..]
      else ms[i := Finished(ms[i], c)]
    else
      var content := if c.response != "" then c.response else c.content;
      var id := StreamMsgId(wf, CompletedKey(c.streamId, c.seqNo, c.clock));
      if || IsDiagnosticMessage(content) || IsStatusMessage(content) || content == ""
         || Has(ms, WithId(id)) || Has(ms, SameAnswer(wf, content))
      then ms
      else InsertBeforePlaceholder(PlaceholderCleared(ms, wf, agent), wf,
                                   PlainMessage(id, wf, agent, content, c.metadata))
  }

  // ---------------------------------------------------------------- LLM output

  function ApplyFinalOutput(ms: seq<Message>, wf: string, message: string): seq<Message> {
    if message == "" then ms
    else
      var ms := ClearedForFinal(ms, wf);
      var i := FirstIndex(ms, WithId(FinalId(wf)));
      if i < |ms| then ms[i := AsFinal(ms[i], wf, message)]
      else if Has(ms, FinalOf(wf)) then ms
      else ms + [FinalMessage(wf, message, None)]
  }

  function ApplyInterim(ms: seq<Message>, wf: string, message: string): seq<Message> {
    var id := MsgId(InterimLead, wf);
    var i := FirstIndex(ms, WithId(id));
    if message == "" then ms
    else if i < |ms| then ms[i := ms[i].(content := message)]
    else ms + [PlainMessage(id, wf, "swarm-lead", message, Some(map["interim" := "true"]))]
  }

  function ApplyAnswer(ms: seq<Message>, wf: string, agent: string, o: EventBody): seq<Message>
    requires o.LlmOutput?
  {
    var content := if o.text != "" then o.text else o.message;
    var id := LlmId(agent, wf, content, o.seqNo);
    if || IsDiagnosticMessage(content) || content == ""
       || Has(ms, WithId(id)) || Has(ms, SameAnswer(wf, content))
    then ms
    else PlaceholderCleared(ms, wf, agent) + [PlainMessage(id, wf, agent, content, o.metadata)]
  }

  function ApplyLlmOutput(ms: seq<Message>, wf: string, agent: string, o: EventBody): seq<Message>
    requires o.LlmOutput?
  {
    if agent == "final_output" then ApplyFinalOutput(ms, wf, o.message)
    else if o.interim then ApplyInterim(ms, wf, o.message)
    else ApplyAnswer(ms, wf, agent, o)
  }

  // ---------------------------------------------------------------- end of a workflow

  function Finalizing(ms: seq<Message>, wf: string): seq<Message> {
    var i := FirstIndex(ms, GeneratingAssistant(wf));
    if i < |ms| then ms[i := ms[i].(content := "Finalizing response...", isGenerating := true)] else ms
  }

  function ApplyStreamEnd(ms: seq<Message>, wf: string): seq<Message> {
    if Has(ms, SettledAssistant(wf)) then Without(ms, AnyStatusOrGenerating)
    else Without(Finalizing(ms, wf), AnyStatus)
  }

  predicate CompletesRun(s: RunState, wf: string, message: string) {
    || s.mainWorkflowId == Some(wf)
    || (s.mainWorkflowId.None? && s.status != Done
        && (message == "All done" || Contains(message, "workflow completed")))
  }

  function SettleWorkflow(ms: seq<Message>, wf: string): seq<Message> {
    if Has(ms, SettledProper(wf)) then Without(ms, StatusOrGeneratingOf(wf))
    else Without(Finalizing(ms, wf), StatusOf(wf))
  }

  predicate SubstantiveResult(message: string) {
    var lower := ToLower(message);
    && message != "" && message != "All done"
    && !IsDiagnosticMessage(message) && !IsStatusMessage(message)
    && !Contains(lower, "research completed")
    && !Contains(lower, "pipeline completed")
    && !EndsWith(lower, " completed")
  }

  function ApplyWorkflowResult(ms: seq<Message>, wf: string, message: string, clock: nat): seq<Message> {
    var ms := Without(ms, InterimOf(wf));
    if !Has(ms, AnyAssistant(wf)) && SubstantiveResult(message) then
      ms + [PlainMessage(MsgId(Workflow, wf + "-" + PrintNat(clock)), wf, "", message, None)]
    else ms
  }

  // ---------------------------------------------------------------- swarm

  function Registered(sw: Swarm, agent: string, role: string): Swarm {
    if agent == "" || IsSystemAgent(agent) then sw
    else if agent in sw.agentRegistry then
      sw.(agentRegistry := sw.agentRegistry[agent := sw.agentRegistry[agent].(status := AgentRunning)])
    else
      sw.(agentRegistry := sw.agentRegistry[agent :=
            AgentInfo(sw.nextColorIndex, if role == "" then "generalist" else role, AgentRunning)],
          nextColorIndex := sw.nextColorIndex + 1)
  }

  function TrackSwarm(sw: Swarm, agent: string, body: EventBody): Swarm {
    match body
    case TasklistUpdated(Some(ts)) => sw.(tasks := ts)
    case StatusUpdate(AgentStarted, _, role) => Registered(sw, agent, role)
    case StatusUpdate(AgentCompleted, _, _) =>
      if agent != "" && agent in sw.agentRegistry then
        sw.(agentRegistry := sw.agentRegistry[agent := sw.agentRegistry[agent].(status := AgentDone)])
      else sw
    case StatusUpdate(Progress, message, _) =>
      if agent == "swarm-lead" || agent == "swarm-supervisor" then sw.(leadStatus := message) else sw
    case _ => sw
  }

  function ReduceSwarm(s: RunState, agent: string, body: EventBody): RunState {
    var s := if s.swarm.None? && (body.TasklistUpdated? || body.TeamRecruited?)
             then s.(swarm := Some(EMPTY_SWARM), swarmMode := true) else s;
    if s.swarm.Some? then s.(swarm := Some(TrackSwarm(s.swarm.value, agent, body))) else s
  }

  // ---------------------------------------------------------------- the reducer

  /** Clearing of pills and placeholders, and the pill. */
  function StatusMessages(s: RunState, e: Event): seq<Message> {
    match e.body
    case WorkflowCompleted(message, _) =>
      var ms := Without(s.messages, StatusOf(e.wf));
      if CompletesRun(s, e.wf, message) then SettleWorkflow(ms, e.wf) else ms
    case WorkflowFailed => Without(s.messages, AnyStatusOrGenerating)
    case StreamError => Without(s.messages, AnyStatusOrGenerating)
    case StreamEnd => ApplyStreamEnd(s.messages, e.wf)
    case StatusUpdate(kind, message, _) => AddPill(s.messages, e.wf, kind, message)
    case _ => s.messages
  }

  function NextStatus(s: RunState, e: Event): RunStatus {
    match e.body
    case WorkflowCompleted(message, _) => if CompletesRun(s, e.wf, message) then Done else s.status
    case WorkflowFailed => Failed
    case StreamError => Failed
    case StreamEnd => if s.status == Failed then Failed else Done
    case _ => if s.status == Idle then Running else s.status
  }

  function ReduceStatus(s: RunState, e: Event): RunState {
    s.(messages := StatusMessages(s, e), status := NextStatus(s, e))
  }

  /** What an event contributes to the conversation itself. */
  function ContentMessages(ms: seq<Message>, e: Event): seq<Message> {
    match e.body
    case Delta(_, _, _, _) => if IsIntermediate(e.agent) then ms else ApplyDelta(ms, e.wf, e.agent, e.body)
    case Completed(_, _, _, _, _, _) =>
      if e.agent == "title_generator" || IsIntermediate(e.agent) then ms
      else if e.agent == "final_output" then ApplyFinalCompleted(ms, e.wf, e.body)
      else ApplyCompleted(ms, e.wf, e.agent, e.body)
    case LlmOutput(_, _, _, _, _) => if IsIntermediate(e.agent) then ms else ApplyLlmOutput(ms, e.wf, e.agent, e.body)
    case WorkflowCompleted(message, clock) => ApplyWorkflowResult(ms, e.wf, message, clock)
    case _ => ms
  }

  function NextTitle(title: string, e: Event): string {
    if e.body.Completed? && e.agent == "title_generator" && title == "" then
      if e.body.response != "" then e.body.response else e.body.content
    else title
  }

  function ReduceContent(s: RunState, e: Event): RunState {
    s.(messages := ContentMessages(s.messages, e), sessionTitle := NextTitle(s.sessionTitle, e))
  }

  function Reduce(s: RunState, e: Event): RunState {
    if e.historical then s.(sessionTitle := NextTitle(s.sessionTitle, e))
    else
      ReduceContent(ReduceSwarm(ReduceStatus(s, e), e.agent, e.body), e)
  }

  function ReduceAll(s: RunState, es: seq<Event>): RunState
    decreases es
  {
    if es == [] then s else ReduceAll(Reduce(s, es[0]), es[1..])
  }

  function Added(ms: seq<Message>, m: Message): seq<Message> {
    if Has(ms, WithId(m.id)) then ms else ms + [m]
  }

  /** The message that stands last among a workflow's assistant messages, or -1. */
  function LastAssistant(ms: seq<Message>, wf: string): (i: int)
    ensures -1 <= i < |ms|
    ensures i >= 0 ==> AnyAssistant(wf).Matches(ms[i])
    ensures forall k :: i < k < |ms| ==> !AnyAssistant(wf).Matches(ms[k])
  {
    if ms == [] then -1
    else if AnyAssistant(wf).Matches(ms[|ms| - 1]) then |ms| - 1
    else LastAssistant(ms[..|ms| - 1], wf)
  }

  function WithMetadata(ms: seq<Message>, wf: string, metadata: Meta): seq<Message> {
    var i := LastAssistant(ms, wf);
    if i >= 0 then ms[i := ms[i].(metadata := MergeMeta(ms[i].metadata, Some(metadata)))] else ms
  }

  function WithSwarmMode(s: RunState, on: bool): RunState {
    s.(swarmMode := on,
       swarm := if !on then None else if s.swarm.None? then Some(EMPTY_SWARM) else s.swarm)
  }

  lemma OthersKept(ms: seq<Message>, after: seq<Message>, wf: string)
    requires after == Finalizing(ms, wf)
    ensures forall m <- ms :: m.taskId != wf ==> m in after
  {
    forall m | m in ms && m.taskId != wf ensures m in after {
      var k :| 0 <= k < |ms| && ms[k] == m;
      assert after[k] == m;
    }
  }

  // ---------------------------------------------------------------- the store

  /** The redux slice: the fields an action updates in place. */
  class RunStore {
    var messages: seq<Message>
    var sessionTitle: string
    var status: RunStatus
    var mainWorkflowId: Option<string>
    var swarmMode: bool
    var swarm: Option<Swarm>

    function State(): RunState
      reads this
    {
      RunState(messages, sessionTitle, status, mainWorkflowId, swarmMode, swarm)
    }

    constructor ()
      ensures State() == INITIAL_STATE
    {
      messages, sessionTitle, status := [], "", Idle;
      mainWorkflowId, swarmMode, swarm := None, false, None;
    }

    /** The backward search of the delta and completed branches. */
    method FindStreaming(wf: string) returns (i: int)
      ensures i == LastStreaming(messages, wf)
    {
      i := |messages| - 1;
      while i >= 0
        invariant -1 <= i < |messages|
        invariant LastStreaming(messages, wf) == LastStreaming(messages[..i + 1], wf)
      {
        if messages[i].StreamingFor(wf) {
          assert messages[..i + 1][i] == messages[i];
          return;
        }
        assert messages[..i + 1][..i] == messages[..i];
        i := i - 1;
      }
    }

    method AddDelta(wf: string, agent: string, d: EventBody)
      requires d.Delta?
      modifies this`messages
      ensures messages == ApplyDelta(old(messages), wf, agent, d)
    {
      var filtered := NonDiagnostic(d.parts);
      if filtered == [] {
        return;
      }
      var i := FindStreaming(wf);
      var id := StreamMsgId(wf, DeltaKey(d.streamId, d.clock));
      var unseen := NewParts(filtered, if i >= 0 then messages[i].processed else []);
      if unseen == [] {
        return;
      }
      if i >= 0 {
        var existing := messages[i];
        var updated := RecordSeqs(existing.processed, Seqs(unseen));
        messages := messages[i := existing.(content := existing.content + Joined(unseen),
                                            metadata := MergeMeta(existing.metadata, d.metadata),
                                            processed := updated)];
      } else {
        if Has(messages, WithId(id)) {
          return;
        }
        var g := FirstIndex(messages, GeneratingAssistant(wf));
        messages := messages[..g] + [StreamMessage(id, wf, agent, unseen, d.metadata)] + messages[g..];
      }
    }

    /** The loop over the new sequence numbers. */
    method RecordSeqs(processed: seq<int>, seqs: seq<int>) returns (updated: seq<int>)
      ensures updated == Recorded(processed, seqs)
    {
      updated := processed;
      for k := 0 to |seqs|
        invariant Recorded(updated, seqs[k..]) == Recorded(processed, seqs)
      {
        assert seqs[k..][1..] == seqs[k + 1..];
        updated := CapProcessedDeltas(updated, seqs[k]);
      }
      assert seqs[|seqs|..] == [];
    }

    method AddCompleted(wf: string, agent: string, c: EventBody)
      requires c.Completed?
      modifies this`messages
      ensures messages == ApplyCompleted(old(messages), wf, agent, c)
    {
      var i := FindStreaming(wf);
      if i >= 0 {
        if IsDiagnosticMessage(c.response) {
          messages := messages[..i] + messages[i + 1..];
          return;
        }
        messages := messages[i := Finished(messages[i], c)];
        return;
      }
      var content := if c.response != "" then c.response else c.content;
      if IsDiagnosticMessage(content) || IsStatusMessage(content) || content == "" {
        return;
      }
      var id := StreamMsgId(wf, CompletedKey(c.streamId, c.seqNo, c.clock));
      if Has(messages, WithId(id)) || Has(messages, SameAnswer(wf, content)) {
        return;
      }
      messages := PlaceholderCleared(messages, wf, agent);
      messages := InsertBeforePlaceholder(messages, wf, PlainMessage(id, wf, agent, content, c.metadata));
    }

    method AddStatusMessage(wf: string, kind: StatusKind, message: string)
      modifies this`messages
      ensures messages == AddPill(old(messages), wf, kind, message)
    {
      var msg := Trim(message);
      if ShowsPill(kind, msg) {
        messages := Without(messages, StatusOf(wf));
        messages := messages + [PillMessage(wf, msg, KindName(kind))];
      }
    }

    /** The placeholder of a workflow that waits for its result. */
    method ShowFinalizing(wf: string)
      modifies this`messages
      ensures messages == Finalizing(old(messages), wf)
    {
      var i := FirstIndex(messages, GeneratingAssistant(wf));
      if i < |messages| {
        messages := messages[i := messages[i].(content := "Finalizing response...", isGenerating := true)];
      }
    }

    /** End of a workflow. No pill of it is left, and no message of another workflow is touched. */
    method CompleteWorkflow(e: Event)
      requires e.body.WorkflowCompleted?
      modifies this`messages, this`status
      ensures messages == StatusMessages(old(State()), e) && status == NextStatus(old(State()), e)
      ensures forall m <- messages :: !(m.role == Status && m.taskId == e.wf)
      ensures forall m <- old(messages) :: m.taskId != e.wf ==> m in messages
    {
      messages := Without(messages, StatusOf(e.wf));
      var isMain := mainWorkflowId == Some(e.wf);
      var isNotice := mainWorkflowId.None? && status != Done
        && (e.body.message == "All done" || Contains(e.body.message, "workflow completed"));
      if isMain || isNotice {
        status := Done;
        if Has(messages, SettledProper(e.wf)) {
          messages := Without(messages, StatusOrGeneratingOf(e.wf));
        } else {
          ghost var before := messages;
          ShowFinalizing(e.wf);
          OthersKept(before, messages, e.wf);
          messages := Without(messages, StatusOf(e.wf));
        }
      }
    }

    /** Failure of the run: no pill and no placeholder is left, every other message is. */
    method FailRun()
      modifies this`messages, this`status
      ensures status == Failed && messages == Without(old(messages), AnyStatusOrGenerating)
      ensures forall m :: m in messages <==> m in old(messages) && !m.isGenerating && m.role != Status
    {
      status := Failed;
      messages := Without(messages, AnyStatusOrGenerating);
    }

    /** End of the stream. The run has ended, and no pill of any workflow is left. */
    method EndStream(wf: string)
      modifies this`messages, this`status
      ensures status == (if old(status) == Failed then Failed else Done)
      ensures messages == ApplyStreamEnd(old(messages), wf)
      ensures forall m <- messages :: m.role != Status
    {
      if status != Failed {
        status := Done;
      }
      if Has(messages, SettledAssistant(wf)) {
        messages := Without(messages, AnyStatusOrGenerating);
      } else {
        ShowFinalizing(wf);
        messages := Without(messages, AnyStatus);
      }
    }

    method UpdateStatus(e: Event)
      modifies this`messages, this`status
      ensures messages == StatusMessages(old(State()), e)
      ensures status == NextStatus(old(State()), e)
    {
      match e.body
      case WorkflowCompleted(_, _) => CompleteWorkflow(e);
      case WorkflowFailed => FailRun();
      case StreamError => FailRun();
      case StreamEnd => EndStream(e.wf);
      case StatusUpdate(kind, message, _) =>
        AddStatusMessage(e.wf, kind, message);
        LeaveIdle();
      case _ => LeaveIdle();
    }

    method LeaveIdle()
      modifies this`status
      ensures status == if old(status) == Idle then Running else old(status)
    {
      if status == Idle {
        status := Running;
      }
    }

    /** The registered agents only grow, and each keeps its colour. */
    method UpdateSwarm(agent: string, body: EventBody)
      modifies this`swarm, this`swarmMode
      ensures swarm == ReduceSwarm(old(State()), agent, body).swarm
      ensures swarmMode == ReduceSwarm(old(State()), agent, body).swarmMode
      ensures old(swarm).Some? ==> swarm.Some? && forall a <- old(swarm).value.agentRegistry ::
                a in swarm.value.agentRegistry
                && swarm.value.agentRegistry[a].colorIndex == old(swarm).value.agentRegistry[a].colorIndex
    {
      if swarm.None? && (body.TasklistUpdated? || body.TeamRecruited?) {
        swarm := Some(EMPTY_SWARM);
        swarmMode := true;
      }
      if swarm.Some? {
        var sw := swarm.value;
        if body.TasklistUpdated? && body.tasks.Some? {
          sw := sw.(tasks := body.tasks.value);
        }
        if body.StatusUpdate? && body.kind == AgentStarted && agent != "" && !IsSystemAgent(agent) {
          if agent !in sw.agentRegistry {
            var role := if body.role == "" then "generalist" else body.role;
            sw := sw.(agentRegistry := sw.agentRegistry[agent := AgentInfo(sw.nextColorIndex, role, AgentRunning)],
                      nextColorIndex := sw.nextColorIndex + 1);
          } else {
            var info := sw.agentRegistry[agent].(status := AgentRunning);
            sw := sw.(agentRegistry := sw.agentRegistry[agent := info]);
          }
        }
        if body.StatusUpdate? && body.kind == AgentCompleted && agent != "" && agent in sw.agentRegistry {
          var info := sw.agentRegistry[agent].(status := AgentDone);
          sw := sw.(agentRegistry := sw.agentRegistry[agent := info]);
        }
        if body.StatusUpdate? && body.kind == Progress && (agent == "swarm-lead" || agent == "swarm-supervisor") {
          sw := sw.(leadStatus := body.message);
        }
        swarm := Some(sw);
      }
    }

    method SetTitle(c: EventBody)
      requires c.Completed?
      modifies this`sessionTitle
      ensures sessionTitle == if old(sessionTitle) != "" then old(sessionTitle)
                              else if c.response != "" then c.response else c.content
    {
      var title := if c.response != "" then c.response else c.content;
      if title != "" && sessionTitle == "" {
        sessionTitle := title;
      }
    }

    /** Removal of the placeholder and of a streamed draft of the final answer. */
    method ClearForFinal(wf: string)
      modifies this`messages
      ensures messages == ClearedForFinal(old(messages), wf)
    {
      messages := Without(messages, GeneratingOf(wf));
      messages := Without(messages, StreamingFinal(wf));
    }

    method AddFinalCompleted(wf: string, c: EventBody)
      requires c.Completed?
      modifies this`messages
      ensures messages == ApplyFinalCompleted(old(messages), wf, c)
    {
      var content := if c.response != "" then c.response else c.content;
      if IsDiagnosticMessage(content) || IsStatusMessage(content) || content == "" {
        return;
      }
      ClearForFinal(wf);
      var i := FirstIndex(messages, WithId(FinalId(wf)));
      if i < |messages| {
        var metadata := if c.metadata.Some? then c.metadata else messages[i].metadata;
        messages := messages[i := messages[i].(
          role := Assistant, sender := "final_output", content := content, metadata := metadata,
          taskId := wf, isFinalOutput := true, isStreaming := false)];
      } else {
        messages := messages + [FinalMessage(wf, content, c.metadata)];
      }
    }

    method AddFinalOutput(wf: string, message: string)
      modifies this`messages
      ensures messages == ApplyFinalOutput(old(messages), wf, message)
    {
      if message == "" {
        return;
      }
      ClearForFinal(wf);
      var i := FirstIndex(messages, WithId(FinalId(wf)));
      if i < |messages| {
        messages := messages[i := messages[i].(
          role := Assistant, sender := "final_output", content := message,
          taskId := wf, isFinalOutput := true, isStreaming := false)];
      } else {
        if !Has(messages, FinalOf(wf)) {
          messages := messages + [FinalMessage(wf, message, None)];
        }
      }
    }

    method AddInterim(wf: string, message: string)
      modifies this`messages
      ensures messages == ApplyInterim(old(messages), wf, message)
    {
      if message != "" {
        var id := MsgId(InterimLead, wf);
        var i := FirstIndex(messages, WithId(id));
        if i < |messages| {
          messages := messages[i := messages[i].(content := message)];
        } else {
          messages := messages + [PlainMessage(id, wf, "swarm-lead", message, Some(map["interim" := "true"]))];
        }
      }
    }

    method AddAnswer(wf: string, agent: string, o: EventBody)
      requires o.LlmOutput?
      modifies this`messages
      ensures messages == ApplyAnswer(old(messages), wf, agent, o)
    {
      var content := if o.text != "" then o.text else o.message;
      if IsDiagnosticMessage(content) || content == "" {
        return;
      }
      var id := LlmId(agent, wf, content, o.seqNo);
      if Has(messages, WithId(id)) || Has(messages, SameAnswer(wf, content)) {
        return;
      }
      if agent == "simple-agent" {
        messages := Without(messages, GeneratingOf(wf));
      }
      messages := messages + [PlainMessage(id, wf, agent, content, o.metadata)];
    }

    method AddWorkflowResult(wf: string, message: string, clock: nat)
      modifies this`messages
      ensures messages == ApplyWorkflowResult(old(messages), wf, message, clock)
    {
      messages := Without(messages, InterimOf(wf));
      if !Has(messages, AnyAssistant(wf)) && message != "" && message != "All done" {
        if IsDiagnosticMessage(message) || IsStatusMessage(message) {
          return;
        }
        var lower := ToLower(message);
        if Contains(lower, "research completed") || Contains(lower, "pipeline completed") || EndsWith(lower, " completed") {
          return;
        }
        messages := messages + [PlainMessage(MsgId(Workflow, wf + "-" + PrintNat(clock)), wf, "", message, None)];
      }
    }

    method UpdateContent(e: Event)
      modifies this`messages, this`sessionTitle
      ensures messages == ContentMessages(old(messages), e)
      ensures sessionTitle == NextTitle(old(sessionTitle), e)
    {
      match e.body
      case Delta(_, _, _, _) =>
        if !IsIntermediate(e.agent) {
          AddDelta(e.wf, e.agent, e.body);
        }
      case Completed(_, _, _, _, _, _) =>
        if e.agent == "title_generator" {
          SetTitle(e.body);
        } else if IsIntermediate(e.agent) {
          return;
        } else if e.agent == "final_output" {
          AddFinalCompleted(e.wf, e.body);
        } else {
          AddCompleted(e.wf, e.agent, e.body);
        }
      case LlmOutput(message, _, interim, _, _) =>
        if IsIntermediate(e.agent) {
          return;
        } else if e.agent == "final_output" {
          AddFinalOutput(e.wf, message);
        } else if interim {
          AddInterim(e.wf, message);
        } else {
          AddAnswer(e.wf, e.agent, e.body);
        }
      case WorkflowCompleted(message, clock) => AddWorkflowResult(e.wf, message, clock);
      case _ =>
    }

    method AddEvent(e: Event)
      modifies this
      ensures State() == Reduce(old(State()), e)
    {
      if e.historical {
        if e.body.Completed? && e.agent == "title_generator" {
          SetTitle(e.body);
        }
        return;
      }
      UpdateStatus(e);
      UpdateSwarm(e.agent, e.body);
      UpdateContent(e);
    }

    method AddMessage(m: Message)
      modifies this`messages
      ensures State() == old(State()).(messages := Added(old(messages), m))
    {
      if !Has(messages, WithId(m.id)) {
        messages := messages + [m];
      }
    }

    method RemoveMessage(id: MsgId)
      modifies this`messages
      ensures State() == old(State()).(messages := Without(old(messages), WithId(id)))
      ensures forall m :: m in messages <==> m in old(messages) && m.id != id
    {
      messages := Without(messages, WithId(id));
    }

    /** The backward search for the message that gets the task's metadata. */
    method UpdateMessageMetadata(wf: string, metadata: Meta)
      modifies this`messages
      ensures messages == WithMetadata(old(messages), wf, metadata)
    {
      var i := |messages| - 1;
      while i >= 0
        invariant -1 <= i < |messages|
        invariant messages == old(messages)
        invariant LastAssistant(messages, wf) == LastAssistant(messages[..i + 1], wf)
      {
        if messages[i].role == Assistant && messages[i].taskId == wf {
          assert messages[..i + 1][i] == messages[i];
          var base := if messages[i].metadata.Some? then messages[i].metadata.value else map[];
          messages := messages[i := messages[i].(metadata := Some(base + metadata))];
          break;
        }
        assert messages[..i + 1][..i] == messages[..i];
        i := i - 1;
      }
    }

    method SetMainWorkflowId(wf: Option<string>)
      modifies this`mainWorkflowId
      ensures mainWorkflowId == wf
    {
      mainWorkflowId := wf;
    }

    method SetStatus(next: RunStatus)
      modifies this`status
      ensures status == next
    {
      status := next;
    }

    /** No assistant placeholder of the workflow is left, every other message is. */
    method RemoveGeneratingPlaceholder(wf: string)
      modifies this`messages
      ensures messages == Without(old(messages), GeneratingAssistant(wf))
      ensures forall m :: m in messages <==>
                m in old(messages) && !(m.role == Assistant && m.isGenerating && m.taskId == wf)
    {
      messages := Without(messages, GeneratingAssistant(wf));
    }

    method SetSwarmMode(on: bool)
      modifies this`swarmMode, this`swarm
      ensures State() == WithSwarmMode(old(State()), on)
    {
      swarmMode := on;
      if on && swarm.None? {
        swarm := Some(EMPTY_SWARM);
      }
      if !on {
        swarm := None;
      }
    }

    method ResetRun()
      modifies this
      ensures State() == INITIAL_STATE
    {
      messages, sessionTitle, status := [], "", Idle;
      mainWorkflowId, swarmMode, swarm := None, false, None;
    }
  }
}
