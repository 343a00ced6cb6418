/** python/langgraph-worker/puerflow_worker/servicer.py: the life of one RunStrategy call and the
    requests that interleave with it. A step runs from one `await` to the next. */
module Servicer {
  import opened Text
  import opened Runtime

  // ---------------------------------------------------------------- responses

  datatype Kind = KindUnspecified | Sample | Simple | Dag | Research | SwarmKind

  function KindOfName(name: string): Kind {
    if name == "dag" then Dag
    else if name == "research" then Research
    else if name == "swarm" then SwarmKind
    else Sample
  }

  datatype Hint = Hint(shouldFailover: bool, suggested: Kind, reason: string, retryable: bool)

  function FailoverHint(lastError: ErrorCode, failed: Kind): Hint {
    var light := failed in {Sample, Simple, KindUnspecified};
    var eligible := lastError in {StrategyFailed, TimeoutCode, Unavailable, Failover};
    var should := eligible && !light;
    var reason :=
      if should then "fallback to sample"
      else if light && eligible then "already on sample"
      else if lastError == BudgetExceeded then "budget exceeded is hard stop"
      else if lastError == CancelledCode then "cancelled is not failover"
      else "no failover";
    Hint(should, if should then Sample else KindUnspecified, reason, should)
  }

  datatype Response = Response(
    ok: bool,
    errorCode: ErrorCode,
    taskStatus: Status,
    result: string,
    errorMessage: string,
    exceeded: bool,
    failover: Option<Hint>)

  function Respond(t: Task): Response {
    var ok := t.status == Completed;
    var code := if ok then OkCode else t.errorCode;
    Response(ok, code, t.status, t.result, t.errorMessage, OverBudget(t.tokenBudget, t.tokensUsed),
             if ok then None else Some(FailoverHint(code, KindOfName(t.strategy))))
  }

  // ---------------------------------------------------------------- one call

  datatype Phase =
    | Dormant
    | Starting
    | EmittingPause
    | AwaitingDecision
    | InStrategy
    | EmittingFailure
    | Responded(response: Response)

  /** `woke` records the decision the approval waiter found when it woke, `started` whether the
      strategy was entered. Neither is read by a step. */
  datatype Call = Call(task: Task, phase: Phase, woke: Option<Decision>, started: bool)

  /** The strategy itself is an arbitrary sequence of the steps Charges to Raised. */
  datatype CallStep =
    | Begin(known: bool)
    | PauseEmitted
    | DecisionWakes
    | ApprovalTimesOut
    | Charges(used: nat)
    | ToolAsks(bindingId: string)
    | ToolWakes
    | ToolSettles
    | Returned(content: string, totalTokens: nat)
    | Interrupted
    | RaisedBudget(used: nat, message: string)
    | Raised(message: string)
    | FailureEmitted

  function Answered(c: Call, t: Task): Call { c.(task := t, phase := Responded(Respond(t))) }

  function ApprovedDecision(t: Task): bool { t.approval.Some? && t.approval.value.approved }

  function Woken(c: Call): Call {
    var c := c.(woke := c.task.approval);
    if ApprovedDecision(c.task) then
      c.(task := c.task.(status := Running, allowDangerous := true), phase := InStrategy, started := true)
    else
      Answered(c, c.task.(status := Cancelled, errorCode := CancelledCode,
                          errorMessage := OrElse(if c.task.approval.Some? then c.task.approval.value.comment else "",
                                                 "rejected")))
  }

  /** A tool waiter goes on only with an approval that does not name another request. */
  predicate GoesOn(t: Task) {
    ApprovedDecision(t)
    && !(ExpectedId(t) != "" && t.approval.value.approvalId != "" && t.approval.value.approvalId != ExpectedId(t))
  }

  function ToolWoken(t: Task): Task { if GoesOn(t) then t.(status := Running) else t }

  function Max(a: int, b: int): int { if a >= b then a else b }

  function Finish(c: Call, content: string, totalTokens: nat): Call {
    var t := c.task;
    if t.cancelEvent then
      Answered(c, t.(status := Cancelled, errorCode := CancelledCode,
                     errorMessage := OrElse(t.errorMessage, "cancelled")))
    else
      Answered(c, t.(result := content, status := Completed,
                     tokensUsed := Max(t.tokensUsed, totalTokens), errorCode := OkCode))
  }

  /** Tool and charge steps may still come from sub-tasks of a strategy that did not complete: nothing
      stops the siblings of the one that raised, neither while the failure is emitted nor after the answer. */
  predicate Background(c: Call) {
    match c.phase
    case InStrategy => true
    case EmittingFailure => true
    case Responded(response) => c.started && !response.ok
    case _ => false
  }

  predicate Enabled(c: Call, s: CallStep) {
    match s
    case Begin(_) => c.phase.Starting?
    case PauseEmitted => c.phase.EmittingPause?
    case DecisionWakes => c.phase.AwaitingDecision? && c.task.approvalEvent
    case ApprovalTimesOut => c.phase.AwaitingDecision?
    case Charges(_) => Background(c)
    case ToolAsks(_) => Background(c)
    case ToolWakes => Background(c) && c.task.approvalEvent
    case ToolSettles => Background(c)
    case Returned(_, _) => c.phase.InStrategy?
    case Interrupted => c.phase.InStrategy?
    case RaisedBudget(_, _) => c.phase.InStrategy?
    case Raised(_) => c.phase.InStrategy?
    case FailureEmitted => c.phase.EmittingFailure?
  }

  function Advance(c: Call, s: CallStep): Call
    requires Enabled(c, s)
  {
    var t := c.task;
    match s
    case Begin(known) =>
      if !known then
        Answered(c, t.(status := Failed, errorCode := NotFound, errorMessage := "unknown strategy " + t.strategy))
      else if t.requireApproval then c.(task := t.(status := WaitingApproval), phase := EmittingPause)
      else c.(phase := InStrategy, started := true)
    case PauseEmitted => c.(phase := AwaitingDecision)
    case DecisionWakes => Woken(c)
    case ApprovalTimesOut =>
      Answered(c, t.(status := TimedOut, errorCode := TimeoutCode, errorMessage := "approval timed out"))
    case Charges(used) => c.(task := t.(tokensUsed := t.tokensUsed + used))
    case ToolAsks(id) =>
      c.(task := t.(status := WaitingApproval, approvalEvent := false, approval := None, approvalRequest := Some(id)))
    case ToolWakes => c.(task := ToolWoken(t))
    case ToolSettles => c.(task := t.(approval := None, approvalRequest := None))
    case Returned(content, total) => Finish(c, content, total)
    case Interrupted =>
      Answered(c, t.(status := Cancelled, errorCode := CancelledCode, errorMessage := "cancelled"))
    case RaisedBudget(used, message) =>
      c.(task := t.(status := Failed, errorCode := BudgetExceeded, errorMessage := message, tokensUsed := used),
         phase := EmittingFailure)
    case Raised(message) =>
      c.(task := t.(status := Failed, errorCode := StrategyFailed, errorMessage := message), phase := EmittingFailure)
    case FailureEmitted => Answered(c, t)
  }

  // ---------------------------------------------------------------- the coroutine

  /** One RunStrategy call: the stretches of code between two awaits, on a shared task object. */
  class RunCall {
    const state: TaskState
    var phase: Phase
    var woke: Option<Decision>
    var started: bool

    function View(): Call
      reads this, state
    {
      Call(state.View(), phase, woke, started)
    }

    constructor (state: TaskState)
      ensures this.state == state && View() == Call(state.View(), Starting, None, false)
    {
      this.state, phase, woke, started := state, Starting, None, false;
    }

    /** From the registration to the first await. */
    method Begins(known: bool)
      requires phase.Starting?
      modifies this, state
      ensures View() == Advance(old(View()), Begin(known))
    {
      if !known {
        state.status := Failed;
        state.errorCode := NotFound;
        state.errorMessage := "unknown strategy " + state.strategy;
        phase := Responded(Respond(state.View()));
      } else if state.requireApproval {
        state.status := WaitingApproval;
        phase := EmittingPause;
      } else {
        started := true;
        phase := InStrategy;
      }
    }

    /** The approval waiter after its event was set. */
    method Wakes()
      requires phase.AwaitingDecision? && state.approvalEvent
      modifies this, state
      ensures View() == Advance(old(View()), DecisionWakes)
    {
      woke := state.approval;
      if !ApprovedDecision(state.View()) {
        state.status := Cancelled;
        state.errorCode := CancelledCode;
        var comment := if state.approval.Some? then state.approval.value.comment else "";
        state.errorMessage := if comment != "" then comment else "rejected";
        phase := Responded(Respond(state.View()));
        return;
      }
      state.status := Running;
      state.allowDangerous := true;
      started := true;
      phase := InStrategy;
    }

    method TimesOut()
      requires phase.AwaitingDecision?
      modifies this, state
      ensures View() == Advance(old(View()), ApprovalTimesOut)
    {
      state.status := TimedOut;
      state.errorCode := TimeoutCode;
      state.errorMessage := "approval timed out";
      phase := Responded(Respond(state.View()));
    }

    /** After `strategy.run` has returned. */
    method StrategyReturns(content: string, totalTokens: nat)
      requires phase.InStrategy?
      modifies this, state
      ensures View() == Advance(old(View()), Returned(content, totalTokens))
    {
      if state.cancelEvent {
        state.status := Cancelled;
        state.errorCode := CancelledCode;
        state.errorMessage := if state.errorMessage != "" then state.errorMessage else "cancelled";
        phase := Responded(Respond(state.View()));
        return;
      }
      state.result := content;
      state.status := Completed;
      state.tokensUsed := Max(state.tokensUsed, totalTokens);
      state.errorCode := OkCode;
      phase := Responded(Respond(state.View()));
    }

    /** `strategy.run` raised: InterruptedError answers at once, the others emit first. */
    method StrategyRaises(s: CallStep)
      requires phase.InStrategy? && (s.Interrupted? || s.RaisedBudget? || s.Raised?)
      modifies this, state
      ensures View() == Advance(old(View()), s)
    {
      match s
      case Interrupted =>
        state.status := Cancelled;
        state.errorCode := CancelledCode;
        state.errorMessage := "cancelled";
        phase := Responded(Respond(state.View()));
      case RaisedBudget(used, message) =>
        state.status := Failed;
        state.errorCode := BudgetExceeded;
        state.errorMessage := message;
        state.tokensUsed := used;
        phase := EmittingFailure;
      case Raised(message) =>
        state.status := Failed;
        state.errorCode := StrategyFailed;
        state.errorMessage := message;
        phase := EmittingFailure;
    }

    method FailureIsEmitted()
      requires phase.EmittingFailure?
      modifies this
      ensures View() == Advance(old(View()), FailureEmitted)
    {
      phase := Responded(Respond(state.View()));
    }

    /** One poll of the watcher of the gRPC context. */
    method WatchContext(cancelled: bool)
      modifies state
      ensures state.View() == if cancelled then old(state.View()).(cancelEvent := true) else old(state.View())
    {
      if cancelled {
        state.cancelEvent := true;
      }
    }
  }

  // ---------------------------------------------------------------- the worker

  /** All calls of a worker and the registry that maps a key to the latest task under it. */
  datatype Worker = Worker(calls: seq<Call>, registry: map<string, nat>)

  datatype Label =
    | Start(workflowId: string, metaTaskId: string, strategy: string, requireApproval: bool, tokenBudget: int)
    | Step(i: nat, s: CallStep)
    | Cancel(workflowId: string, taskId: string, reason: string)
    | Approve(workflowId: string, taskId: string, d: Decision)
    | ContextCancelled(i: nat)
    | InjectSession(workflowId: string, taskId: string)

  ghost predicate Consistent(w: Worker) { forall k <- w.registry :: w.registry[k] < |w.calls| }

  function Find(w: Worker, workflowId: string, taskId: string): Option<nat> {
    var k := FindKey(w.registry.Keys, workflowId, taskId);
    if k.Some? then Some(w.registry[k.value]) else None
  }

  /** The registered task a cancel or a decision reaches. */
  function Target(w: Worker, l: Label): Option<nat> {
    match l
    case Cancel(wf, tid, _) => Find(w, wf, tid)
    case Approve(wf, tid, _) => Find(w, wf, tid)
    case Step(i, _) => Some(i)
    case ContextCancelled(i) => Some(i)
    case _ => None
  }

  /** The watcher runs from the lookup of the strategy to the response. */
  predicate Watched(p: Phase) { !p.Dormant? && !p.Starting? && !p.Responded? }

  function Effect(c: Call, l: Label): Call {
    match l
    case Cancel(_, _, reason) => c.(task := CancelRequested(c.task, reason))
    case Approve(_, _, d) => c.(task := Decided(c.task, d))
    case ContextCancelled(_) => if Watched(c.phase) then c.(task := c.task.(cancelEvent := true)) else c
    case Step(_, s) => if Enabled(c, s) then Advance(c, s) else c
    case _ => c
  }

  function Register(w: Worker, c: Call): Worker {
    Worker(w.calls + [c], w.registry[Key(c.task.workflowId, c.task.taskId) := |w.calls|])
  }

  function Next(w: Worker, l: Label): Worker {
    match l
    case Start(wf, meta, strategy, needs, budget) =>
      var workflowId := OrElse(wf, meta);
      var taskId := OrElse(meta, workflowId);
      Register(w, Call(NewTask(workflowId, taskId, strategy, needs, budget, Running), Starting, None, false))
    case InjectSession(wf, tid) =>
      if Find(w, wf, tid).Some? then w
      else Register(w, Call(NewTask(wf, OrElse(tid, wf), "sample", false, 0, Queued), Dormant, None, false))
    case _ =>
      var i := Target(w, l);
      if i.Some? && i.value < |w.calls| then w.(calls := w.calls[i.value := Effect(w.calls[i.value], l)]) else w
  }

  function Run(w: Worker, ls: seq<Label>): Worker
    decreases ls
  {
    if ls == [] then w else Run(Next(w, ls[0]), ls[1..])
  }
}
