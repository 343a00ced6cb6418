/** What a call answers, by the step that ended it: status, code, message and failover hint. */
module ServicerAnswers {
  import opened Text
  import opened Runtime
  import opened Servicer
  import opened ServicerTheorems
  import opened ServicerStatus

  // ---------------------------------------------------------------- hints

  predicate Heavy(strategy: string) { strategy == "dag" || strategy == "research" || strategy == "swarm" }

  predicate Retryable(e: ErrorCode) {
    e == StrategyFailed || e == TimeoutCode || e == Unavailable || e == ErrorCode.Failover
  }

  /** A failed response asks for failover, to the sample strategy, exactly after a retryable failure of a
      heavy strategy, and says why when it does not. */
  predicate HintSays(r: Response, strategy: string) {
    r.failover.Some? &&
    var h := r.failover.value;
    && h.shouldFailover == (Retryable(r.errorCode) && Heavy(strategy))
    && h.retryable == h.shouldFailover
    && h.suggested == (if h.shouldFailover then Sample else KindUnspecified)
    && h.reason == (if h.shouldFailover then "fallback to sample"
                    else if Retryable(r.errorCode) then "already on sample"
                    else if r.errorCode == BudgetExceeded then "budget exceeded is hard stop"
                    else if r.errorCode == CancelledCode then "cancelled is not failover"
                    else "no failover")
  }

  /** The hint a client asks for by code and kind. */
  lemma HintFor(lastError: ErrorCode, failed: Kind)
    ensures var h := FailoverHint(lastError, failed);
            && (h.shouldFailover <==> Retryable(lastError) && (failed == Dag || failed == Research || failed == SwarmKind))
            && h.retryable == h.shouldFailover
            && h.suggested == (if h.shouldFailover then Sample else KindUnspecified)
  {
  }

  lemma RespondSays(t: Task)
    requires t.status != Completed
    ensures !Respond(t).ok && HintSays(Respond(t), t.strategy)
    ensures Respond(t).errorCode == t.errorCode && Respond(t).taskStatus == t.status
    ensures Respond(t).errorMessage == t.errorMessage && Respond(t).result == t.result
    ensures Respond(t).exceeded <==> t.tokenBudget != 0 && t.tokensUsed >= t.tokenBudget
  {
  }

  // ---------------------------------------------------------------- endings

  /** A step after which a call has answered. */
  predicate Ends(c: Call, s: CallStep) {
    match s
    case Begin(known) => !known
    case DecisionWakes => !ApprovedDecision(c.task)
    case ApprovalTimesOut => true
    case Returned(_, _) => true
    case Interrupted => true
    case FailureEmitted => true
    case _ => false
  }

  function Comment(t: Task): string {
    if t.approval.Some? && t.approval.value.comment != "" then t.approval.value.comment else "rejected"
  }

  predicate Failing(r: Response, strategy: string, status: Status, code: ErrorCode, message: string) {
    !r.ok && r.taskStatus == status && r.errorCode == code && r.errorMessage == message && HintSays(r, strategy)
  }

  /** What the response says after that step. */
  predicate Says(c: Call, s: CallStep, r: Response) {
    var t := c.task;
    match s
    case Begin(_) => Failing(r, t.strategy, Failed, NotFound, "unknown strategy " + t.strategy)
    case DecisionWakes => Failing(r, t.strategy, Cancelled, CancelledCode, Comment(t))
    case ApprovalTimesOut => Failing(r, t.strategy, TimedOut, TimeoutCode, "approval timed out")
    case Returned(content, _) =>
      if t.cancelEvent then
        Failing(r, t.strategy, Cancelled, CancelledCode, if t.errorMessage != "" then t.errorMessage else "cancelled")
      else r.ok && r.taskStatus == Completed && r.errorCode == OkCode && r.result == content && r.failover.None?
    case Interrupted => Failing(r, t.strategy, Cancelled, CancelledCode, "cancelled")
    case FailureEmitted => Failing(r, t.strategy, t.status, t.errorCode, t.errorMessage)
    case _ => true
  }

  /** A live call answers exactly at these steps. */
  lemma EndingAnswers(c: Call, s: CallStep)
    requires Enabled(c, s) && Live(c) && FailsHonestly(c)
    ensures Advance(c, s).phase.Responded? <==> Ends(c, s)
    ensures Ends(c, s) ==> Says(c, s, Advance(c, s).phase.response)
  {
    var t := Advance(c, s).task;
    match s
    case Begin(known) => if !known { RespondSays(t); }
    case DecisionWakes => if !ApprovedDecision(c.task) { RespondSays(t); }
    case ApprovalTimesOut => RespondSays(t);
    case Returned(_, _) => if c.task.cancelEvent { RespondSays(t); }
    case Interrupted => RespondSays(t);
    case FailureEmitted => RespondSays(t);
    case _ =>
  }

  /** Over every run: the response of a call was given by one such step of its own, and says what that
      step makes it say. */
  lemma {:induction false} EveryAnswerSays(w: Worker, ls: seq<Label>, i: nat) returns (k: nat)
    requires Consistent(w) && Honest(w) && i < |w.calls| && Live(w.calls[i])
    requires i < |Run(w, ls).calls| && Run(w, ls).calls[i].phase.Responded?
    ensures k < |ls| && ls[k].Step? && ls[k].i == i && i < |Run(w, ls[..k]).calls|
    ensures var c := Run(w, ls[..k]).calls[i];
            Live(c) && Enabled(c, ls[k].s) && Ends(c, ls[k].s) && Says(c, ls[k].s, Run(w, ls).calls[i].phase.response)
    decreases ls
  {
    var n := Next(w, ls[0]);
    NextIsConsistent(w, ls[0]);
    NextIsHonest(w, ls[0]);
    LabelsTouchOnlyTheirTarget(w, ls[0], i);
    if n.calls[i].phase.Responded? {
      k := 0;
      RespondedStays(n, ls[1..], i);
      EndingAnswers(w.calls[i], ls[0].s);
    } else {
      var j := EveryAnswerSays(n, ls[1..], i);
      k := j + 1;
      assert ls[..k][1..] == ls[1..][..j];
    }
  }

  // ---------------------------------------------------------------- failures

  /** What takes the code of a failure away while it is being emitted: a rejection, or a cancel that
      finds a sub-task waiting for approval or going on after one. */
  predicate TakesCode(c: Call, l: Label) {
    || (l.Approve? && Applies(c.task, l.d) && !l.d.approved)
    || (l.Cancel? && c.task.status in {Queued, Running, WaitingApproval})
  }

  predicate CodeTakenDuring(w: Worker, ls: seq<Label>, i: nat)
    decreases ls
  {
    ls != [] && i < |w.calls|
    && ((Target(w, ls[0]) == Some(i) && TakesCode(w.calls[i], ls[0])) || CodeTakenDuring(Next(w, ls[0]), ls[1..], i))
  }

  lemma EmittingStep(c: Call, l: Label)
    requires c.phase.EmittingFailure? && Effect(c, l).phase.EmittingFailure?
    ensures Effect(c, l).task.strategy == c.task.strategy
    ensures Effect(c, l).task.errorCode == if TakesCode(c, l) then CancelledCode else c.task.errorCode
    ensures !TakesCode(c, l) ==> Effect(c, l).task.errorMessage == c.task.errorMessage
  {
    if l.Step? && Enabled(c, l.s) { EmittingAdvance(c, l.s); }
  }

  lemma EmittingAdvance(c: Call, s: CallStep)
    requires c.phase.EmittingFailure? && Enabled(c, s) && Advance(c, s).phase.EmittingFailure?
    ensures var t := Advance(c, s).task;
            t.strategy == c.task.strategy && t.errorCode == c.task.errorCode && t.errorMessage == c.task.errorMessage
  {
    match s
    case Charges(_) =>
    case ToolAsks(_) =>
    case ToolWakes =>
    case ToolSettles =>
    case _ =>
  }

  lemma {:induction false} EmittingRun(w: Worker, ls: seq<Label>, i: nat)
    requires Consistent(w) && i < |w.calls| && w.calls[i].phase.EmittingFailure?
    requires i < |Run(w, ls).calls| && Run(w, ls).calls[i].phase.EmittingFailure?
    ensures var c, d := w.calls[i], Run(w, ls).calls[i];
            && d.task.strategy == c.task.strategy
            && d.task.errorCode == (if CodeTakenDuring(w, ls, i) then CancelledCode else c.task.errorCode)
            && (!CodeTakenDuring(w, ls, i) ==> d.task.errorMessage == c.task.errorMessage)
    decreases ls
  {
    if ls != [] {
      var n := Next(w, ls[0]);
      NextIsConsistent(w, ls[0]);
      LabelsTouchOnlyTheirTarget(w, ls[0], i);
      EmittingGoesOn(w, ls, i);
      if Target(w, ls[0]) == Some(i) { EmittingStep(w.calls[i], ls[0]); }
      EmittingRun(n, ls[1..], i);
    }
  }

  /** A call that is emitting at the end has been emitting all along. */
  lemma EmittingGoesOn(w: Worker, ls: seq<Label>, i: nat)
    requires Consistent(w) && i < |w.calls| && w.calls[i].phase.EmittingFailure? && ls != []
    requires i < |Run(w, ls).calls| && Run(w, ls).calls[i].phase.EmittingFailure?
    ensures i < |Next(w, ls[0]).calls| && Next(w, ls[0]).calls[i].phase.EmittingFailure?
  {
    var n := Next(w, ls[0]);
    NextIsConsistent(w, ls[0]);
    LabelsTouchOnlyTheirTarget(w, ls[0], i);
    if Target(w, ls[0]) == Some(i) { EmittingOrAnswered(w.calls[i], ls[0]); }
    if n.calls[i].phase.Responded? { RespondedStays(n, ls[1..], i); }
  }

  lemma EmittingOrAnswered(c: Call, l: Label)
    requires c.phase.EmittingFailure?
    ensures Effect(c, l).phase.EmittingFailure? || Effect(c, l).phase.Responded?
  {
  }

  /** The code and the message an exception of the strategy stands for. */
  function RaisedCode(s: CallStep): ErrorCode
    requires s.RaisedBudget? || s.Raised?
  {
    if s.RaisedBudget? then BudgetExceeded else StrategyFailed
  }

  /** A call whose strategy raised answers, after any run of requests and left-over steps while the failure
      is emitted, with the code of the exception, unless a request took it away; then it reads cancelled. An
      exhausted budget never asks for failover, any other exception does so exactly for heavy strategies. */
  lemma FailureAnswers(w: Worker, i: nat, s: CallStep, during: seq<Label>)
    requires Consistent(w) && i < |w.calls| && w.calls[i].phase.InStrategy? && (s.RaisedBudget? || s.Raised?)
    requires var e := Run(Next(w, Step(i, s)), during); i < |e.calls| && e.calls[i].phase.EmittingFailure?
    requires Honest(w)
    ensures var raised := Next(w, Step(i, s));
            var c := Next(Run(raised, during), Step(i, FailureEmitted)).calls[i];
            c.phase.Responded? &&
            var r, taken, strategy := c.phase.response, CodeTakenDuring(raised, during, i), w.calls[i].task.strategy;
            && !r.ok && HintSays(r, strategy)
            && r.errorCode == (if taken then CancelledCode else RaisedCode(s))
            && (!taken ==> r.errorMessage == s.message)
            && (r.failover.value.shouldFailover <==> !taken && s.Raised? && Heavy(strategy))
  {
    var raised := Next(w, Step(i, s));
    NextIsConsistent(w, Step(i, s));
    NextIsHonest(w, Step(i, s));
    LabelsTouchOnlyTheirTarget(w, Step(i, s), i);
    RaiseSets(w.calls[i], s);
    EmittingRun(raised, during, i);
    var e := Run(raised, during);
    RunIsHonest(raised, during);
    LabelsTouchOnlyTheirTarget(e, Step(i, FailureEmitted), i);
    EndingAnswers(e.calls[i], FailureEmitted);
  }

  lemma RaiseSets(c: Call, s: CallStep)
    requires c.phase.InStrategy? && (s.RaisedBudget? || s.Raised?)
    ensures Enabled(c, s) && Advance(c, s).phase.EmittingFailure? && Advance(c, s).task.strategy == c.task.strategy
    ensures Advance(c, s).task.errorCode == RaisedCode(s) && Advance(c, s).task.errorMessage == s.message
    ensures Advance(c, s).task.status == Failed
    ensures s.RaisedBudget? ==> Advance(c, s).task.tokensUsed == s.used
  {
  }
}
