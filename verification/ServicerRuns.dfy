/** Requests, approvals and usage over runs of the worker: what reaches a call, what lets it go on, and what
    it is charged. */
module ServicerRuns {
  import opened Text
  import opened Runtime
  import opened Servicer
  import opened ServicerTheorems
  import opened ServicerAnswers

  // ---------------------------------------------------------------- the latest start is reached

  /** The workflow id a start registers its call under. */
  function StartId(l: Label): string
    requires l.Start?
  {
    if l.workflowId != "" then l.workflowId else l.metaTaskId
  }

  predicate StartsUnder(l: Label, id: string) { l.Start? && StartId(l) == id }

  ghost predicate Registered(w: Worker, id: string, i: nat) { id in w.registry && w.registry[id] == i }

  /** What a start and an injected session put on record. */
  lemma NewCalls(w: Worker, wf: string, meta: string, strategy: string, needs: bool, budget: int)
    ensures var start := Start(wf, meta, strategy, needs, budget);
            var id, w' := StartId(start), Next(w, start);
            var t := Task(id, if meta != "" then meta else id, strategy, needs, budget, Running, OkCode, "", "", 0,
                          None, None, false, false, false);
            w'.calls == w.calls + [Call(t, Starting, None, false)]
    ensures var w' := Next(w, InjectSession(wf, meta));
            var t := Task(wf, if meta != "" then meta else wf, "sample", false, 0, Queued, OkCode, "", "", 0,
                          None, None, false, false, false);
            w'.calls == if Find(w, wf, meta).Some? then w.calls else w.calls + [Call(t, Dormant, None, false)]
  {
  }

  lemma StaysRegistered(w: Worker, l: Label, id: string, i: nat)
    requires Consistent(w) && id != "" && Registered(w, id, i) && !StartsUnder(l, id)
    ensures Registered(Next(w, l), id, i)
  {
  }

  lemma {:induction false} StaysRegisteredOver(w: Worker, ls: seq<Label>, id: string, i: nat)
    requires Consistent(w) && id != "" && Registered(w, id, i) && forall l <- ls :: !StartsUnder(l, id)
    ensures Registered(Run(w, ls), id, i)
    decreases ls
  {
    if ls != [] {
      assert ls[0] in ls && forall l <- ls[1..] :: l in ls;
      NextIsConsistent(w, ls[0]);
      StaysRegistered(w, ls[0], id, i);
      StaysRegisteredOver(Next(w, ls[0]), ls[1..], id, i);
    }
  }

  /** Whatever happens after a start, injected sessions included, requests under its workflow id reach its
      call until another start takes the id. */
  lemma LatestStartIsReached(w: Worker, start: Label, ls: seq<Label>, anyTaskId: string)
    requires Consistent(w) && start.Start? && StartId(start) != "" && forall l <- ls :: !StartsUnder(l, StartId(start))
    ensures Find(Run(Next(w, start), ls), StartId(start), anyTaskId) == Some(|w.calls|)
  {
    NextIsConsistent(w, start);
    StaysRegisteredOver(Next(w, start), ls, StartId(start), |w.calls|);
  }

  /** So a cancel by that id keeps the call from completing, if it has not answered before. */
  lemma CancelByIdStops(w: Worker, start: Label, ls: seq<Label>, anyTaskId: string, reason: string, after: seq<Label>)
    requires Consistent(w) && Honest(w)
    requires start.Start? && StartId(start) != "" && forall l <- ls :: !StartsUnder(l, StartId(start))
    requires var c := Run(Next(w, start), ls).calls; |w.calls| < |c| && Live(c[|w.calls|])
    ensures var c := Run(Next(Run(Next(w, start), ls), Cancel(StartId(start), anyTaskId, reason)), after).calls;
            |w.calls| < |c| && (c[|w.calls|].phase.Responded? ==> !c[|w.calls|].phase.response.ok)
  {
    var n := Next(w, start);
    var e := Run(n, ls);
    var cancel := Cancel(StartId(start), anyTaskId, reason);
    NextIsConsistent(w, start);
    NextIsHonest(w, start);
    RunIsHonest(n, ls);
    LatestStartIsReached(w, start, ls, anyTaskId);
    HitDooms(e, cancel, |w.calls|);
    NextIsConsistent(e, cancel);
    NextIsHonest(e, cancel);
    DoomedRun(Next(e, cancel), after, |w.calls|);
  }

  /** The answer of a call that was cancelled while running carries the reason. */
  lemma CancelReasonIsAnswered(c: Call, wf: string, taskId: string, reason: string, content: string, total: nat, i: nat)
    requires c.phase.InStrategy? && (c.task.status == Running || c.task.status == WaitingApproval)
    ensures var d := Effect(Effect(c, Cancel(wf, taskId, reason)), Step(i, Returned(content, total)));
            d.phase.Responded? &&
            Failing(d.phase.response, c.task.strategy, Cancelled, CancelledCode,
                    if reason != "" then reason else "cancelled")
  {
    var hit := Effect(c, Cancel(wf, taskId, reason));
    EndingAnswers(hit, Returned(content, total));
  }

  // ---------------------------------------------------------------- approvals

  lemma ApprovalAfterEffect(c: Call, l: Label)
    ensures var after := Effect(c, l).task.approval;
            after == c.task.approval || after.None? || (l.Approve? && Applies(c.task, l.d) && after == Some(l.d))
  {
    if l.Step? && Enabled(c, l.s) { ApprovalAfterAdvance(c, l.s); }
  }

  lemma ApprovalAfterAdvance(c: Call, s: CallStep)
    requires Enabled(c, s)
    ensures Advance(c, s).task.approval == if s.ToolAsks? || s.ToolSettles? then None else c.task.approval
    ensures Advance(c, s).task.approvalRequest
         == if s.ToolSettles? then None else if s.ToolAsks? then Some(s.bindingId) else c.task.approvalRequest
    ensures Advance(c, s).task.approvalEvent == (!s.ToolAsks? && c.task.approvalEvent)
  {
    match s
    case Begin(_) =>
    case DecisionWakes =>
    case ToolAsks(_) =>
    case ToolWakes =>
    case ToolSettles =>
    case Returned(_, _) =>
    case FailureEmitted =>
    case _ =>
  }

  /** An approval on record that was not there before was recorded by a request of the run. */
  lemma {:induction false} ApprovalWasRecorded(w: Worker, ls: seq<Label>, i: nat, d: Decision)
    requires Consistent(w) && i < |w.calls| && w.calls[i].task.approval != Some(d)
    requires i < |Run(w, ls).calls| && Run(w, ls).calls[i].task.approval == Some(d)
    ensures DecidedDuring(w, ls, i, d)
    decreases ls
  {
    if ls != [] {
      NextIsConsistent(w, ls[0]);
      LabelsTouchOnlyTheirTarget(w, ls[0], i);
      ApprovalAfterEffect(w.calls[i], ls[0]);
      if Next(w, ls[0]).calls[i].task.approval != Some(d) { ApprovalWasRecorded(Next(w, ls[0]), ls[1..], i, d); }
    }
  }

  /** An approval lets one tool pass: after a tool has asked, and again after one has settled, a waiter goes
      on only with a decision that approves and was recorded since. */
  lemma ApprovalIsUsedOnce(w: Worker, i: nat, s: CallStep, ls: seq<Label>)
    requires Consistent(w) && i < |w.calls| && Enabled(w.calls[i], s) && (s.ToolAsks? || s.ToolSettles?)
    ensures i < |Run(Next(w, Step(i, s)), ls).calls|
    ensures var t := Run(Next(w, Step(i, s)), ls).calls[i].task;
            GoesOn(t) ==> t.approval.Some? && t.approval.value.approved
                          && DecidedDuring(Next(w, Step(i, s)), ls, i, t.approval.value)
  {
    var n := Next(w, Step(i, s));
    NextIsConsistent(w, Step(i, s));
    LabelsTouchOnlyTheirTarget(w, Step(i, s), i);
    ApprovalAfterAdvance(w.calls[i], s);
    StillThere(n, ls, i);
    var t := Run(n, ls).calls[i].task;
    if t.approval.Some? { ApprovalWasRecorded(n, ls, i, t.approval.value); }
  }

  lemma {:induction false} StillThere(w: Worker, ls: seq<Label>, i: nat)
    requires Consistent(w) && i < |w.calls|
    ensures Consistent(Run(w, ls)) && i < |Run(w, ls).calls|
    decreases ls
  {
    if ls != [] {
      NextIsConsistent(w, ls[0]);
      StillThere(Next(w, ls[0]), ls[1..], i);
    }
  }

  /** What holds of approvals in every reachable call: one on record answers the pending request, a waiter's
      event means a decision, and the gate is open exactly for calls that passed it. */
  predicate Orderly(c: Call) {
    && Gated(c)
    && (c.task.approval.Some? ==> Applies(c.task, c.task.approval.value))
    && (c.phase in {Dormant, Starting, EmittingPause, AwaitingDecision} ==>
          (c.task.approvalEvent ==> c.task.approval.Some?) && c.task.approvalRequest.None?)
    && (c.started && c.task.requireApproval ==> c.task.allowDangerous)
  }

  lemma EffectIsOrderly(c: Call, l: Label)
    requires Orderly(c)
    ensures Orderly(Effect(c, l))
  {
    EffectIsGated(c, l);
    if l.Step? && Enabled(c, l.s) {
      ApprovalAfterAdvance(c, l.s);
      AdvanceIsOrderly(c, l.s);
    }
  }

  lemma AdvanceIsOrderly(c: Call, s: CallStep)
    requires Enabled(c, s) && Orderly(c) && Gated(Advance(c, s))
    ensures Orderly(Advance(c, s))
  {
    ApprovalAfterAdvance(c, s);
    match s
    case Begin(_) =>
    case DecisionWakes =>
    case ToolWakes =>
    case Returned(_, _) =>
    case FailureEmitted =>
    case _ =>
  }

  lemma {:induction false} OrderlyRun(w: Worker, ls: seq<Label>, i: nat)
    requires Consistent(w) && i < |w.calls| && Orderly(w.calls[i])
    ensures i < |Run(w, ls).calls| && Orderly(Run(w, ls).calls[i])
    decreases ls
  {
    if ls != [] {
      NextIsConsistent(w, ls[0]);
      EffectIsOrderly(w.calls[i], ls[0]);
      LabelsTouchOnlyTheirTarget(w, ls[0], i);
      OrderlyRun(Next(w, ls[0]), ls[1..], i);
    }
  }

  /** Over every run of a call: dangerous tools are allowed exactly when it needed approval and passed its
      gate; its waiter wakes, to go on or to be rejected, only to a decision that some request recorded; and
      an approval on record always names the pending request, so that the waiter's own test never decides. */
  lemma EveryCallIsOrderly(w: Worker, start: Label, ls: seq<Label>)
    requires Consistent(w) && start.Start?
    ensures |w.calls| < |Run(Next(w, start), ls).calls|
    ensures var c := Run(Next(w, start), ls).calls[|w.calls|];
            && (c.task.allowDangerous <==> c.task.requireApproval && c.started)
            && (Enabled(c, DecisionWakes) ==>
                  c.task.approval.Some? && DecidedDuring(Next(w, start), ls, |w.calls|, c.task.approval.value))
            && (GoesOn(c.task) <==> c.task.approval.Some? && c.task.approval.value.approved)
  {
    var n, i := Next(w, start), |w.calls|;
    NextIsConsistent(w, start);
    OrderlyRun(n, ls, i);
    var c := Run(n, ls).calls[i];
    if c.task.approval.Some? { ApprovalWasRecorded(n, ls, i, c.task.approval.value); }
  }

  /** A waiter does not go on with an approval that names another request. */
  lemma MismatchDoesNotGoOn(t: Task, d: Decision, id: string)
    requires t.approval == Some(d) && t.approvalRequest == Some(id) && d.approvalId != "" && id != "" && d.approvalId != id
    ensures ToolWoken(t) == t
  {
  }

  // ---------------------------------------------------------------- usage

  /** The charges of call i among the labels of a run. */
  function ChargesOf(w: Worker, ls: seq<Label>, i: nat): nat
    decreases ls
  {
    if ls == [] || i >= |w.calls| then 0
    else
      (if ls[0].Step? && ls[0].i == i && ls[0].s.Charges? && Enabled(w.calls[i], ls[0].s) then ls[0].s.used else 0)
        + ChargesOf(Next(w, ls[0]), ls[1..], i)
  }

  /** Before it returns or raises, a call has used what it was charged, and nothing else. */
  lemma {:induction false} UsageIsCharged(w: Worker, ls: seq<Label>, i: nat)
    requires Consistent(w) && i < |w.calls|
    requires i < |Run(w, ls).calls| && Run(w, ls).calls[i].phase.InStrategy?
    ensures Run(w, ls).calls[i].task.tokensUsed == w.calls[i].task.tokensUsed + ChargesOf(w, ls, i)
    decreases ls
  {
    if ls != [] {
      var n := Next(w, ls[0]);
      NextIsConsistent(w, ls[0]);
      LabelsTouchOnlyTheirTarget(w, ls[0], i);
      NotEndedYet(w, ls, i);
      if Target(w, ls[0]) == Some(i) { UsageStep(w.calls[i], ls[0]); }
      UsageIsCharged(n, ls[1..], i);
    }
  }

  predicate Ended(p: Phase) { p.EmittingFailure? || p.Responded? }

  lemma {:induction false} EndedStays(w: Worker, ls: seq<Label>, i: nat)
    requires Consistent(w) && i < |w.calls| && Ended(w.calls[i].phase)
    ensures i < |Run(w, ls).calls| && Ended(Run(w, ls).calls[i].phase)
    decreases ls
  {
    if ls != [] {
      NextIsConsistent(w, ls[0]);
      LabelsTouchOnlyTheirTarget(w, ls[0], i);
      EndedStep(w.calls[i], ls[0]);
      EndedStays(Next(w, ls[0]), ls[1..], i);
    }
  }

  lemma EndedStep(c: Call, l: Label)
    requires Ended(c.phase)
    ensures Ended(Effect(c, l).phase)
  {
  }

  lemma NotEndedYet(w: Worker, ls: seq<Label>, i: nat)
    requires Consistent(w) && i < |w.calls| && ls != []
    requires i < |Run(w, ls).calls| && Run(w, ls).calls[i].phase.InStrategy?
    ensures i < |Next(w, ls[0]).calls| && !Ended(Next(w, ls[0]).calls[i].phase) && !Ended(w.calls[i].phase)
  {
    NextIsConsistent(w, ls[0]);
    LabelsTouchOnlyTheirTarget(w, ls[0], i);
    if Ended(w.calls[i].phase) { EndedStep(w.calls[i], ls[0]); }
    if Ended(Next(w, ls[0]).calls[i].phase) { EndedStays(Next(w, ls[0]), ls[1..], i); }
  }

  lemma UsageStep(c: Call, l: Label)
    requires !Ended(c.phase) && !Ended(Effect(c, l).phase)
    ensures Effect(c, l).task.tokensUsed
         == c.task.tokensUsed + if l.Step? && l.s.Charges? && Enabled(c, l.s) then l.s.used else 0
  {
    if l.Step? && Enabled(c, l.s) {
      match l.s
      case Begin(_) =>
      case DecisionWakes =>
      case ToolWakes =>
      case Charges(_) =>
      case Returned(_, _) =>
      case _ =>
    }
  }

  /** A completed call has used the larger of its charges and the total its strategy reports, and its
      response says whether that exhausts the budget. */
  lemma ReturnReportsUsage(c: Call, content: string, total: nat)
    requires c.phase.InStrategy? && !c.task.cancelEvent
    ensures var d := Advance(c, Returned(content, total));
            var used := if c.task.tokensUsed >= total then c.task.tokensUsed else total;
            && d.task.tokensUsed == used && d.phase.Responded?
            && (d.phase.response.exceeded <==> c.task.tokenBudget != 0 && used >= c.task.tokenBudget)
  {
  }
}
