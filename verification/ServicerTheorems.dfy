/** Safety of RunStrategy over every interleaving of calls, cancels and decisions. */
module ServicerTheorems {
  import opened Text
  import opened Runtime
  import opened Servicer

  // ---------------------------------------------------------------- the registry

  lemma NextIsConsistent(w: Worker, l: Label)
    requires Consistent(w)
    ensures Consistent(Next(w, l)) && |Next(w, l).calls| >= |w.calls|
  {
  }

  /** A label changes at most the call it reaches; every other call is untouched. */
  lemma LabelsTouchOnlyTheirTarget(w: Worker, l: Label, i: nat)
    requires Consistent(w) && i < |w.calls|
    ensures i < |Next(w, l).calls|
    ensures Next(w, l).calls[i] == if Target(w, l) == Some(i) then Effect(w.calls[i], l) else w.calls[i]
  {
  }

  // ---------------------------------------------------------------- cancellation

  /** The label cancels call i: a cancel request or a rejection that reaches it, or the gRPC
      context seen cancelled by its watcher. */
  predicate Hits(w: Worker, l: Label, i: nat)
    requires i < |w.calls|
  {
    && Target(w, l) == Some(i)
    && match l
       case Cancel(_, _, _) => true
       case Approve(_, _, d) => Applies(w.calls[i].task, d) && !d.approved
       case ContextCancelled(_) => Watched(w.calls[i].phase)
       case _ => false
  }

  predicate Live(c: Call) { !c.phase.Responded? }

  /** The call can no longer end completed. */
  predicate Doomed(c: Call) {
    if c.phase.Responded? then !c.phase.response.ok && c.phase.response.taskStatus != Completed
    else c.task.cancelEvent
  }

  lemma HitDooms(w: Worker, l: Label, i: nat)
    requires Consistent(w) && i < |w.calls| && Live(w.calls[i]) && Hits(w, l, i)
    ensures Doomed(Next(w, l).calls[i])
  {
  }

  lemma AdvanceKeepsCancel(c: Call, s: CallStep)
    requires Enabled(c, s) && Doomed(c)
    requires c.phase.EmittingFailure? ==> c.task.status != Completed
    ensures Doomed(Advance(c, s))
  {
  }

  /** A failed call that is emitting its failure never has the completed status. */
  predicate FailsHonestly(c: Call) {
    c.phase.EmittingFailure? ==> c.task.status != Completed && c.task.errorCode != OkCode
  }

  lemma EffectFailsHonestly(c: Call, l: Label)
    requires FailsHonestly(c)
    ensures FailsHonestly(Effect(c, l))
  {
    if l.Step? {
      if Enabled(c, l.s) { AdvanceFailsHonestly(c, l.s); }
    }
  }

  lemma AdvanceFailsHonestly(c: Call, s: CallStep)
    requires Enabled(c, s) && FailsHonestly(c)
    ensures FailsHonestly(Advance(c, s))
  {
    if !s.RaisedBudget? && !s.Raised? { FailureOnlyRaised(c, s); }
  }

  /** Only an exception of the strategy leads to the emit of a failure, and while it is emitted no
      step completes the task or clears its code. */
  lemma FailureOnlyRaised(c: Call, s: CallStep)
    requires Enabled(c, s) && !s.RaisedBudget? && !s.Raised?
    ensures var after := Advance(c, s);
            after.phase.EmittingFailure? ==>
              && c.phase.EmittingFailure? && after.task.errorCode == c.task.errorCode
              && (after.task.status == Completed ==> c.task.status == Completed)
  {
  }

  ghost predicate Honest(w: Worker) { forall i :: 0 <= i < |w.calls| ==> FailsHonestly(w.calls[i]) }

  lemma NextIsHonest(w: Worker, l: Label)
    requires Consistent(w) && Honest(w)
    ensures Honest(Next(w, l))
  {
    var i := Target(w, l);
    if i.Some? && i.value < |w.calls| { EffectFailsHonestly(w.calls[i.value], l); }
  }

  lemma DoomIsForever(c: Call, l: Label)
    requires Doomed(c) && FailsHonestly(c)
    ensures Doomed(Effect(c, l))
  {
    if l.Step? && Enabled(c, l.s) { AdvanceKeepsCancel(c, l.s); }
  }

  lemma {:induction false} DoomedRun(w: Worker, ls: seq<Label>, i: nat)
    requires Consistent(w) && Honest(w) && i < |w.calls| && Doomed(w.calls[i])
    ensures i < |Run(w, ls).calls| && Doomed(Run(w, ls).calls[i])
    decreases ls
  {
    if ls != [] {
      NextIsConsistent(w, ls[0]);
      NextIsHonest(w, ls[0]);
      DoomIsForever(w.calls[i], ls[0]);
      LabelsTouchOnlyTheirTarget(w, ls[0], i);
      DoomedRun(Next(w, ls[0]), ls[1..], i);
    }
  }

  const IDLE_WORKER := Worker([], map[])

  lemma {:induction false} RunIsHonest(w: Worker, ls: seq<Label>)
    requires Consistent(w) && Honest(w)
    ensures Consistent(Run(w, ls)) && Honest(Run(w, ls))
    decreases ls
  {
    if ls != [] {
      NextIsConsistent(w, ls[0]);
      NextIsHonest(w, ls[0]);
      RunIsHonest(Next(w, ls[0]), ls[1..]);
    }
  }

  /** Cancellation safety: once a cancel, a rejection or a cancelled context has reached a call
      that has not responded yet, no continuation of the run lets that call end completed,
      whatever approvals, timeouts and other calls come in between. */
  lemma CancelledCallNeverCompletes(before: seq<Label>, hit: Label, after: seq<Label>, i: nat)
    requires i < |Run(IDLE_WORKER, before).calls|
    requires Live(Run(IDLE_WORKER, before).calls[i]) && Hits(Run(IDLE_WORKER, before), hit, i)
    ensures var c := Run(Next(Run(IDLE_WORKER, before), hit), after).calls;
            i < |c| && (c[i].phase.Responded? ==> !c[i].phase.response.ok && c[i].phase.response.taskStatus != Completed)
  {
    RunIsHonest(IDLE_WORKER, before);
    var w := Run(IDLE_WORKER, before);
    HitDooms(w, hit, i);
    NextIsConsistent(w, hit);
    NextIsHonest(w, hit);
    DoomedRun(Next(w, hit), after, i);
  }

  /** Some label of the run hits call i while the call is live. */
  predicate HitDuring(w: Worker, ls: seq<Label>, i: nat)
    decreases ls
  {
    ls != []
    && i < |w.calls|
    && ((Live(w.calls[i]) && Hits(w, ls[0], i)) || HitDuring(Next(w, ls[0]), ls[1..], i))
  }

  lemma StepKeepsCancelEvent(c: Call, s: CallStep)
    requires Enabled(c, s)
    ensures Advance(c, s).task.cancelEvent == c.task.cancelEvent
  {
    match s
    case Begin(_) =>
    case DecisionWakes =>
    case ToolWakes =>
    case Returned(_, _) =>
    case FailureEmitted =>
    case _ =>
  }

  lemma EventAfterLabel(w: Worker, l: Label, i: nat)
    requires Consistent(w) && i < |w.calls| && Live(Next(w, l).calls[i])
    ensures Live(w.calls[i])
    ensures Next(w, l).calls[i].task.cancelEvent <==> w.calls[i].task.cancelEvent || Hits(w, l, i)
  {
    LabelsTouchOnlyTheirTarget(w, l, i);
    if l.Step? && l.i == i && Enabled(w.calls[i], l.s) { StepKeepsCancelEvent(w.calls[i], l.s); }
  }

  /** A response, once given, stays. */
  lemma {:induction false} RespondedStays(w: Worker, ls: seq<Label>, i: nat)
    requires Consistent(w) && i < |w.calls| && w.calls[i].phase.Responded?
    ensures i < |Run(w, ls).calls| && Run(w, ls).calls[i].phase == w.calls[i].phase
    decreases ls
  {
    if ls != [] {
      NextIsConsistent(w, ls[0]);
      LabelsTouchOnlyTheirTarget(w, ls[0], i);
      RespondedStays(Next(w, ls[0]), ls[1..], i);
    }
  }

  /** The cancel event of a live call records exactly whether it was hit. */
  lemma {:induction false} CancelEventRecordsHits(w: Worker, ls: seq<Label>, i: nat)
    requires Consistent(w) && i < |w.calls|
    requires i < |Run(w, ls).calls| && Live(Run(w, ls).calls[i])
    ensures Run(w, ls).calls[i].task.cancelEvent <==> w.calls[i].task.cancelEvent || HitDuring(w, ls, i)
    decreases ls
  {
    if ls != [] {
      NextIsConsistent(w, ls[0]);
      var n := Next(w, ls[0]);
      if n.calls[i].phase.Responded? { RespondedStays(n, ls[1..], i); }
      EventAfterLabel(w, ls[0], i);
      CancelEventRecordsHits(n, ls[1..], i);
    }
  }

  /** Both directions: a call whose strategy returns ends completed exactly when nothing hit it
      since it was created. */
  lemma ReturnCompletesExactlyWhenNotHit(w: Worker, ls: seq<Label>, i: nat, content: string, total: nat)
    requires Consistent(w) && i < |w.calls| && !w.calls[i].task.cancelEvent
    requires i < |Run(w, ls).calls| && Run(w, ls).calls[i].phase.InStrategy?
    ensures var c := Next(Run(w, ls), Step(i, Returned(content, total))).calls[i];
            && c.phase.Responded?
            && (c.phase.response.ok <==> !HitDuring(w, ls, i))
            && (c.phase.response.ok ==> c.phase.response.result == content)
            && (!c.phase.response.ok ==> c.phase.response.errorCode == CancelledCode)
  {
    CancelEventRecordsHits(w, ls, i);
  }

  // ---------------------------------------------------------------- response coherence

  predicate Coherent(r: Response) {
    && (r.ok <==> r.taskStatus == Completed)
    && (r.ok <==> r.errorCode == OkCode)
    && (r.ok <==> r.failover.None?)
  }

  predicate Answers(c: Call) {
    && FailsHonestly(c)
    && (c.phase.Responded? ==> Coherent(c.phase.response))
  }

  lemma EffectAnswers(c: Call, l: Label)
    requires Answers(c)
    ensures Answers(Effect(c, l))
  {
    EffectFailsHonestly(c, l);
    if l.Step? && Enabled(c, l.s) { AdvanceAnswers(c, l.s); }
  }

  lemma AdvanceAnswers(c: Call, s: CallStep)
    requires Enabled(c, s) && Answers(c)
    ensures Answers(Advance(c, s))
  {
  }

  /** Every response any run returns is coherent: status OK, task completed, code OK and no
      failover hint are all or none, also when a request lands while a failure is emitted. */
  lemma {:induction false} EveryResponseIsCoherent(w: Worker, ls: seq<Label>)
    requires Consistent(w) && forall i :: 0 <= i < |w.calls| ==> Answers(w.calls[i])
    ensures forall i :: 0 <= i < |Run(w, ls).calls| ==> Answers(Run(w, ls).calls[i])
    decreases ls
  {
    if ls != [] {
      var n := Next(w, ls[0]);
      NextIsConsistent(w, ls[0]);
      forall i | 0 <= i < |n.calls| ensures Answers(n.calls[i]) {
        if i < |w.calls| {
          EffectAnswers(w.calls[i], ls[0]);
          LabelsTouchOnlyTheirTarget(w, ls[0], i);
        }
      }
      EveryResponseIsCoherent(n, ls[1..]);
    }
  }

  // ---------------------------------------------------------------- approval gate

  /** What the gate promises of one call. */
  predicate Gated(c: Call) {
    && (c.task.allowDangerous ==> c.task.requireApproval && c.started)
    && (c.started && c.task.requireApproval ==> c.woke.Some? && c.woke.value.approved)
    && (c.phase.InStrategy? || c.phase.EmittingFailure? ==> c.started)
    && (c.phase.EmittingPause? || c.phase.AwaitingDecision? ==> c.task.requireApproval)
    && (c.phase in {Dormant, Starting, EmittingPause, AwaitingDecision} ==> !c.started && c.woke.None?)
  }

  lemma EffectIsGated(c: Call, l: Label)
    requires Gated(c)
    ensures Gated(Effect(c, l))
  {
    if l.Step? && Enabled(c, l.s) { AdvanceIsGated(c, l.s); }
  }

  lemma AdvanceIsGated(c: Call, s: CallStep)
    requires Enabled(c, s) && Gated(c)
    ensures Gated(Advance(c, s))
  {
  }

  /** Decision d was recorded on call i by some label of the run. */
  predicate DecidedDuring(w: Worker, ls: seq<Label>, i: nat, d: Decision)
    decreases ls
  {
    ls != []
    && i < |w.calls|
    && ((ls[0].Approve? && ls[0].d == d && Target(w, ls[0]) == Some(i) && Applies(w.calls[i].task, d))
        || DecidedDuring(Next(w, ls[0]), ls[1..], i, d))
  }

  /** What call i knows of decisions: the one on record and the one its waiter found. */
  predicate Knows(c: Call, d: Decision) { c.task.approval == Some(d) || c.woke == Some(d) }

  lemma KnownAfterEffect(w: Worker, l: Label, i: nat, d: Decision)
    requires Consistent(w) && i < |w.calls| && Knows(Next(w, l).calls[i], d)
    ensures Knows(w.calls[i], d)
         || (l.Approve? && l.d == d && Target(w, l) == Some(i) && Applies(w.calls[i].task, d))
  {
    LabelsTouchOnlyTheirTarget(w, l, i);
    if l.Step? && l.i == i && Enabled(w.calls[i], l.s) { KnownAfterAdvance(w.calls[i], l.s, d); }
  }

  lemma KnownAfterAdvance(c: Call, s: CallStep, d: Decision)
    requires Enabled(c, s) && Knows(Advance(c, s), d)
    ensures Knows(c, d)
  {
    match s
    case Begin(_) =>
    case DecisionWakes =>
    case ToolWakes =>
    case Returned(_, _) =>
    case FailureEmitted =>
    case _ =>
  }

  lemma {:induction false} KnownDecisionsWereRecorded(w: Worker, ls: seq<Label>, i: nat, d: Decision)
    requires Consistent(w) && i < |w.calls| && !Knows(w.calls[i], d)
    requires i < |Run(w, ls).calls| && Knows(Run(w, ls).calls[i], d)
    ensures DecidedDuring(w, ls, i, d)
    decreases ls
  {
    if ls != [] {
      NextIsConsistent(w, ls[0]);
      if Knows(Next(w, ls[0]).calls[i], d) {
        KnownAfterEffect(w, ls[0], i, d);
      } else {
        KnownDecisionsWereRecorded(Next(w, ls[0]), ls[1..], i, d);
      }
    }
  }

  lemma {:induction false} GatedRun(w: Worker, ls: seq<Label>, i: nat)
    requires Consistent(w) && i < |w.calls| && Gated(w.calls[i])
    ensures i < |Run(w, ls).calls| && Gated(Run(w, ls).calls[i])
    decreases ls
  {
    if ls != [] {
      NextIsConsistent(w, ls[0]);
      EffectIsGated(w.calls[i], ls[0]);
      LabelsTouchOnlyTheirTarget(w, ls[0], i);
      GatedRun(Next(w, ls[0]), ls[1..], i);
    }
  }

  /** Approval gate: a call that needs approval enters its strategy, and has dangerous tools
      allowed, only after its waiter woke to a decision that approves and that some request
      recorded on this very call. A call that needs none never has them allowed. */
  lemma StrategyRunsOnlyApproved(w: Worker, start: Label, ls: seq<Label>)
    requires Consistent(w) && start.Start?
    ensures |w.calls| < |Run(Next(w, start), ls).calls|
    ensures var c := Run(Next(w, start), ls).calls[|w.calls|];
            && (c.task.allowDangerous ==> c.task.requireApproval && c.started)
            && (c.started && c.task.requireApproval ==>
                  && c.woke.Some? && c.woke.value.approved
                  && DecidedDuring(Next(w, start), ls, |w.calls|, c.woke.value))
  {
    NextIsConsistent(w, start);
    var n, i := Next(w, start), |w.calls|;
    GatedRun(n, ls, i);
    var c := Run(n, ls).calls[i];
    if c.woke.Some? { KnownDecisionsWereRecorded(n, ls, i, c.woke.value); }
  }
}
