/** Exactly when the status on record of a call that reached a terminal status stays. */
module ServicerStatus {
  import opened Text
  import opened Runtime
  import opened Servicer
  import opened ServicerTheorems

  predicate Terminal(s: Status) { s in {Completed, Failed, Cancelled, TimedOut} }

  /** A decision that rejects the request the task waits for, or any task that waits for none. */
  predicate Rejects(c: Call, l: Label) { l.Approve? && Applies(c.task, l.d) && !l.d.approved }

  /** The labels that overwrite a terminal status, by step and guard. Cancel requests and approvals
      never do. */
  predicate Overwrites(c: Call, l: Label) {
    var was := c.task.status;
    match l
    case Approve(_, _, _) => Rejects(c, l) && was != Cancelled
    case Step(_, s) =>
      Enabled(c, s) &&
      (match s
       case Begin(known) => if known then c.task.requireApproval else was != Failed
       case DecisionWakes => ApprovedDecision(c.task) || was != Cancelled
       case ApprovalTimesOut => was != TimedOut
       case ToolAsks(_) => true
       case ToolWakes => GoesOn(c.task)
       case Returned(_, _) => if c.task.cancelEvent then was != Cancelled else was != Completed
       case Interrupted => was != Cancelled
       case RaisedBudget(_, _) => was != Failed
       case Raised(_) => was != Failed
       case _ => false)
    case _ => false
  }

  /** One label, live or answered call: a terminal status stays exactly when the label does not
      overwrite it. */
  lemma TerminalStaysExactlyWhen(c: Call, l: Label)
    requires Terminal(c.task.status)
    ensures Effect(c, l).task.status == c.task.status <==> !Overwrites(c, l)
  {
    if l.Step? && Enabled(c, l.s) {
      if EndsStrategy(l.s) { EndStaysExactlyWhen(c, l); } else { StepStaysExactlyWhen(c, l); }
    }
  }

  /** The steps with which `strategy.run` ends. */
  predicate EndsStrategy(s: CallStep) { s.Returned? || s.Interrupted? || s.RaisedBudget? || s.Raised? }

  lemma EndStaysExactlyWhen(c: Call, l: Label)
    requires Terminal(c.task.status) && l.Step? && Enabled(c, l.s) && EndsStrategy(l.s)
    ensures Advance(c, l.s).task.status == c.task.status <==> !Overwrites(c, l)
  {
    match l.s
    case Returned(_, _) =>
    case Interrupted =>
    case RaisedBudget(_, _) =>
    case Raised(_) =>
  }

  lemma StepStaysExactlyWhen(c: Call, l: Label)
    requires Terminal(c.task.status) && l.Step? && Enabled(c, l.s) && !EndsStrategy(l.s)
    ensures Advance(c, l.s).task.status == c.task.status <==> !Overwrites(c, l)
  {
    match l.s
    case Begin(_) =>
    case DecisionWakes =>
    case ApprovalTimesOut =>
    case ToolAsks(_) =>
    case ToolWakes =>
    case _ =>
  }

  // ---------------------------------------------------------------- runs

  /** The status of call i is the same after every label of the run. */
  predicate StatusStays(w: Worker, ls: seq<Label>, i: nat)
    requires Consistent(w) && i < |w.calls|
    decreases ls
  {
    ls == [] ||
      (NextIsConsistent(w, ls[0]);
       Next(w, ls[0]).calls[i].task.status == w.calls[i].task.status && StatusStays(Next(w, ls[0]), ls[1..], i))
  }

  /** Some label of the run reaches call i and overwrites its status. */
  predicate OverwrittenDuring(w: Worker, ls: seq<Label>, i: nat)
    requires Consistent(w) && i < |w.calls|
    decreases ls
  {
    ls != [] &&
      ((Target(w, ls[0]) == Some(i) && Overwrites(w.calls[i], ls[0]))
       || (NextIsConsistent(w, ls[0]); OverwrittenDuring(Next(w, ls[0]), ls[1..], i)))
  }

  /** Over a whole run a terminal status stays exactly when no label overwrites it. */
  lemma {:induction false} StatusStaysExactlyWhen(w: Worker, ls: seq<Label>, i: nat)
    requires Consistent(w) && i < |w.calls| && Terminal(w.calls[i].task.status)
    ensures StatusStays(w, ls, i) <==> !OverwrittenDuring(w, ls, i)
    decreases ls
  {
    if ls != [] {
      var n := Next(w, ls[0]);
      NextIsConsistent(w, ls[0]);
      LabelsTouchOnlyTheirTarget(w, ls[0], i);
      TerminalStaysExactlyWhen(w.calls[i], ls[0]);
      if n.calls[i].task.status == w.calls[i].task.status { StatusStaysExactlyWhen(n, ls[1..], i); }
    }
  }

  // ---------------------------------------------------------------- live calls

  /** The terminal statuses of a live call: cancelled with its event set, or failed while the failure
      is being emitted. */
  predicate LiveStatus(c: Call) {
    Live(c) ==>
      && (c.task.status == Cancelled ==> c.task.cancelEvent)
      && (Terminal(c.task.status) ==> c.task.status == Cancelled || (c.task.status == Failed && c.phase.EmittingFailure?))
  }

  lemma EffectKeepsLiveStatus(c: Call, l: Label)
    requires LiveStatus(c)
    ensures LiveStatus(Effect(c, l))
  {
    if l.Step? && Enabled(c, l.s) { AdvanceKeepsLiveStatus(c, l.s); }
  }

  lemma AdvanceKeepsLiveStatus(c: Call, s: CallStep)
    requires Enabled(c, s) && LiveStatus(c)
    ensures LiveStatus(Advance(c, s))
  {
  }

  /** In every run, from the idle worker in particular. */
  lemma {:induction false} LiveStatusRun(w: Worker, ls: seq<Label>)
    requires Consistent(w) && forall i :: 0 <= i < |w.calls| ==> LiveStatus(w.calls[i])
    ensures forall i :: 0 <= i < |Run(w, ls).calls| ==> LiveStatus(Run(w, ls).calls[i])
    decreases ls
  {
    if ls != [] {
      var n := Next(w, ls[0]);
      NextIsConsistent(w, ls[0]);
      forall i | 0 <= i < |n.calls| ensures LiveStatus(n.calls[i]) {
        if i < |w.calls| {
          EffectKeepsLiveStatus(w.calls[i], ls[0]);
          LabelsTouchOnlyTheirTarget(w, ls[0], i);
        }
      }
      LiveStatusRun(n, ls[1..]);
    }
  }

  /** The steps after which a cancelled call that has not answered no longer reads cancelled. */
  predicate Revives(c: Call, s: CallStep) {
    Enabled(c, s) &&
    match s
    case Begin(known) => !known || c.task.requireApproval
    case DecisionWakes => ApprovedDecision(c.task)
    case ToolWakes => GoesOn(c.task)
    case ApprovalTimesOut => true
    case ToolAsks(_) => true
    case RaisedBudget(_, _) => true
    case Raised(_) => true
    case _ => false
  }

  /** A live call of any run that reads cancelled goes on doing so exactly until a reviving step. */
  lemma CancelledStaysExactlyWhen(before: seq<Label>, i: nat, l: Label)
    requires i < |Run(IDLE_WORKER, before).calls|
    requires Live(Run(IDLE_WORKER, before).calls[i]) && Run(IDLE_WORKER, before).calls[i].task.status == Cancelled
    ensures var c := Run(IDLE_WORKER, before).calls[i];
            Effect(c, l).task.status == Cancelled <==> !(l.Step? && Revives(c, l.s))
  {
    LiveStatusRun(IDLE_WORKER, before);
    TerminalStaysExactlyWhen(Run(IDLE_WORKER, before).calls[i], l);
  }

  // ---------------------------------------------------------------- answered calls

  /** The status of an answered call after a label: requests still reach it, and the sub-tasks that an
      uncompleted strategy left behind still ask for approval and go on with it. */
  function AnsweredStatus(c: Call, l: Label): Status {
    var was := c.task.status;
    match l
    case Cancel(_, _, _) => if Terminal(was) then was else Cancelled
    case Approve(_, _, d) =>
      if !Applies(c.task, d) then was
      else if !d.approved then Cancelled
      else if was == WaitingApproval then Running
      else was
    case Step(_, s) =>
      if s.ToolAsks? && Background(c) then WaitingApproval
      else if s.ToolWakes? && Background(c) && c.task.approvalEvent && GoesOn(c.task) then Running
      else was
    case _ => was
  }

  lemma AnsweredStep(c: Call, l: Label)
    requires c.phase.Responded?
    ensures Effect(c, l).phase == c.phase && Effect(c, l).started == c.started
    ensures Effect(c, l).task.status == AnsweredStatus(c, l)
  {
  }

  /** The status of call i after the run, if it has answered: the labels that reach it, one after the
      other. */
  predicate FollowsAnswered(w: Worker, ls: seq<Label>, i: nat)
    requires Consistent(w) && i < |w.calls|
    decreases ls
  {
    ls == [] ||
      (NextIsConsistent(w, ls[0]);
       && Next(w, ls[0]).calls[i].phase == w.calls[i].phase
       && Next(w, ls[0]).calls[i].task.status
          == (if Target(w, ls[0]) == Some(i) then AnsweredStatus(w.calls[i], ls[0]) else w.calls[i].task.status)
       && FollowsAnswered(Next(w, ls[0]), ls[1..], i))
  }

  /** A call that has answered keeps its response for good, whatever becomes of its status. */
  lemma {:induction false} AnsweredCallsFollow(w: Worker, ls: seq<Label>, i: nat)
    requires Consistent(w) && i < |w.calls| && w.calls[i].phase.Responded?
    ensures FollowsAnswered(w, ls, i)
    decreases ls
  {
    if ls != [] {
      NextIsConsistent(w, ls[0]);
      LabelsTouchOnlyTheirTarget(w, ls[0], i);
      AnsweredStep(w.calls[i], ls[0]);
      AnsweredCallsFollow(Next(w, ls[0]), ls[1..], i);
    }
  }

  /** What can still overwrite a terminal status once the call has answered. */
  lemma AnsweredIsOverwrittenExactlyWhen(c: Call, l: Label)
    requires c.phase.Responded? && Terminal(c.task.status)
    ensures Overwrites(c, l)
       <==> (Rejects(c, l) && c.task.status != Cancelled)
            || (l.Step? && Background(c)
                && (l.s.ToolAsks? || (l.s.ToolWakes? && c.task.approvalEvent && GoesOn(c.task))))
  {
  }

  /** Some decision of the run that reaches call i rejects it. */
  predicate RejectedDuring(w: Worker, ls: seq<Label>, i: nat)
    requires Consistent(w) && i < |w.calls|
    decreases ls
  {
    ls != [] &&
      ((Target(w, ls[0]) == Some(i) && Rejects(w.calls[i], ls[0]))
       || (NextIsConsistent(w, ls[0]); RejectedDuring(Next(w, ls[0]), ls[1..], i)))
  }

  /** The answer has left no sub-task behind: the strategy completed, or was never entered. */
  predicate AllDone(c: Call) { c.phase.Responded? && !Background(c) }

  /** Then the status on record changes at most once, to cancelled, and exactly when a rejection
      reaches the call. */
  lemma {:induction false} AnsweredStatusAfter(w: Worker, ls: seq<Label>, i: nat)
    requires Consistent(w) && i < |w.calls| && AllDone(w.calls[i]) && Terminal(w.calls[i].task.status)
    ensures i < |Run(w, ls).calls| && Run(w, ls).calls[i].phase == w.calls[i].phase
    ensures Run(w, ls).calls[i].task.status == if RejectedDuring(w, ls, i) then Cancelled else w.calls[i].task.status
    decreases ls
  {
    if ls != [] {
      NextIsConsistent(w, ls[0]);
      LabelsTouchOnlyTheirTarget(w, ls[0], i);
      AnsweredStep(w.calls[i], ls[0]);
      AnsweredStatusAfter(Next(w, ls[0]), ls[1..], i);
    }
  }

  /** Both directions, over runs. */
  lemma AnsweredStatusStaysExactlyWhen(w: Worker, ls: seq<Label>, i: nat)
    requires Consistent(w) && i < |w.calls| && AllDone(w.calls[i]) && Terminal(w.calls[i].task.status)
    ensures i < |Run(w, ls).calls|
    ensures Run(w, ls).calls[i].task.status == w.calls[i].task.status
       <==> w.calls[i].task.status == Cancelled || !RejectedDuring(w, ls, i)
  {
    AnsweredStatusAfter(w, ls, i);
  }

  // ---------------------------------------------------------------- witnesses

  /** The only call of a worker, registered under its workflow id. */
  function Alone(wf: string, c: Call): Worker { Worker([c], map[wf := 0]) }

  function Started(wf: string, strategy: string, needsApproval: bool): Call {
    Call(NewTask(wf, wf, strategy, needsApproval, 0, Running), Starting, None, false)
  }

  /** The label is a step of that call, or a request by its workflow id. */
  predicate Reaches(l: Label, wf: string) {
    match l
    case Step(i, _) => i == 0
    case Cancel(w, _, _) => w == wf
    case Approve(w, _, _) => w == wf
    case _ => false
  }

  function EffectAll(c: Call, ls: seq<Label>): Call
    decreases ls
  {
    if ls == [] then c else EffectAll(Effect(c, ls[0]), ls[1..])
  }

  lemma {:induction false} RunAlone(wf: string, c: Call, ls: seq<Label>)
    requires wf != "" && forall l <- ls :: Reaches(l, wf)
    ensures Run(Alone(wf, c), ls) == Alone(wf, EffectAll(c, ls))
    decreases ls
  {
    if ls != [] {
      assert ls[0] in ls && forall l <- ls[1..] :: l in ls;
      assert [c][0 := Effect(c, ls[0])] == [Effect(c, ls[0])];
      assert Next(Alone(wf, c), ls[0]) == Alone(wf, Effect(c, ls[0]));
      RunAlone(wf, Effect(c, ls[0]), ls[1..]);
    }
  }

  lemma RunOfOne(wf: string, strategy: string, needsApproval: bool, ls: seq<Label>)
    requires wf != "" && forall l <- ls :: Reaches(l, wf)
    ensures Run(IDLE_WORKER, [Start(wf, "", strategy, needsApproval, 0)] + ls)
         == Alone(wf, EffectAll(Started(wf, strategy, needsApproval), ls))
  {
    var start := Start(wf, "", strategy, needsApproval, 0);
    assert ([start] + ls)[1..] == ls;
    assert Next(IDLE_WORKER, start) == Alone(wf, Started(wf, strategy, needsApproval));
    RunAlone(wf, Started(wf, strategy, needsApproval), ls);
  }

  lemma EffectCons(c: Call, l: Label, ls: seq<Label>)
    ensures EffectAll(c, [l] + ls) == EffectAll(Effect(c, l), ls)
  {
    assert ([l] + ls)[1..] == ls;
  }

  lemma EffectOfTwo(c: Call, a: Label, b: Label)
    ensures EffectAll(c, [a, b]) == Effect(Effect(c, a), b)
  {
    EffectCons(c, a, [b]);
    EffectCons(Effect(c, a), b, []);
    assert [a, b] == [a] + [b] && [b] == [b] + [];
  }

  lemma {:induction false} EffectConcat(c: Call, a: seq<Label>, b: seq<Label>)
    ensures EffectAll(c, a + b) == EffectAll(EffectAll(c, a), b)
    decreases a
  {
    if a == [] {
      assert a + b == b;
    } else {
      assert (a + b)[1..] == a[1..] + b;
      EffectConcat(Effect(c, a[0]), a[1..], b);
    }
  }

  /** A sub-task waits for a tool approval when the call is cancelled and a sibling raises. */
  function CancelledWhileAsking(wf: string, id: string): seq<Label> {
    [Step(0, Begin(true)), Step(0, ToolAsks(id))] + [Cancel(wf, "", ""), Step(0, Interrupted)]
  }

  predicate AnsweredWhileAsking(c: Call, id: string) {
    && c.phase.Responded? && !c.phase.response.ok && c.phase.response.taskStatus == Cancelled
    && c.started && c.task.status == Cancelled && c.task.approvalRequest == Some(id)
  }

  lemma AnswersWhileAsking(wf: string, id: string)
    ensures AnsweredWhileAsking(EffectAll(Started(wf, "dag", false), CancelledWhileAsking(wf, id)), id)
  {
    var c := Started(wf, "dag", false);
    var asking := Effect(Effect(c, Step(0, Begin(true))), Step(0, ToolAsks(id)));
    EffectOfTwo(c, Step(0, Begin(true)), Step(0, ToolAsks(id)));
    EffectConcat(c, [Step(0, Begin(true)), Step(0, ToolAsks(id))], [Cancel(wf, "", ""), Step(0, Interrupted)]);
    EffectOfTwo(asking, Cancel(wf, "", ""), Step(0, Interrupted));
  }

  lemma WakesAfterAnswer(c: Call, wf: string, id: string, d: Decision)
    requires AnsweredWhileAsking(c, id) && d.approved && (d.approvalId == "" || d.approvalId == id)
    ensures var after := EffectAll(c, [Approve(wf, "", d), Step(0, ToolWakes)]);
            after.phase == c.phase && after.task.status == Running
  {
    EffectOfTwo(c, Approve(wf, "", d), Step(0, ToolWakes));
  }

  /** An approval after the answer wakes that sub-task, and the answered, cancelled call reads running. */
  lemma SubtaskRevivesAnsweredCall(wf: string, id: string, d: Decision)
    requires wf != "" && d.approved && (d.approvalId == "" || d.approvalId == id)
    ensures var start, answered := Start(wf, "", "dag", false, 0), CancelledWhileAsking(wf, id);
            var before := Run(IDLE_WORKER, [start] + answered);
            var after := Run(IDLE_WORKER, [start] + (answered + [Approve(wf, "", d), Step(0, ToolWakes)]));
            && |before.calls| == |after.calls| == 1 && AnsweredWhileAsking(before.calls[0], id)
            && after.calls[0].phase == before.calls[0].phase && after.calls[0].task.status == Running
  {
    var answered, woken := CancelledWhileAsking(wf, id), [Approve(wf, "", d), Step(0, ToolWakes)];
    var c := Started(wf, "dag", false);
    RunOfOne(wf, "dag", false, answered);
    RunOfOne(wf, "dag", false, answered + woken);
    EffectConcat(c, answered, woken);
    AnswersWhileAsking(wf, id);
    WakesAfterAnswer(EffectAll(c, answered), wf, id, d);
  }

  /** A waiter that is cancelled and then approved. */
  function CancelledThenApproved(wf: string, d: Decision): seq<Label> {
    [Step(0, Begin(true)), Step(0, PauseEmitted)] + ([Cancel(wf, "", ""), Approve(wf, "", d)] + [Step(0, DecisionWakes)])
  }

  /** It wakes up running: its status has forgotten the cancel, and only the cancel event keeps the
      call from completing. */
  lemma CancelledWaiterRunsAgain(wf: string, d: Decision)
    requires wf != "" && d.approved
    ensures var w := Run(IDLE_WORKER, [Start(wf, "", "dag", true, 0)] + CancelledThenApproved(wf, d));
            && |w.calls| == 1 && w.calls[0].phase.InStrategy?
            && w.calls[0].task.status == Running && w.calls[0].task.cancelEvent
  {
    var c := Started(wf, "dag", true);
    var paused := Effect(Effect(c, Step(0, Begin(true))), Step(0, PauseEmitted));
    var hit := [Cancel(wf, "", ""), Approve(wf, "", d)];
    RunOfOne(wf, "dag", true, CancelledThenApproved(wf, d));
    EffectOfTwo(c, Step(0, Begin(true)), Step(0, PauseEmitted));
    EffectConcat(c, [Step(0, Begin(true)), Step(0, PauseEmitted)], hit + [Step(0, DecisionWakes)]);
    assert paused.phase.AwaitingDecision? && paused.task.approvalRequest.None?;
    ApprovedWaiterWakes(paused, wf, d);
  }

  lemma ApprovedWaiterWakes(c: Call, wf: string, d: Decision)
    requires c.phase.AwaitingDecision? && c.task.approvalRequest.None? && d.approved
    ensures var woken := EffectAll(c, [Cancel(wf, "", ""), Approve(wf, "", d)] + [Step(0, DecisionWakes)]);
            woken.phase.InStrategy? && woken.task.status == Running && woken.task.cancelEvent
  {
    EffectConcat(c, [Cancel(wf, "", ""), Approve(wf, "", d)], [Step(0, DecisionWakes)]);
    EffectOfTwo(c, Cancel(wf, "", ""), Approve(wf, "", d));
    var decided := Effect(Effect(c, Cancel(wf, "", "")), Approve(wf, "", d));
    assert decided.phase == c.phase && decided.task.cancelEvent;
    assert decided.task.approvalEvent && decided.task.approval == Some(d);
    EffectCons(decided, Step(0, DecisionWakes), []);
    assert [Step(0, DecisionWakes)] + [] == [Step(0, DecisionWakes)];
  }

  /** A rejection that reaches a completed call overwrites the status on record, not the response
      that was returned. */
  lemma LateRejectionOverwritesCompleted(wf: string, content: string, d: Decision)
    requires wf != "" && !d.approved
    ensures var ls := [Step(0, Begin(true)), Step(0, Returned(content, 0))] + [Approve(wf, "", d)];
            var w := Run(IDLE_WORKER, [Start(wf, "", "dag", false, 0)] + ls);
            && |w.calls| == 1 && w.calls[0].phase.Responded? && w.calls[0].phase.response.ok
            && w.calls[0].phase.response.result == content && w.calls[0].task.status == Cancelled
  {
    var c := Started(wf, "dag", false);
    var done := Effect(Effect(c, Step(0, Begin(true))), Step(0, Returned(content, 0)));
    RunOfOne(wf, "dag", false, [Step(0, Begin(true)), Step(0, Returned(content, 0))] + [Approve(wf, "", d)]);
    EffectConcat(c, [Step(0, Begin(true)), Step(0, Returned(content, 0))], [Approve(wf, "", d)]);
    EffectOfTwo(c, Step(0, Begin(true)), Step(0, Returned(content, 0)));
    EffectCons(done, Approve(wf, "", d), []);
    assert [Approve(wf, "", d)] + [] == [Approve(wf, "", d)];
  }
}
