/** python/langgraph-worker/puerflow_worker/runtime.py and budget.py: the state of a task, the
    registry that finds it, and the token budget. */
module Runtime {
  import opened Text

  // ---------------------------------------------------------------- data

  datatype Status = Queued | Running | WaitingApproval | Completed | Failed | Cancelled | TimedOut

  datatype ErrorCode =
    | Unspecified | OkCode | InvalidArgument | NotFound | CancelledCode | TimeoutCode | BudgetExceeded
    | ApprovalRequired | StrategyFailed | SandboxFailed | Unavailable | Failover

  datatype Decision = Decision(approvalId: string, approved: bool, comment: string)

  /** The fields of a task. `approvalRequest` is the binding id of a pending tool request. */
  datatype Task = Task(
    workflowId: string,
    taskId: string,
    strategy: string,
    requireApproval: bool,
    tokenBudget: int,
    status: Status,
    errorCode: ErrorCode,
    errorMessage: string,
    result: string,
    tokensUsed: int,
    approval: Option<Decision>,
    approvalRequest: Option<string>,
    cancelEvent: bool,
    approvalEvent: bool,
    allowDangerous: bool)

  function NewTask(workflowId: string, taskId: string, strategy: string, requireApproval: bool,
                   tokenBudget: int, status: Status): Task
  {
    Task(workflowId, taskId, strategy, requireApproval, tokenBudget, status, OkCode, "", "", 0,
         None, None, false, false, false)
  }

  // ---------------------------------------------------------------- effects on one task

  function OrElse(s: string, default: string): string { if s != "" then s else default }

  /** A cancel request: the event is always set, the status only while the task is live. */
  function CancelRequested(t: Task, reason: string): Task {
    var t := t.(cancelEvent := true);
    if t.status in {Queued, Running, WaitingApproval} then
      t.(status := Cancelled, errorMessage := OrElse(reason, "cancelled"), errorCode := CancelledCode)
    else t
  }

  /** The binding id a decision has to name, empty when no tool request is pending. */
  function ExpectedId(t: Task): string { if t.approvalRequest.Some? then t.approvalRequest.value else "" }

  predicate Applies(t: Task, d: Decision) {
    ExpectedId(t) == "" || d.approvalId == "" || d.approvalId == ExpectedId(t)
  }

  function Decided(t: Task, d: Decision): Task {
    if !Applies(t, d) then t
    else
      var t := t.(approval := Some(d), approvalEvent := true);
      if d.approved && t.status == WaitingApproval then t.(status := Running)
      else if !d.approved then t.(status := Cancelled, errorCode := CancelledCode, cancelEvent := true)
      else t
  }

  // ---------------------------------------------------------------- registry

  function Key(workflowId: string, taskId: string): string { OrElse(workflowId, taskId) }

  /** The key under which `get` finds a task. */
  function FindKey(keys: set<string>, workflowId: string, taskId: string): Option<string> {
    if Key(workflowId, taskId) in keys then Some(Key(workflowId, taskId))
    else if taskId != "" && taskId in keys then Some(taskId)
    else None
  }

  /** Which requests reach a task registered under `key`: those whose own key is `key`, and those
      whose own key is unknown and whose task id is `key`. */
  lemma FindsExactly(keys: set<string>, key: string, workflowId: string, taskId: string)
    ensures FindKey(keys, workflowId, taskId) == Some(key)
       <==> key in keys
            && (Key(workflowId, taskId) == key
                || (workflowId != "" && workflowId !in keys && taskId != "" && taskId == key))
  {
  }

  /** A task with a workflow id of its own cannot be reached by its task id alone. */
  lemma TaskIdAloneMisses(keys: set<string>, t: Task)
    requires t.workflowId != "" && t.taskId !in keys && t.taskId != ""
    ensures FindKey(keys + {Key(t.workflowId, t.taskId)}, "", t.taskId)
         == if t.taskId == t.workflowId then Some(t.workflowId) else None
  {
  }

  // ---------------------------------------------------------------- objects

  /** A task as the worker updates it. */
  class TaskState {
    const workflowId: string
    const taskId: string
    const strategy: string
    const requireApproval: bool
    const tokenBudget: int
    var status: Status
    var errorCode: ErrorCode
    var errorMessage: string
    var result: string
    var tokensUsed: int
    var approval: Option<Decision>
    var approvalRequest: Option<string>
    var cancelEvent: bool
    var approvalEvent: bool
    var allowDangerous: bool

    function View(): Task
      reads this
    {
      Task(workflowId, taskId, strategy, requireApproval, tokenBudget, status, errorCode, errorMessage,
           result, tokensUsed, approval, approvalRequest, cancelEvent, approvalEvent, allowDangerous)
    }

    constructor (workflowId: string, taskId: string, strategy: string, requireApproval: bool,
                 tokenBudget: int, status: Status)
      ensures View() == NewTask(workflowId, taskId, strategy, requireApproval, tokenBudget, status)
    {
      this.workflowId, this.taskId, this.strategy := workflowId, taskId, strategy;
      this.requireApproval, this.tokenBudget, this.status := requireApproval, tokenBudget, status;
      errorCode, errorMessage, result, tokensUsed := OkCode, "", "", 0;
      approval, approvalRequest := None, None;
      cancelEvent, approvalEvent, allowDangerous := false, false, false;
    }

    method RequestCancel(reason: string)
      modifies this
      ensures View() == CancelRequested(old(View()), reason)
    {
      cancelEvent := true;
      if status in {Queued, Running, WaitingApproval} {
        status := Cancelled;
        errorMessage := if reason != "" then reason else "cancelled";
        errorCode := CancelledCode;
      }
    }

    method RecordDecision(d: Decision) returns (applied: bool)
      modifies this
      ensures applied == Applies(old(View()), d)
      ensures View() == Decided(old(View()), d)
    {
      var expected := if approvalRequest.Some? then approvalRequest.value else "";
      if expected != "" && d.approvalId != "" && d.approvalId != expected {
        return false;
      }
      approval := Some(d);
      approvalEvent := true;
      if d.approved && status == WaitingApproval {
        status := Running;
      } else if !d.approved {
        status := Cancelled;
        errorCode := CancelledCode;
        cancelEvent := true;
      }
      return true;
    }

    /** Adds a charge; the result says whether the call raises. */
    method AddTokens(used: nat) returns (raises: bool)
      modifies this`tokensUsed
      ensures tokensUsed == old(tokensUsed) + used
      ensures raises == OverBudget(tokenBudget, tokensUsed)
    {
      if used != 0 {
        tokensUsed := tokensUsed + used;
      }
      raises := OverBudget(tokenBudget, tokensUsed);
    }
  }

  class TaskRegistry {
    var tasks: map<string, TaskState>

    constructor ()
      ensures tasks == map[]
    {
      tasks := map[];
    }

    method Create(state: TaskState)
      modifies this
      ensures tasks == old(tasks)[Key(state.workflowId, state.taskId) := state]
    {
      tasks := tasks[Key(state.workflowId, state.taskId) := state];
    }

    method Get(workflowId: string, taskId: string) returns (found: Option<TaskState>)
      ensures var k := FindKey(tasks.Keys, workflowId, taskId);
              found == if k.Some? then Some(tasks[k.value]) else None
    {
      var key := Key(workflowId, taskId);
      if key in tasks {
        return Some(tasks[key]);
      }
      if taskId != "" && taskId in tasks {
        return Some(tasks[taskId]);
      }
      return None;
    }

    /** Cancels the task the request reaches, and no other. */
    method RequestCancel(workflowId: string, taskId: string, reason: string) returns (found: Option<TaskState>)
      modifies tasks.Values
      ensures tasks == old(tasks)
      ensures var k := FindKey(tasks.Keys, workflowId, taskId);
              && found == (if k.Some? then Some(tasks[k.value]) else None)
              && (forall s <- tasks.Values ::
                    s.View() == if found == Some(s) then CancelRequested(old(s.View()), reason) else old(s.View()))
    {
      found := Get(workflowId, taskId);
      if found.Some? {
        assert FindKey(tasks.Keys, workflowId, taskId).value in tasks.Keys;
        found.value.RequestCancel(reason);
      }
    }
  }

  // ---------------------------------------------------------------- budget

  predicate OverBudget(budget: int, used: int) { budget != 0 && used >= budget }

  /** `int(budget * 0.8)` for a non-negative budget. */
  function NearLimit(budget: nat): nat { 4 * budget / 5 }

  datatype Tier = Small | Medium | Large

  /** The tier a call may use; `requested` is None for an unknown or empty name. */
  function DegradeTier(requested: Option<Tier>, budget: nat, used: nat): Tier {
    var current := if requested.Some? then requested.value else Small;
    if budget == 0 then current
    else if used >= NearLimit(budget) then (if current == Large then Medium else Small)
    else current
  }

  datatype Report = Report(exceeded: bool, nearLimit: bool, hardStop: bool, degrade: bool)

  function BudgetReport(budget: nat, used: nat): Report {
    var exceeded := OverBudget(budget, used);
    var near := budget != 0 && used >= NearLimit(budget);
    Report(exceeded, near, exceeded, near && !exceeded)
  }

  /** Usage after the charges of a run that stops at the first one that exhausts the budget. */
  function Charge(budget: nat, used: nat, charges: seq<nat>): (r: (nat, nat))
    ensures r.1 <= |charges|
    decreases charges
  {
    if charges == [] then (used, 0)
    else if OverBudget(budget, used + charges[0]) then (used + charges[0], 1)
    else var r := Charge(budget, used + charges[0], charges[1..]); (r.0, r.1 + 1)
  }

  function Sum(charges: seq<nat>): nat { if charges == [] then 0 else charges[0] + Sum(charges[1..]) }

  /** Along any run below its budget: usage is the sum of the charges made; it stays below the
      budget until a charge is refused; the refused charge alone carries it past the budget. */
  lemma {:induction false} ChargesStayWithinOneCall(budget: nat, used: nat, charges: seq<nat>)
    requires 0 < budget && used < budget
    ensures var r := Charge(budget, used, charges);
            && r.0 == used + Sum(charges[..r.1])
            && (forall k :: 0 <= k < r.1 ==> used + Sum(charges[..k]) < budget)
            && (r.0 < budget ==> r.1 == |charges|)
            && (r.0 >= budget ==> r.1 > 0 && r.0 - budget < charges[r.1 - 1])
    decreases charges
  {
    if charges != [] && !OverBudget(budget, used + charges[0]) {
      ChargesStayWithinOneCall(budget, used + charges[0], charges[1..]);
      var r := Charge(budget, used, charges);
      forall k | 1 <= k <= r.1 ensures Sum(charges[..k]) == charges[0] + Sum(charges[1..][..k - 1]) {
        assert charges[..k][1..] == charges[1..][..k - 1];
      }
      forall k | 0 <= k < r.1 ensures used + Sum(charges[..k]) < budget {
        if k > 0 { assert used + charges[0] + Sum(charges[1..][..k - 1]) < budget; }
      }
    } else if charges != [] {
      assert charges[..1][1..] == [];
    }
  }

  /** A tier is lowered exactly when at least four fifths of a budget, rounded down, are used; then by one,
      and the smallest stays. An unknown name counts as the smallest. */
  lemma TierIs(requested: Option<Tier>, budget: nat, used: nat)
    ensures var near := budget > 0 && 5 * used + 4 >= 4 * budget;
            DegradeTier(requested, budget, used) ==
              match requested
              case None => Small
              case Some(Small) => Small
              case Some(Medium) => if near then Small else Medium
              case Some(Large) => if near then Medium else Large
  {
    assert used >= 4 * budget / 5 <==> 5 * used + 4 >= 4 * budget;
  }

  /** The report agrees with the tier choice, and never asks for both remedies. */
  lemma ReportAgreesWithTiers(budget: nat, used: nat)
    ensures var r := BudgetReport(budget, used);
            && !(r.hardStop && r.degrade)
            && (r.nearLimit <==> DegradeTier(Some(Large), budget, used) != Large)
            && (r.exceeded ==> r.nearLimit)
            && (r.degrade <==> 0 < budget && NearLimit(budget) <= used < budget)
  {
    if budget > 0 && used >= budget {
      assert 4 * budget / 5 <= budget;
    }
  }
}
