/** Tasks, agents and executions: the Decision Center and the Execution Engine over one database. */
module Scheduling {
  import opened Options
  import opened Ordering

  datatype TaskStatus = Backlog | Ready | InProgress | Blocked | Review | Done

  datatype Priority = High | Medium | Low

  datatype Task = Task(status: TaskStatus, priority: Priority, specialization: Option<string>, owner: Option<int>,
    createdAt: int)

  datatype Agent = Agent(kind: string, specialization: Option<string>, enabled: bool)

  datatype ExecutionState = Pending | Assigned | Running | WaitingReview | Completed | Failed | Cancelled

  datatype Execution = Execution(task: int, agent: Option<int>, state: ExecutionState, attempts: nat,
    error: Option<string>)

  datatype Error =
    | TaskNotFound | AgentNotFound | ExecutionNotFound | AgentBusy | UseComplete | NotInReview | NullField
    | QueueEmpty | NoAgentAvailable | TaskAlreadyActive | IndexViolation | Conflict

  datatype Outcome = Pass | Fail(error: Error)

  const MAX_ATTEMPTS: nat := 4

  // ---------------------------------------------------------------- the execution state machine

  function AllowedTransitions(s: ExecutionState): set<ExecutionState> {
    match s
    case Pending => {Assigned, Cancelled, Failed}
    case Assigned => {Running, Cancelled, Failed}
    case Running => {WaitingReview, Failed, Cancelled}
    case WaitingReview => {Completed, Failed, Cancelled}
    case _ => {}
  }

  predicate Active(s: ExecutionState) {
    s in {Pending, Assigned, Running, WaitingReview}
  }

  function Rank(s: ExecutionState): nat {
    match s
    case Pending => 0
    case Assigned => 1
    case Running => 2
    case WaitingReview => 3
    case _ => 4
  }

  /** Each state of the path is an allowed transition from the one before it. */
  ghost predicate IsPath(p: seq<ExecutionState>) {
    p != [] && forall i :: 0 <= i < |p| - 1 ==> p[i + 1] in AllowedTransitions(p[i])
  }

  /** target is s or can be reached from s through allowed transitions. */
  ghost predicate Forward(s: ExecutionState, target: ExecutionState) {
    exists p :: IsPath(p) && p[0] == s && p[|p| - 1] == target
  }

  lemma ForwardSelf(s: ExecutionState)
    ensures Forward(s, s)
  {
    assert IsPath([s]);
  }

  lemma ForwardStep(s: ExecutionState, target: ExecutionState)
    requires target in AllowedTransitions(s)
    ensures Forward(s, target)
  {
    assert IsPath([s, target]);
  }

  lemma ForwardTransitive(a: ExecutionState, b: ExecutionState, c: ExecutionState)
    requires Forward(a, b) && Forward(b, c)
    ensures Forward(a, c)
  {
    var p :| IsPath(p) && p[0] == a && p[|p| - 1] == b;
    var q :| IsPath(q) && q[0] == b && q[|q| - 1] == c;
    var r := p + q[1..];
    forall i | 0 <= i < |r| - 1 ensures r[i + 1] in AllowedTransitions(r[i]) {
      if i >= |p| - 1 { assert r[i] == q[i - |p| + 1] && r[i + 1] == q[i - |p| + 2]; }
    }
    assert IsPath(r);
  }

  /** Every allowed transition climbs, out of an active state. */
  lemma TransitionClimbs(s: ExecutionState, target: ExecutionState)
    requires target in AllowedTransitions(s)
    ensures Rank(s) < Rank(target) && Active(s)
  {
  }

  lemma {:induction false} PathClimbs(p: seq<ExecutionState>)
    requires IsPath(p)
    ensures |p| == 1 || (Rank(p[0]) < Rank(p[|p| - 1]) && Active(p[0]))
  {
    if |p| > 1 {
      TransitionClimbs(p[0], p[1]);
      PathClimbs(p[1..]);
    }
  }

  lemma ForwardClimbs(a: ExecutionState, b: ExecutionState)
    requires Forward(a, b)
    ensures a == b || (Rank(a) < Rank(b) && Active(a))
  {
    var p :| IsPath(p) && p[0] == a && p[|p| - 1] == b;
    PathClimbs(p);
  }

  /** The machine never returns: going forward and back means standing still. */
  lemma ForwardAntisymmetric(a: ExecutionState, b: ExecutionState)
    requires Forward(a, b) && Forward(b, a)
    ensures a == b
  {
    ForwardClimbs(a, b);
    ForwardClimbs(b, a);
  }

  /** COMPLETED, FAILED and CANCELLED are final, and the other states are not: those are the active ones. */
  lemma FinalStates(s: ExecutionState)
    ensures s in {Completed, Failed, Cancelled} <==> forall target :: Forward(s, target) ==> target == s
    ensures Active(s) <==> s !in {Completed, Failed, Cancelled}
  {
    if Active(s) {
      ForwardStep(s, Cancelled);
    } else {
      forall target | Forward(s, target) ensures target == s { ForwardClimbs(s, target); }
    }
  }

  /** An execution goes on to the next of PENDING, ASSIGNED, RUNNING, WAITING_REVIEW and COMPLETED, or ends FAILED or
      CANCELLED before it is COMPLETED. */
  lemma TransitionMeaning(s: ExecutionState, target: ExecutionState)
    ensures target in AllowedTransitions(s) <==>
      || (exists i :: 0 <= i < 4 && s == Lifecycle()[i] && target == Lifecycle()[i + 1])
      || (s !in {Completed, Failed, Cancelled} && target in {Failed, Cancelled})
  {
    assert Lifecycle()[0] == Pending && Lifecycle()[1] == Assigned && Lifecycle()[2] == Running
      && Lifecycle()[3] == WaitingReview && Lifecycle()[4] == Completed;
  }

  function Lifecycle(): seq<ExecutionState> {
    [Pending, Assigned, Running, WaitingReview, Completed]
  }

  /** Paths lead from a state to itself, to the later ones of the five, and to FAILED and CANCELLED before the end. */
  lemma ForwardMeaning(s: ExecutionState, target: ExecutionState)
    ensures Forward(s, target) <==>
      || s == target
      || (exists i, j :: 0 <= i < j < 5 && s == Lifecycle()[i] && target == Lifecycle()[j])
      || (s !in {Completed, Failed, Cancelled} && target in {Failed, Cancelled})
  {
    assert Lifecycle()[0] == Pending && Lifecycle()[1] == Assigned && Lifecycle()[2] == Running
      && Lifecycle()[3] == WaitingReview && Lifecycle()[4] == Completed;
    if s == target { ForwardSelf(s); }
    if i, j :| 0 <= i < j < 5 && s == Lifecycle()[i] && target == Lifecycle()[j] { LifecycleForward(i, j); }
    if s !in {Completed, Failed, Cancelled} && target in {Failed, Cancelled} { ForwardStep(s, target); }
    if Forward(s, target) { ForwardClimbs(s, target); }
    hide Forward;
  }

  lemma {:induction false} LifecycleForward(i: nat, j: nat)
    requires i < j < 5
    ensures Forward(Lifecycle()[i], Lifecycle()[j])
  {
    ForwardStep(Lifecycle()[j - 1], Lifecycle()[j]);
    if i < j - 1 {
      LifecycleForward(i, j - 1);
      ForwardTransitive(Lifecycle()[i], Lifecycle()[j - 1], Lifecycle()[j]);
    }
  }

  // ---------------------------------------------------------------- what every step keeps

  type Tasks = map<int, Task>
  type Executions = map<int, Execution>

  ghost predicate Owns(tasks: Tasks, agent: int, t: int) {
    t in tasks && tasks[t].owner == Some(agent) && tasks[t].status == InProgress
  }

  ghost predicate Runs(executions: Executions, agent: int, e: int) {
    e in executions && executions[e].agent == Some(agent) && Active(executions[e].state)
  }

  ghost predicate ActiveFor(executions: Executions, task: int, e: int) {
    e in executions && executions[e].task == task && Active(executions[e].state)
  }

  /** No agent owns two tasks in progress. */
  ghost predicate OneTask(tasks: Tasks) {
    forall agent, t, u :: Owns(tasks, agent, t) && Owns(tasks, agent, u) ==> t == u
  }

  /** No agent has two active executions, and no task has two. */
  ghost predicate OneExecution(executions: Executions) {
    && (forall agent, e, f :: Runs(executions, agent, e) && Runs(executions, agent, f) ==> e == f)
    && (forall task, e, f :: ActiveFor(executions, task, e) && ActiveFor(executions, task, f) ==> e == f)
  }

  /** Executions are never removed and only move forward; task and agent stay put. */
  ghost predicate Progress(before: Executions, after: Executions) {
    forall e :: e in before ==>
      && e in after && Forward(before[e].state, after[e].state)
      && after[e].task == before[e].task && after[e].agent == before[e].agent
  }

  lemma ProgressTransitive(a: Executions, b: Executions, c: Executions)
    requires Progress(a, b) && Progress(b, c)
    ensures Progress(a, c)
  {
    forall e | e in a ensures Forward(a[e].state, c[e].state) {
      ForwardTransitive(a[e].state, b[e].state, c[e].state);
    }
  }

  /** Rows may be added and cancelled; nothing else about an execution changes. */
  ghost predicate OnlyCancels(before: Executions, after: Executions) {
    forall e :: e in before ==> Spared(before, after, e)
  }

  ghost predicate Spared(before: Executions, after: Executions, e: int)
    requires e in before
  {
    e in after && (after[e] == before[e] || after[e] == before[e].(state := Cancelled))
  }

  lemma CancelSpares(executions: Executions, id: int)
    ensures OnlyCancels(executions, executions)
    ensures id in executions ==> OnlyCancels(executions, executions[id := executions[id].(state := Cancelled)])
  {
  }

  // ---------------------------------------------------------------- the unique indexes

  /** Another active execution holds the task or the agent of this one. */
  ghost predicate SharesSlot(executions: Executions, id: int, e: int) {
    && id in executions && e in executions && e != id && Active(executions[e].state)
    && (executions[e].task == executions[id].task
      || (executions[id].agent.Some? && executions[e].agent == executions[id].agent))
  }

  ghost predicate Collides(executions: Executions, id: int) {
    exists e :: SharesSlot(executions, id, e)
  }

  ghost predicate SameWork(a: Execution, b: Execution) {
    a.task == b.task && a.agent == b.agent
  }

  /** Without an active row there is nothing to collide with. */
  lemma InactiveRow(executions: Executions, id: int, row: Execution)
    requires OneExecution(executions) && id in executions && SameWork(row, executions[id]) && !Active(row.state)
    ensures OneExecution(executions[id := row])
  {
    var after := executions[id := row];
    forall a, e | Runs(after, a, e) ensures Runs(executions, a, e) {
    }
    forall t, e | ActiveFor(after, t, e) ensures ActiveFor(executions, t, e) {
    }
  }

  /** The partial unique indexes refuse an active row exactly when it would double an agent or a task. */
  lemma ActiveRow(executions: Executions, id: int, row: Execution)
    requires OneExecution(executions) && id in executions && SameWork(row, executions[id]) && Active(row.state)
    ensures OneExecution(executions[id := row]) <==> !Collides(executions, id)
  {
    var after := executions[id := row];
    if e :| SharesSlot(executions, id, e) {
      assert ActiveFor(after, row.task, id);
      if executions[e].task == row.task {
        assert ActiveFor(after, row.task, e);
      } else {
        assert Runs(after, row.agent.value, e) && Runs(after, row.agent.value, id);
      }
    } else {
      forall a, e, f | Runs(after, a, e) && Runs(after, a, f) ensures e == f {
        DistinctSlots(executions, id, e);
        DistinctSlots(executions, id, f);
        assert e != id ==> Runs(executions, a, e);
        assert f != id ==> Runs(executions, a, f);
      }
      forall t, e, f | ActiveFor(after, t, e) && ActiveFor(after, t, f) ensures e == f {
        DistinctSlots(executions, id, e);
        DistinctSlots(executions, id, f);
        assert e != id ==> ActiveFor(executions, t, e);
        assert f != id ==> ActiveFor(executions, t, f);
      }
    }
  }

  lemma DistinctSlots(executions: Executions, id: int, e: int)
    requires !Collides(executions, id) && id in executions
    ensures e in executions && e != id && Active(executions[e].state) ==>
      && executions[e].task != executions[id].task
      && (executions[id].agent.Some? ==> executions[e].agent != executions[id].agent)
  {
    assert !SharesSlot(executions, id, e);
  }

  /** An execution that is active already shares nothing. */
  lemma ActiveNeverCollides(executions: Executions, id: int)
    requires OneExecution(executions) && id in executions && Active(executions[id].state)
    ensures !Collides(executions, id)
  {
    if e :| SharesSlot(executions, id, e) {
      assert ActiveFor(executions, executions[id].task, id);
      if executions[e].task == executions[id].task {
        assert ActiveFor(executions, executions[id].task, e);
      } else {
        assert Runs(executions, executions[id].agent.value, e) && Runs(executions, executions[id].agent.value, id);
      }
    }
  }

  // ---------------------------------------------------------------- a worker's cached copy

  /** A worker holds the state it last read or wrote; meanwhile others can only have cancelled the row. */
  predicate Cached(row: Execution, seen: ExecutionState) {
    row.state == seen || row.state == Cancelled
  }

  /** What others do to the table leaves the copy as good as it was. */
  lemma CacheStays(before: Executions, after: Executions, id: int, seen: ExecutionState)
    requires id in before && Spared(before, after, id) && Cached(before[id], seen)
    ensures id in after && Cached(after[id], seen) && SameWork(after[id], before[id])
  {
  }

  /** The worker tests the transition on its copy and then writes whatever is stored: the stored state
      moves forward exactly when nobody cancelled it behind the worker's back. */
  lemma OverwriteForward(stored: ExecutionState, seen: ExecutionState, target: ExecutionState)
    requires Forward(seen, target) && seen != target && target != Cancelled && (stored == seen || stored == Cancelled)
    ensures Forward(stored, target) <==> stored == seen
  {
    if stored != seen && Forward(stored, target) {
      ForwardClimbs(stored, target);
    }
  }

  /** The same for the whole table. */
  lemma OverwriteProgress(executions: Executions, id: int, seen: ExecutionState, row: Execution)
    requires id in executions && Cached(executions[id], seen) && SameWork(row, executions[id])
    requires Forward(seen, row.state) && seen != row.state && row.state != Cancelled
    ensures Progress(executions, executions[id := row]) <==> executions[id].state == seen
  {
    OverwriteForward(executions[id].state, seen, row.state);
    forall e | e in executions ensures Forward(executions[e].state, executions[e].state) {
      ForwardSelf(executions[e].state);
    }
    hide Forward;
  }

  /** A cancelled execution is taken through review to completion by a worker that still sees it running. */
  lemma CancelOverwritten()
    ensures
      var cancelled := Execution(1, Some(1), Cancelled, 1, Some("timeout"));
      var before: Executions := map[1 := cancelled];
      && WaitingReview in AllowedTransitions(Running) && Cached(cancelled, Running) && !Collides(before, 1)
      && !Progress(before, before[1 := cancelled.(state := Completed, attempts := 2, error := None)])
  {
    var cancelled := Execution(1, Some(1), Cancelled, 1, Some("timeout"));
    var before: Executions := map[1 := cancelled];
    ForwardStep(Running, WaitingReview);
    ForwardStep(WaitingReview, Completed);
    ForwardTransitive(Running, WaitingReview, Completed);
    OverwriteProgress(before, 1, Running, cancelled.(state := Completed, attempts := 2, error := None));
  }

  /** Rows that did not move. */
  lemma SameProgress(before: Executions, after: Executions)
    requires forall e :: e in before ==>
      e in after && SameWork(after[e], before[e]) && after[e].state == before[e].state
    ensures Progress(before, after)
  {
    forall e | e in before ensures Forward(before[e].state, after[e].state) { ForwardSelf(before[e].state); }
  }

  /** A row that took one allowed transition. */
  lemma StepProgress(before: Executions, id: int, row: Execution)
    requires id in before && SameWork(row, before[id]) && row.state in AllowedTransitions(before[id].state)
    ensures Progress(before, before[id := row])
  {
    forall e | e in before ensures Forward(before[e].state, before[id := row][e].state) {
      ForwardSelf(before[e].state);
      ForwardStep(before[id].state, row.state);
    }
  }

  /** The statuses each task has gone through since it was created, oldest first. */
  type History = map<int, seq<TaskStatus>>

  /** The history ends in the present, and DONE is only ever entered out of REVIEW. */
  ghost predicate HistoryInv(tasks: Tasks, history: History) {
    && (forall t :: t in history <==> t in tasks)
    && (forall t :: t in tasks ==> history[t] != [] && history[t][|history[t]| - 1] == tasks[t].status)
    && (forall t, i :: t in tasks && 0 < i < |history[t]| && history[t][i] == Done ==> history[t][i - 1] == Review)
  }

  /** Nothing is ever taken out of a history. */
  ghost predicate Extends(before: History, after: History) {
    forall t :: t in before ==> t in after && before[t] <= after[t]
  }

  lemma ExtendsTransitive(a: History, b: History, c: History)
    requires Extends(a, b) && Extends(b, c)
    ensures Extends(a, c)
  {
  }

  function Wrote(history: History, t: int, status: TaskStatus): History {
    history[t := (if t in history then history[t] else []) + [status]]
  }

  lemma WroteExtends(history: History, t: int, status: TaskStatus, next: TaskStatus)
    ensures Extends(history, history) && Extends(history, Wrote(history, t, status))
    ensures Extends(history, Wrote(Wrote(history, t, status), t, next))
  {
  }

  lemma WroteInv(tasks: Tasks, history: History, t: int, task: Task)
    requires HistoryInv(tasks, history) && t in tasks && (task.status == Done ==> tasks[t].status == Review)
    ensures HistoryInv(tasks[t := task], Wrote(history, t, task.status))
    ensures Extends(history, Wrote(history, t, task.status))
  {
  }

  /** Writing one task keeps the ownership rule if the new row does not put a busy agent to work. */
  lemma WriteTask(tasks: Tasks, id: int, task: Task)
    requires OneTask(tasks)
    requires task.status == InProgress && task.owner.Some? ==> forall t :: Owns(tasks, task.owner.value, t) ==> t == id
    ensures OneTask(tasks[id := task])
  {
    var after := tasks[id := task];
    forall agent, t, u | Owns(after, agent, t) && Owns(after, agent, u) ensures t == u {
      if t != id { assert Owns(tasks, agent, t); }
      if u != id { assert Owns(tasks, agent, u); }
    }
  }

  lemma AddExecution(executions: Executions, id: int, task: int, agent: int)
    requires OneExecution(executions) && id !in executions
    requires (forall e :: !Runs(executions, agent, e)) && (forall e :: !ActiveFor(executions, task, e))
    ensures OneExecution(executions[id := Execution(task, Some(agent), Assigned, 0, None)])
    ensures Progress(executions, executions[id := Execution(task, Some(agent), Assigned, 0, None)])
    ensures OnlyCancels(executions, executions[id := Execution(task, Some(agent), Assigned, 0, None)])
  {
    var after := executions[id := Execution(task, Some(agent), Assigned, 0, None)];
    SameProgress(executions, after);
    forall a, e ensures Runs(after, a, e) <==> Runs(executions, a, e) || (e == id && a == agent) {
    }
    forall t, e ensures ActiveFor(after, t, e) <==> ActiveFor(executions, t, e) || (e == id && t == task) {
    }
  }

  // ---------------------------------------------------------------- runs with many workers

  /** What one attempt leaves in the table, given its outcome. */
  function AfterAttempt(executions: Executions, id: int, attempt: nat, failure: Option<string>, r: Outcome): Executions
    requires id in executions
  {
    var row := executions[id];
    if failure.Some? then
      var recorded := row.(attempts := attempt, error := failure);
      executions[id := if attempt == MAX_ATTEMPTS && r.Pass? then recorded.(state := Failed) else recorded]
    else if r.Pass? then executions[id := row.(state := Completed, attempts := attempt, error := None)]
    else executions
  }

  /** The attempt keeps every execution moving forward unless it overwrites a cancellation. */
  lemma AttemptProgress(executions: Executions, id: int, seen: ExecutionState, attempt: nat, failure: Option<string>,
                        r: Outcome)
    requires id in executions && Cached(executions[id], seen) && attempt <= MAX_ATTEMPTS
    requires r.Pass? && failure.Some? && attempt == MAX_ATTEMPTS ==> Active(seen)
    requires r.Pass? && failure.None? ==> seen == Running
    ensures Progress(executions, AfterAttempt(executions, id, attempt, failure, r)) <==>
      (r.Pass? && !(failure.Some? && attempt < MAX_ATTEMPTS) ==> executions[id].state == seen)
  {
    var after := AfterAttempt(executions, id, attempt, failure, r);
    if r.Pass? && !(failure.Some? && attempt < MAX_ATTEMPTS) {
      if failure.Some? {
        ForwardStep(seen, Failed);
      } else {
        ForwardStep(Running, WaitingReview);
        ForwardStep(WaitingReview, Completed);
        ForwardTransitive(Running, WaitingReview, Completed);
      }
      OverwriteProgress(executions, id, seen, after[id]);
    } else {
      SameProgress(executions, after);
    }
  }

  /** The outcome of an attempt, tested on the copy and then on the indexes. */
  ghost function AttemptOutcome(executions: Executions, id: int, seen: ExecutionState, attempt: nat,
                                failure: Option<string>): Outcome {
    if failure.Some? then if attempt < MAX_ATTEMPTS || Active(seen) then Pass else Fail(Conflict)
    else if seen != Running then Fail(Conflict)
    else if Collides(executions, id) then Fail(IndexViolation) else Pass
  }

  function SeenAfter(seen: ExecutionState, attempt: nat, failure: Option<string>, r: Outcome): ExecutionState {
    if r.Fail? || (failure.Some? && attempt < MAX_ATTEMPTS) then seen else if failure.Some? then Failed else Completed
  }

  lemma UpdateTwice<V>(m: map<int, V>, k: int, a: V, b: V)
    ensures m[k := a][k := b] == m[k := b]
  {
  }

  /** Only this row differs, and not in its task or agent. */
  ghost predicate OnlyRow(before: Executions, after: Executions, id: int) {
    id in before && id in after && SameWork(after[id], before[id]) && after == before[id := after[id]]
  }

  lemma OnlyRowTwice(a: Executions, b: Executions, c: Executions, id: int)
    requires OnlyRow(a, b, id) && OnlyRow(b, c, id)
    ensures OnlyRow(a, c, id)
    ensures c == a[id := Execution(a[id].task, a[id].agent, c[id].state, c[id].attempts, c[id].error)]
  {
    UpdateTwice(a, id, b[id], c[id]);
  }

  /** What a running worker expects of an attempt. */
  lemma AttemptCases(executions: Executions, id: int, attempt: nat, failure: Option<string>)
    requires id in executions && 1 <= attempt <= MAX_ATTEMPTS
    ensures
      var r := AttemptOutcome(executions, id, Running, attempt, failure);
      var after := AfterAttempt(executions, id, attempt, failure, r);
      && r == (if failure.None? && Collides(executions, id) then Fail(IndexViolation) else Pass)
      && (r.Pass? ==>
        && OnlyRow(executions, after, id) && after[id].attempts == attempt && after[id].error == failure
        && (after[id].state ==
          (if failure.None? then Completed else if attempt < MAX_ATTEMPTS then executions[id].state else Failed)))
      && SeenAfter(Running, attempt, failure, r) ==
        if r.Fail? || (failure.Some? && attempt < MAX_ATTEMPTS) then Running
        else if failure.Some? then Failed else Completed
  {
    hide Collides;
  }

  /** The execution table and the copies of the workers, one an execution. */
  datatype Board = Board(executions: Executions, copies: map<int, ExecutionState>)

  /** Everything that writes executions or copies: a scheduling call, a worker reading its row, a cancellation, and
      the two kinds of step a worker takes. Any other call leaves the board as it is. */
  datatype Op =
    | StepAssign(id: int, task: int, agent: int)
    | StepRead(id: int)
    | StepCancel(id: int)
    | StepBegin(id: int)
    | StepAttempt(id: int, attempt: nat, failure: Option<string>)

  ghost predicate Taken(executions: Executions, task: int, agent: int) {
    (exists e :: Runs(executions, agent, e)) || exists e :: ActiveFor(executions, task, e)
  }

  ghost function Step(b: Board, op: Op): Board {
    match op
    case StepAssign(id, task, agent) =>
      if id in b.executions || Taken(b.executions, task, agent) then b
      else b.(executions := b.executions[id := Execution(task, Some(agent), Assigned, 0, None)])
    case StepRead(id) =>
      if id in b.executions && id !in b.copies then b.(copies := b.copies[id := b.executions[id].state]) else b
    case StepCancel(id) =>
      if id in b.executions && Active(b.executions[id].state)
      then b.(executions := b.executions[id := b.executions[id].(state := Cancelled)]) else b
    case StepBegin(id) =>
      if id in b.executions && id in b.copies && b.copies[id] == Assigned && !Collides(b.executions, id)
      then Board(b.executions[id := b.executions[id].(state := Running)], b.copies[id := Running]) else b
    case StepAttempt(id, attempt, failure) =>
      if id in b.executions && id in b.copies && b.copies[id] == Running && 1 <= attempt <= MAX_ATTEMPTS then
        var r := AttemptOutcome(b.executions, id, b.copies[id], attempt, failure);
        Board(AfterAttempt(b.executions, id, attempt, failure, r),
          b.copies[id := SeenAfter(b.copies[id], attempt, failure, r)])
      else b
  }

  lemma AttemptIsStep(executions: Executions, id: int, attempt: nat, failure: Option<string>)
    requires id in executions && 1 <= attempt <= MAX_ATTEMPTS
    ensures
      var r := AttemptOutcome(executions, id, Running, attempt, failure);
      Step(Board(executions, map[id := Running]), StepAttempt(id, attempt, failure)) ==
      Board(AfterAttempt(executions, id, attempt, failure, r), map[id := SeenAfter(Running, attempt, failure, r)])
  {
    hide AttemptOutcome, AfterAttempt, SeenAfter;
    var r := AttemptOutcome(executions, id, Running, attempt, failure);
    assert map[id := Running][id := SeenAfter(Running, attempt, failure, r)] ==
      map[id := SeenAfter(Running, attempt, failure, r)];
  }

  lemma BeginIsStep(executions: Executions, id: int, seen: ExecutionState)
    requires id in executions
    ensures Step(Board(executions, map[id := seen]), StepBegin(id)) ==
      if seen == Assigned && !Collides(executions, id)
      then Board(executions[id := executions[id].(state := Running)], map[id := Running])
      else Board(executions, map[id := seen])
  {
    hide Collides;
    assert map[id := seen][id := Running] == map[id := Running];
  }

  ghost function RunOps(b: Board, ops: seq<Op>): Board
    decreases |ops|
  {
    if ops == [] then b else RunOps(Step(b, ops[0]), ops[1..])
  }

  /** No agent and no task has two active executions, and every copy is good. */
  ghost predicate BoardOk(b: Board) {
    OneExecution(b.executions) && CopiesOk(b.executions, b.copies)
  }

  ghost predicate CopiesOk(executions: Executions, copies: map<int, ExecutionState>) {
    forall id :: id in copies ==> id in executions && Cached(executions[id], copies[id])
  }

  /** What one call does to the rows of others leaves their copies good. */
  lemma CopiesStay(before: Executions, after: Executions, copies: map<int, ExecutionState>)
    requires CopiesOk(before, copies) && OnlyCancels(before, after)
    ensures CopiesOk(after, copies)
  {
    forall id | id in copies ensures id in after && Cached(after[id], copies[id]) {
      CacheStays(before, after, id, copies[id]);
    }
  }

  /** A worker writes its own row and its own copy. */
  lemma OwnRow(executions: Executions, copies: map<int, ExecutionState>, id: int, row: Execution, seen: ExecutionState)
    requires CopiesOk(executions, copies) && id in executions && Cached(row, seen)
    ensures CopiesOk(executions[id := row], copies[id := seen])
  {
  }

  lemma AttemptOk(b: Board, id: int, attempt: nat, failure: Option<string>)
    requires BoardOk(b) && id in b.executions && id in b.copies && b.copies[id] == Running
    requires 1 <= attempt <= MAX_ATTEMPTS
    ensures BoardOk(Step(b, StepAttempt(id, attempt, failure)))
  {
    var r := AttemptOutcome(b.executions, id, Running, attempt, failure);
    var after := AfterAttempt(b.executions, id, attempt, failure, r);
    if after != b.executions {
      OwnRow(b.executions, b.copies, id, after[id], SeenAfter(Running, attempt, failure, r));
      assert after == b.executions[id := after[id]];
      if Active(after[id].state) {
        ActiveNeverCollides(b.executions, id);
        ActiveRow(b.executions, id, after[id]);
      } else {
        InactiveRow(b.executions, id, after[id]);
      }
    } else {
      assert b.executions[id := b.executions[id]] == b.executions;
      OwnRow(b.executions, b.copies, id, b.executions[id], SeenAfter(Running, attempt, failure, r));
    }
  }

  lemma StepOk(b: Board, op: Op)
    requires BoardOk(b)
    ensures BoardOk(Step(b, op))
  {
    hide AfterAttempt, AttemptOutcome, SeenAfter;
    match op
    case StepAssign(id, task, agent) =>
      if id !in b.executions && !Taken(b.executions, task, agent) {
        AddExecution(b.executions, id, task, agent);
        CopiesStay(b.executions, Step(b, op).executions, b.copies);
      }
    case StepRead(id) =>
    case StepCancel(id) =>
      if id in b.executions && Active(b.executions[id].state) {
        CancelSpares(b.executions, id);
        CopiesStay(b.executions, Step(b, op).executions, b.copies);
        InactiveRow(b.executions, id, b.executions[id].(state := Cancelled));
      }
    case StepBegin(id) =>
      if id in b.executions && id in b.copies && b.copies[id] == Assigned && !Collides(b.executions, id) {
        var row := b.executions[id].(state := Running);
        OwnRow(b.executions, b.copies, id, row, Running);
        ActiveRow(b.executions, id, row);
      }
    case StepAttempt(id, attempt, failure) =>
      if id in b.executions && id in b.copies && b.copies[id] == Running && 1 <= attempt <= MAX_ATTEMPTS {
        AttemptOk(b, id, attempt, failure);
      }
  }

  /** Every interleaving of scheduling, cancelling and any number of workers keeps one active execution an agent and
      a task, and keeps every worker's copy good. */
  lemma {:induction false} RunOk(b: Board, ops: seq<Op>)
    requires BoardOk(b)
    ensures BoardOk(RunOps(b, ops))
    decreases |ops|
  {
    if ops != [] {
      StepOk(b, ops[0]);
      RunOk(Step(b, ops[0]), ops[1..]);
    }
  }

  /** The stored state, and the worker's copy if there is one, have moved forward from s. */
  ghost predicate Onward(s: ExecutionState, b: Board, id: int) {
    && id in b.executions && Forward(s, b.executions[id].state)
    && (id in b.copies ==> Forward(s, b.copies[id]))
  }

  lemma ForwardOn(s: ExecutionState, from: ExecutionState, target: ExecutionState)
    requires Forward(s, from) && target in AllowedTransitions(from)
    ensures Forward(s, target)
  {
    ForwardStep(from, target);
    ForwardTransitive(s, from, target);
  }

  lemma AttemptOnward(s: ExecutionState, b: Board, id: int, attempt: nat, failure: Option<string>)
    requires Onward(s, b, id) && id in b.copies && b.copies[id] == Running && 1 <= attempt <= MAX_ATTEMPTS
    ensures Onward(s, Step(b, StepAttempt(id, attempt, failure)), id)
  {
    ForwardOn(s, Running, Failed);
    ForwardOn(s, Running, WaitingReview);
    ForwardOn(s, WaitingReview, Completed);
    hide Forward, Collides;
  }

  lemma StepOnward(s: ExecutionState, b: Board, op: Op, id: int)
    requires Onward(s, b, id)
    ensures Onward(s, Step(b, op), id)
  {
    if op.StepAttempt? && op.id == id && id in b.copies && b.copies[id] == Running && 1 <= op.attempt <= MAX_ATTEMPTS {
      AttemptOnward(s, b, id, op.attempt, op.failure);
    } else if op.StepBegin? && op.id == id && id in b.copies && b.copies[id] == Assigned {
      ForwardOn(s, Assigned, Running);
    } else if op.StepCancel? && op.id == id && Active(b.executions[id].state) {
      ForwardOn(s, b.executions[id].state, Cancelled);
    }
    hide Forward, Collides, Taken;
  }

  lemma {:induction false} RunOnward(s: ExecutionState, b: Board, ops: seq<Op>, id: int)
    requires Onward(s, b, id)
    ensures Onward(s, RunOps(b, ops), id)
    decreases |ops|
  {
    hide Onward, Step;
    if ops != [] {
      StepOnward(s, b, ops[0], id);
      RunOnward(s, Step(b, ops[0]), ops[1..], id);
    }
  }

  /** From any state but CANCELLED, whatever happens later is a forward move: in every run the only way back is out
      of CANCELLED. */
  lemma RunForward(b: Board, ops: seq<Op>, id: int)
    requires BoardOk(b) && id in b.executions && b.executions[id].state != Cancelled
    ensures id in RunOps(b, ops).executions
    ensures Forward(b.executions[id].state, RunOps(b, ops).executions[id].state)
  {
    ForwardSelf(b.executions[id].state);
    RunOnward(b.executions[id].state, b, ops, id);
  }

  /** A worker still sees the execution as its own to start or to end. */
  predicate Held(b: Board, id: int) {
    id in b.copies && b.copies[id] in {Assigned, Running}
  }

  ghost predicate LaidOff(b: Board, id: int) {
    id in b.executions && b.executions[id].state == Cancelled && !Held(b, id)
  }

  lemma StepLaidOff(b: Board, op: Op, id: int)
    requires LaidOff(b, id)
    ensures LaidOff(Step(b, op), id)
  {
    hide Collides, Taken;
  }

  /** Cancelled, with no worker that holds it: so it stays. */
  lemma {:induction false} CancelledStays(b: Board, ops: seq<Op>, id: int)
    requires LaidOff(b, id)
    ensures LaidOff(RunOps(b, ops), id)
    decreases |ops|
  {
    hide LaidOff, Step;
    if ops != [] {
      StepLaidOff(b, ops[0], id);
      CancelledStays(Step(b, ops[0]), ops[1..], id);
    }
  }

  ghost predicate Left(b: Board, ops: seq<Op>, id: int) {
    id in RunOps(b, ops).executions && RunOps(b, ops).executions[id].state != Cancelled
  }

  lemma LeftLater(b: Board, op: Op, ops: seq<Op>, id: int)
    requires Left(Step(b, op), ops, id)
    ensures Left(b, [op] + ops, id)
  {
    hide Step;
    assert ([op] + ops)[1..] == ops;
  }

  function ActiveRows(executions: Executions): set<int> {
    set e | e in executions && Active(executions[e].state)
  }

  lemma CancelFrees(executions: Executions, e: int)
    requires e in ActiveRows(executions)
    ensures |ActiveRows(executions[e := executions[e].(state := Cancelled)])| < |ActiveRows(executions)|
  {
    assert ActiveRows(executions[e := executions[e].(state := Cancelled)]) == ActiveRows(executions) - {e};
  }

  /** What stands in the way of a worker about to start can be cancelled. */
  lemma {:induction false} StartLeaves(b: Board, id: int)
    requires id in b.executions && b.executions[id].state == Cancelled && id in b.copies && b.copies[id] == Assigned
    ensures exists ops :: Left(b, ops, id)
    decreases |ActiveRows(b.executions)|
  {
    if e :| SharesSlot(b.executions, id, e) {
      CancelFrees(b.executions, e);
      var after := Step(b, StepCancel(e));
      StartLeaves(after, id);
      hide Step, SharesSlot;
      var ops :| Left(after, ops, id);
      LeftLater(b, StepCancel(e), ops, id);
    } else {
      assert Left(Step(b, StepBegin(id)), [], id);
      hide Step;
      LeftLater(b, StepBegin(id), [], id);
    }
  }

  lemma EndLeaves(b: Board, id: int)
    requires id in b.executions && id in b.copies && b.copies[id] == Running
    ensures exists ops :: Left(b, ops, id)
  {
    var op := StepAttempt(id, MAX_ATTEMPTS, Some(""));
    assert Left(Step(b, op), [], id);
    hide Step;
    LeftLater(b, op, [], id);
  }

  /** Some run takes a cancelled execution out of CANCELLED exactly when a worker still holds it. */
  lemma CancelledLeft(b: Board, id: int)
    requires id in b.executions && b.executions[id].state == Cancelled
    ensures (exists ops :: Left(b, ops, id)) <==> Held(b, id)
  {
    if Held(b, id) {
      if b.copies[id] == Running { EndLeaves(b, id); } else { StartLeaves(b, id); }
    } else {
      forall ops ensures !Left(b, ops, id) { CancelledStays(b, ops, id); }
    }
  }

  // ---------------------------------------------------------------- queue order

  /** HIGH before MEDIUM before LOW, then the older task, then the smaller id. */
  predicate Before(a: Task, i: int, b: Task, j: int) {
    var x, y := PriorityOrder(a.priority), PriorityOrder(b.priority);
    x < y || (x == y && (a.createdAt < b.createdAt || (a.createdAt == b.createdAt && i <= j)))
  }

  function PriorityOrder(p: Priority): int {
    match p case High => 0 case Medium => 1 case Low => 2
  }

  ghost predicate FirstReady(tasks: Tasks, t: int) {
    && t in tasks && tasks[t].status == Ready
    && forall u :: u in tasks && tasks[u].status == Ready ==> Before(tasks[t], t, tasks[u], u)
  }

  predicate Suits(agent: Agent, task: Task, supported: set<string>) {
    agent.enabled && agent.kind in supported && agent.specialization == task.specialization
  }

  ghost predicate FreeAgent(tasks: Tasks, agents: map<int, Agent>, executions: Executions, task: Task,
                            supported: set<string>, a: int) {
    && a in agents && Suits(agents[a], task, supported)
    && (forall t :: !Owns(tasks, a, t)) && (forall e :: !Runs(executions, a, e))
  }

  /** The free agent with the smallest id. */
  ghost predicate FirstFree(tasks: Tasks, agents: map<int, Agent>, executions: Executions, task: Task,
                            supported: set<string>, a: int) {
    && FreeAgent(tasks, agents, executions, task, supported, a)
    && forall b :: FreeAgent(tasks, agents, executions, task, supported, b) ==> a <= b
  }

  /** Why a READY task could not be put to work: no agent is free, or the task still has an active execution. */
  ghost predicate Unstartable(tasks: Tasks, agents: map<int, Agent>, executions: Executions, task: int,
                              supported: set<string>, error: Error)
    requires task in tasks
  {
    if forall a :: !FreeAgent(tasks, agents, executions, tasks[task], supported, a) then error == NoAgentAvailable
    else error == TaskAlreadyActive && exists e :: ActiveFor(executions, task, e)
  }

  /** The task taken next: READY, none READY of a higher priority, none as high and older, and none as high and as old
      with a smaller id. */
  lemma FirstReadyMeaning(tasks: Tasks, t: int)
    ensures FirstReady(tasks, t) <==>
      && t in tasks && tasks[t].status == Ready
      && forall u :: u in tasks && tasks[u].status == Ready ==>
        && (tasks[u].priority == High ==> tasks[t].priority == High)
        && (tasks[u].priority == Medium ==> tasks[t].priority != Low)
        && (tasks[u].priority == tasks[t].priority ==> tasks[t].createdAt <= tasks[u].createdAt)
        && (tasks[u].priority == tasks[t].priority && tasks[u].createdAt == tasks[t].createdAt ==> t <= u)
  {
  }

  /** The agent that gets it: enabled, of a supported type, with exactly the specialisation the task asks for, with no
      task in progress and no unfinished execution, and of all such agents the one with the smallest id. */
  lemma FirstFreeMeaning(tasks: Tasks, agents: map<int, Agent>, executions: Executions, task: Task,
                         supported: set<string>, a: int)
    ensures FirstFree(tasks, agents, executions, task, supported, a) <==>
      && FreeAgent(tasks, agents, executions, task, supported, a)
      && forall b :: FreeAgent(tasks, agents, executions, task, supported, b) ==> a <= b
    ensures FreeAgent(tasks, agents, executions, task, supported, a) <==>
      && a in agents && agents[a].enabled && agents[a].kind in supported
      && agents[a].specialization == task.specialization
      && (forall t :: t in tasks && tasks[t].owner == Some(a) ==> tasks[t].status != InProgress)
      && forall e :: e in executions && executions[e].agent == Some(a) ==>
        executions[e].state in {Completed, Failed, Cancelled}
  {
    forall e | e in executions
      ensures Active(executions[e].state) <==> executions[e].state !in {Completed, Failed, Cancelled}
    {
      FinalStates(executions[e].state);
    }
    hide Active;
    var free := FreeAgent(tasks, agents, executions, task, supported, a);
    if free {
      forall t | t in tasks && tasks[t].owner == Some(a) ensures tasks[t].status != InProgress {
        assert !Owns(tasks, a, t);
      }
      forall e | e in executions && executions[e].agent == Some(a)
        ensures executions[e].state in {Completed, Failed, Cancelled}
      {
        assert !Runs(executions, a, e);
      }
    }
  }

  // ---------------------------------------------------------------- the database

  /** Owners and tasks exist; an execution gets its agent in the transaction that assigns it. */
  ghost predicate Referenced(tasks: Tasks, agents: map<int, Agent>, executions: Executions) {
    && (forall t :: t in tasks && tasks[t].owner.Some? ==> tasks[t].owner.value in agents)
    && (forall e :: e in executions ==> RowOk(tasks, executions[e]))
  }

  predicate RowOk(tasks: Tasks, row: Execution) {
    row.task in tasks && row.attempts <= MAX_ATTEMPTS && (row.state == Pending ==> row.agent.None?)
  }

  lemma ReferencedStays(tasks: Tasks, agents: map<int, Agent>, executions: Executions, id: int, task: Task)
    requires Referenced(tasks, agents, executions) && id in tasks && (task.owner.Some? ==> task.owner.value in agents)
    ensures Referenced(tasks[id := task], agents, executions)
  {
  }

  lemma UnwrittenInv(tasks: Tasks, history: History, id: int, task: Task)
    requires HistoryInv(tasks, history) && id in tasks && task.status == tasks[id].status
    ensures HistoryInv(tasks[id := task], history) && Extends(history, history)
  {
  }

  class Database {
    var tasks: Tasks
    var agents: map<int, Agent>
    var executions: Executions
    ghost var history: History

    ghost predicate Valid()
      reads this
    {
      OneTask(tasks) && OneExecution(executions) && HistoryInv(tasks, history) && Referenced(tasks, agents, executions)
    }

    constructor ()
      ensures Valid() && tasks == map[] && agents == map[] && executions == map[] && history == map[]
    {
      tasks, agents, executions, history := map[], map[], map[], map[];
    }

    /** Is another task of this agent in progress? */
    method OwnsAnother(agent: int, except: Option<int>) returns (busy: bool)
      ensures busy <==> exists t :: Owns(tasks, agent, t) && except != Some(t)
    {
      var rest := tasks.Keys;
      while rest != {}
        invariant rest <= tasks.Keys
        invariant forall t :: t in tasks && t !in rest && except != Some(t) ==> !Owns(tasks, agent, t)
      {
        var t := Pick(rest);
        if tasks[t].owner == Some(agent) && tasks[t].status == InProgress && except != Some(t) {
          assert Owns(tasks, agent, t);
          return true;
        }
        rest := rest - {t};
      }
      return false;
    }

    method EnsureAgentAvailable(agent: int, except: Option<int>) returns (r: Outcome)
      ensures r == Fail(AgentNotFound) <==> agent !in agents
      ensures r.Pass? <==> agent in agents && forall t :: Owns(tasks, agent, t) ==> except == Some(t)
      ensures r.Fail? ==> r.error in {AgentNotFound, AgentBusy}
    {
      if agent !in agents { return Fail(AgentNotFound); }
      var busy := OwnsAnother(agent, except);
      if busy { return Fail(AgentBusy); }
      return Pass;
    }

    method CreateTask(task: Task, id: int) returns (r: Outcome)
      requires Valid() && id !in tasks
      modifies this`tasks, this`history
      ensures Valid() && history == if r.Pass? then old(history)[id := [task.status]] else old(history)
      ensures r.Pass? <==> (task.owner.Some? ==>
        task.owner.value in agents
          && (task.status == InProgress ==> forall t :: !Owns(old(tasks), task.owner.value, t)))
      ensures tasks == if r.Pass? then old(tasks)[id := task] else old(tasks)
    {
      if task.owner.Some? {
        if task.status == InProgress {
          r := EnsureAgentAvailable(task.owner.value, None);
          if r.Fail? { return; }
        } else if task.owner.value !in agents {
          return Fail(AgentNotFound);
        }
      }
      ghost var before := tasks;
      tasks := tasks[id := task];
      history := history[id := [task.status]];
      WriteTask(before, id, task);
      return Pass;
    }

    /** An argument is None when the payload leaves the field unset and Some(None) when it sends null. */
    method UpdateTask(id: int, status: Option<Option<TaskStatus>>, priority: Option<Option<Priority>>,
                      specialization: Option<Option<string>>)
      returns (r: Outcome)
      requires Valid()
      modifies this`tasks, this`history
      ensures Valid()
      ensures r.Fail? ==> tasks == old(tasks)
      ensures r == Fail(TaskNotFound) <==> id !in old(tasks)
      ensures r == Fail(UseComplete) <==> id in old(tasks) && status == Some(Some(Done))
      ensures r.Pass? <==> (
        && id in old(tasks) && status != Some(Some(Done)) && status != Some(None) && priority != Some(None)
        && (status == Some(Some(InProgress)) && old(tasks)[id].owner.Some? ==>
          forall t :: Owns(old(tasks), old(tasks)[id].owner.value, t) ==> t == id))
      ensures r.Pass? ==> tasks == old(tasks)[id := old(tasks)[id].(
        status := if status.Some? then status.value.value else old(tasks)[id].status,
        priority := if priority.Some? then priority.value.value else old(tasks)[id].priority,
        specialization := if specialization.Some? then specialization.value else old(tasks)[id].specialization)]
      ensures history == if r.Pass? && status.Some? then Wrote(old(history), id, tasks[id].status) else old(history)
    {
      if id !in tasks { return Fail(TaskNotFound); }
      var task := tasks[id];
      if status == Some(Some(Done)) { return Fail(UseComplete); }
      if status == Some(Some(InProgress)) && task.owner.Some? {
        r := EnsureAgentAvailable(task.owner.value, Some(id));
        if r.Fail? { return; }
      }
      if status == Some(None) || priority == Some(None) { return Fail(NullField); }
      if status.Some? { task := task.(status := status.value.value); }
      if priority.Some? { task := task.(priority := priority.value.value); }
      if specialization.Some? { task := task.(specialization := specialization.value); }
      assert task.status == InProgress && task.owner.Some? && status.None? ==> Owns(tasks, task.owner.value, id);
      Save(id, task, status.Some?);
      return Pass;
    }

    method AssignTask(id: int, agent: int) returns (r: Outcome)
      requires Valid()
      modifies this`tasks, this`history
      ensures Valid() && history == old(history)
      ensures r == Fail(TaskNotFound) <==> id !in old(tasks)
      ensures r.Pass? <==> (
        && id in old(tasks) && agent in agents
        && (old(tasks)[id].status == InProgress ==> forall t :: Owns(old(tasks), agent, t) ==> t == id))
      ensures tasks == if r.Pass? then old(tasks)[id := old(tasks)[id].(owner := Some(agent))] else old(tasks)
    {
      if id !in tasks { return Fail(TaskNotFound); }
      if tasks[id].status == InProgress {
        r := EnsureAgentAvailable(agent, Some(id));
        if r.Fail? { return; }
      } else if agent !in agents {
        return Fail(AgentNotFound);
      }
      Save(id, tasks[id].(owner := Some(agent)), false);
      return Pass;
    }

    method CompleteTask(id: int) returns (r: Outcome)
      requires Valid()
      modifies this`tasks, this`history
      ensures Valid()
      ensures history == if r.Pass? then Wrote(old(history), id, Done) else old(history)
      ensures r ==
        if id !in old(tasks) then Fail(TaskNotFound)
        else if old(tasks)[id].status != Review then Fail(NotInReview) else Pass
      ensures tasks == if r.Pass? then old(tasks)[id := old(tasks)[id].(status := Done)] else old(tasks)
    {
      if id !in tasks { return Fail(TaskNotFound); }
      if tasks[id].status != Review { return Fail(NotInReview); }
      SetStatus(id, Done);
      return Pass;
    }

    method CreateAgent(agent: Agent, id: int)
      requires Valid() && id !in agents
      modifies this`agents
      ensures Valid() && agents == old(agents)[id := agent]
    {
      agents := agents[id := agent];
    }

    /** Writes one task row; `wrote` says whether its status was assigned. */
    method Save(id: int, task: Task, ghost wrote: bool)
      requires Valid() && id in tasks && (task.owner.Some? ==> task.owner.value in agents)
      requires task.status == InProgress && task.owner.Some? ==> forall t :: Owns(tasks, task.owner.value, t) ==>
        t == id
      requires if wrote then (task.status == Done ==> tasks[id].status == Review) else task.status == tasks[id].status
      modifies this`tasks, this`history
      ensures Valid() && tasks == old(tasks)[id := task]
      ensures history == (if wrote then Wrote(old(history), id, task.status) else old(history))
      ensures Extends(old(history), history)
    {
      WriteTask(tasks, id, task);
      ReferencedStays(tasks, agents, executions, id, task);
      if wrote { WroteInv(tasks, history, id, task); } else { UnwrittenInv(tasks, history, id, task); }
      hide OneTask, OneExecution, HistoryInv, Referenced, Wrote, Extends;
      if wrote { history := Wrote(history, id, task.status); }
      tasks := tasks[id := task];
    }

    /** A status write that puts nobody to work. */
    method SetStatus(id: int, status: TaskStatus)
      requires Valid() && id in tasks && status != InProgress && (status == Done ==> tasks[id].status == Review)
      modifies this`tasks, this`history
      ensures Valid() && tasks == old(tasks)[id := old(tasks)[id].(status := status)]
      ensures history == Wrote(old(history), id, status) && Extends(old(history), history)
    {
      Save(id, tasks[id].(status := status), true);
    }

    method SelectReadyTask() returns (r: Option<int>)
      ensures r.Some? ==> FirstReady(tasks, r.value)
      ensures r.None? ==> forall t :: t in tasks ==> tasks[t].status != Ready
    {
      r := None;
      var rest := tasks.Keys;
      while rest != {}
        invariant rest <= tasks.Keys
        invariant r.Some? ==> r.value in tasks && tasks[r.value].status == Ready
        invariant forall t :: t in tasks && t !in rest && tasks[t].status == Ready ==>
          r.Some? && Before(tasks[r.value], r.value, tasks[t], t)
      {
        var t := Pick(rest);
        if tasks[t].status == Ready && (r.None? || !Before(tasks[r.value], r.value, tasks[t], t)) { r := Some(t); }
        rest := rest - {t};
      }
    }

    method HasActiveExecution(agent: int) returns (busy: bool)
      ensures busy <==> exists e :: Runs(executions, agent, e)
    {
      var rest := executions.Keys;
      while rest != {}
        invariant rest <= executions.Keys
        invariant forall e :: e in executions && e !in rest ==> !Runs(executions, agent, e)
      {
        var e := Pick(rest);
        if executions[e].agent == Some(agent) && Active(executions[e].state) {
          assert Runs(executions, agent, e);
          return true;
        }
        rest := rest - {e};
      }
      return false;
    }

    method SelectAgent(task: Task, supported: set<string>) returns (r: Option<int>)
      ensures r.Some? ==> FirstFree(tasks, agents, executions, task, supported, r.value)
      ensures r.None? ==> forall a :: !FreeAgent(tasks, agents, executions, task, supported, a)
    {
      r := None;
      var rest := agents.Keys;
      while rest != {}
        invariant rest <= agents.Keys
        invariant r.Some? ==> FreeAgent(tasks, agents, executions, task, supported, r.value)
        invariant forall a :: a in agents && a !in rest && FreeAgent(tasks, agents, executions, task, supported, a) ==>
          r.Some? && r.value <= a
      {
        var a := Pick(rest);
        var owns := OwnsAnother(a, None);
        var runs := HasActiveExecution(a);
        if Suits(agents[a], task, supported) && !owns && !runs && (r.None? || a < r.value) { r := Some(a); }
        rest := rest - {a};
      }
    }

    /** The partial unique index on active executions of one task. */
    method TaskIsActive(task: int) returns (busy: bool)
      ensures busy <==> exists e :: ActiveFor(executions, task, e)
    {
      var rest := executions.Keys;
      while rest != {}
        invariant rest <= executions.Keys
        invariant forall e :: e in executions && e !in rest ==> !ActiveFor(executions, task, e)
      {
        var e := Pick(rest);
        if executions[e].task == task && Active(executions[e].state) {
          assert ActiveFor(executions, task, e);
          return true;
        }
        rest := rest - {e};
      }
      return false;
    }

    /** Put a READY task to work on the first free agent. */
    method StartWork(task: int, supported: set<string>, id: int) returns (r: Outcome)
      requires Valid() && id !in executions && task in tasks && tasks[task].status == Ready
      modifies this
      ensures Valid() && agents == old(agents)
      ensures Progress(old(executions), executions) && OnlyCancels(old(executions), executions)
      ensures r.Fail? ==> tasks == old(tasks) && executions == old(executions)
      ensures history == if r.Pass? then Wrote(old(history), task, InProgress) else old(history)
      ensures r.Fail? ==> Unstartable(old(tasks), agents, old(executions), task, supported, r.error)
      ensures r.Pass? ==> forall e :: !ActiveFor(old(executions), task, e)
      ensures r.Pass? ==> exists a ::
        && FirstFree(old(tasks), agents, old(executions), old(tasks)[task], supported, a)
        && executions == old(executions)[id := Execution(task, Some(a), Assigned, 0, None)]
        && Board(executions, map[]) == Step(Board(old(executions), map[]), StepAssign(id, task, a))
        && tasks == old(tasks)[task := old(tasks)[task].(owner := Some(a), status := InProgress)]
    {
      SameProgress(executions, executions);
      var agent := SelectAgent(tasks[task], supported);
      if agent.None? { return Fail(NoAgentAvailable); }
      var a := agent.value;
      var active := TaskIsActive(task);
      if active { return Fail(TaskAlreadyActive); }
      AddExecution(executions, id, task, a);
      executions := executions[id := Execution(task, Some(a), Assigned, 0, None)];
      Save(task, tasks[task].(owner := Some(a), status := InProgress), true);
      return Pass;
    }

    method ScheduleNext(supported: set<string>, id: int) returns (r: Outcome, task: Option<int>)
      requires Valid() && id !in executions
      modifies this
      ensures Valid() && agents == old(agents) && Extends(old(history), history)
      ensures Progress(old(executions), executions) && OnlyCancels(old(executions), executions)
      ensures r.Fail? ==> tasks == old(tasks) && executions == old(executions)
      ensures task.None? <==> forall t :: t in old(tasks) ==> old(tasks)[t].status != Ready
      ensures task.None? ==> r == Fail(QueueEmpty)
      ensures task.Some? ==> FirstReady(old(tasks), task.value)
      ensures task.Some? && r.Fail? ==> Unstartable(old(tasks), agents, old(executions), task.value, supported, r.error)
      ensures r.Pass? ==> task.Some? && exists a ::
        && FirstFree(old(tasks), agents, old(executions), old(tasks)[task.value], supported, a)
        && executions == old(executions)[id := Execution(task.value, Some(a), Assigned, 0, None)]
        && tasks == old(tasks)[task.value := old(tasks)[task.value].(owner := Some(a), status := InProgress)]
    {
      SameProgress(executions, executions);
      task := SelectReadyTask();
      if task.None? { return Fail(QueueEmpty), None; }
      r := StartWork(task.value, supported, id);
    }

    method ScheduleTask(task: int, supported: set<string>, id: int) returns (r: Outcome)
      requires Valid() && id !in executions
      modifies this
      ensures Valid() && agents == old(agents) && Extends(old(history), history)
      ensures Progress(old(executions), executions) && OnlyCancels(old(executions), executions)
      ensures r.Fail? ==> tasks == old(tasks) && executions == old(executions)
      ensures r == Fail(QueueEmpty) <==> task !in old(tasks) || old(tasks)[task].status != Ready
      ensures r.Fail? && r.error != QueueEmpty ==>
        Unstartable(old(tasks), agents, old(executions), task, supported, r.error)
      ensures r.Pass? ==> exists a ::
        && FirstFree(old(tasks), agents, old(executions), old(tasks)[task], supported, a)
        && executions == old(executions)[id := Execution(task, Some(a), Assigned, 0, None)]
        && tasks == old(tasks)[task := old(tasks)[task].(owner := Some(a), status := InProgress)]
    {
      SameProgress(executions, executions);
      if task !in tasks || tasks[task].status != Ready { return Fail(QueueEmpty); }
      r := StartWork(task, supported, id);
    }

    /** Does another active execution hold this one's task or agent? */
    method Occupied(id: int) returns (busy: bool)
      requires id in executions
      ensures busy <==> Collides(executions, id)
    {
      var task, agent := executions[id].task, executions[id].agent;
      var rest := executions.Keys;
      while rest != {}
        invariant rest <= executions.Keys
        invariant forall e :: e in executions && e !in rest ==> !SharesSlot(executions, id, e)
      {
        var e := Pick(rest);
        var other := executions[e];
        if e != id && Active(other.state) && (other.task == task || (agent.Some? && other.agent == agent)) {
          assert SharesSlot(executions, id, e);
          return true;
        }
        rest := rest - {e};
      }
      return false;
    }

    /** One UPDATE of an execution row, under the partial unique indexes; it does not look at the old state. */
    method Store(id: int, row: Execution) returns (r: Outcome)
      requires Valid() && id in executions && SameWork(row, executions[id]) && RowOk(tasks, row)
      modifies this`executions
      ensures Valid()
      ensures r == if Active(row.state) && Collides(old(executions), id) then Fail(IndexViolation) else Pass
      ensures executions == if r.Pass? then old(executions)[id := row] else old(executions)
    {
      if Active(row.state) {
        var busy := Occupied(id);
        if busy { return Fail(IndexViolation); }
        ActiveRow(executions, id, row);
      } else {
        InactiveRow(executions, id, row);
      }
      executions := executions[id := row];
      return Pass;
    }

    method CancelExecution(id: int) returns (r: Outcome)
      requires Valid()
      modifies this`tasks, this`executions, this`history
      ensures Valid() && Progress(old(executions), executions) && OnlyCancels(old(executions), executions)
      ensures r ==
        if id !in old(executions) then Fail(ExecutionNotFound)
        else if !Active(old(executions)[id].state) then Fail(Conflict) else Pass
      ensures r.Fail? ==> tasks == old(tasks) && executions == old(executions)
      ensures r.Pass? ==> executions == old(executions)[id := old(executions)[id].(state := Cancelled)]
      ensures Board(executions, map[]) == Step(Board(old(executions), map[]), StepCancel(id))
      ensures history == if r.Pass? then Wrote(old(history), executions[id].task, Ready) else old(history)
      ensures r.Pass? ==>
        tasks == old(tasks)[executions[id].task := old(tasks)[executions[id].task].(status := Ready, owner := None)]
    {
      SameProgress(executions, executions);
      CancelSpares(executions, id);
      hide OnlyCancels;
      if id !in executions { return Fail(ExecutionNotFound); }
      var row := executions[id];
      if !Active(row.state) { return Fail(Conflict); }
      StepProgress(executions, id, row.(state := Cancelled));
      assert RowOk(tasks, row.(state := Cancelled));
      assert (tasks[row.task].owner.Some? ==> tasks[row.task].owner.value in agents);
      hide OneTask, OneExecution, HistoryInv, Referenced, Progress, Wrote, Extends;
      r := Store(id, row.(state := Cancelled));
      Save(row.task, tasks[row.task].(status := Ready, owner := None), true);
    }
  }

  // ---------------------------------------------------------------- run_execution

  predicate AllFailed(failures: seq<Option<string>>) {
    forall i :: 0 <= i < |failures| ==> failures[i].Some?
  }

  /** The loop ends with attempt n: all before it failed, and it succeeded or was the last. */
  predicate StopsAt(failures: seq<Option<string>>, n: nat) {
    1 <= n <= |failures| && AllFailed(failures[..n - 1]) && (failures[n - 1].None? || n == |failures|)
  }

  lemma FailedSoFar(failures: seq<Option<string>>, n: nat)
    requires 0 < n <= |failures| && AllFailed(failures[..n - 1])
    ensures AllFailed(failures[..n]) <==> failures[n - 1].Some?
    ensures failures[n - 1].None? ==> !AllFailed(failures)
    ensures n == |failures| ==> failures[..n] == failures
  {
    assert forall i :: 0 <= i < n - 1 ==> failures[..n - 1][i] == failures[i];
  }

  /** The session of run_execution: it reads the row once and from then on tests transitions on its copy.
      Between two calls anything else may happen to the database. */
  class Worker {
    const db: Database
    const id: int
    const task: int
    var seen: ExecutionState

    /** Others keep this too, in every run: see RunOk. */
    ghost predicate Valid()
      reads this, db
    {
      db.Valid() && id in db.executions && db.executions[id].task == task && Cached(db.executions[id], seen)
    }

    constructor (db: Database, id: int)
      requires db.Valid() && id in db.executions
      ensures Valid() && this.db == db && this.id == id && seen == db.executions[id].state
    {
      this.db, this.id, this.task, this.seen := db, id, db.executions[id].task, db.executions[id].state;
    }

    /** ASSIGNED to RUNNING, on the copy; the stored row moves forward unless it was cancelled meanwhile. */
    method Begin() returns (r: Outcome)
      requires Valid()
      modifies this`seen, db`executions
      ensures Valid()
      ensures r ==
        if old(seen) != Assigned then Fail(Conflict)
        else if Collides(old(db.executions), id) then Fail(IndexViolation) else Pass
      ensures db.executions ==
        if r.Pass? then old(db.executions)[id := old(db.executions)[id].(state := Running)] else old(db.executions)
      ensures seen == if r.Pass? then Running else old(seen)
      ensures Board(db.executions, map[id := seen]) ==
        Step(Board(old(db.executions), map[id := old(seen)]), StepBegin(id))
      ensures Progress(old(db.executions), db.executions) <==> (r.Pass? ==> old(db.executions)[id].state == old(seen))
    {
      SameProgress(db.executions, db.executions);
      BeginIsStep(db.executions, id, seen);
      if Running !in AllowedTransitions(seen) { return Fail(Conflict); }
      var row := db.executions[id].(state := Running);
      assert RowOk(db.tasks, row) && seen == Assigned;
      ForwardStep(seen, Running);
      hide Database.Valid, Collides, Progress, AllowedTransitions, Step, Forward, RowOk;
      OverwriteProgress(db.executions, id, seen, row);
      r := db.Store(id, row);
      if r.Pass? { seen := Running; }
    }

    /** The pending changes of the copy and its task reach the database together or not at all. */
    method Flush(row: Execution, status: TaskStatus) returns (r: Outcome)
      requires Valid() && SameWork(row, db.executions[id]) && row.attempts <= MAX_ATTEMPTS && row.state != Pending
      requires status != InProgress && (status == Done ==> db.tasks[task].status == Review)
      modifies this`seen, db`tasks, db`executions, db`history
      ensures Valid()
      ensures r == if Active(row.state) && Collides(old(db.executions), id) then Fail(IndexViolation) else Pass
      ensures db.executions == if r.Pass? then old(db.executions)[id := row] else old(db.executions)
      ensures db.tasks ==
        if r.Pass? then old(db.tasks)[task := old(db.tasks)[task].(status := status)] else old(db.tasks)
      ensures db.history == if r.Pass? then Wrote(old(db.history), task, status) else old(db.history)
      ensures seen == if r.Pass? then row.state else old(seen)
    {
      assert RowOk(db.tasks, row);
      hide OneTask, OneExecution, HistoryInv, Referenced, RowOk, Collides, Wrote, Extends;
      r := db.Store(id, row);
      if r.Fail? { return; }
      db.SetStatus(task, status);
      seen := row.state;
    }

    /** A failed attempt: recorded and retried, or, as the last one, the end of the execution. */
    method Failure(attempt: nat, failure: Option<string>) returns (r: Outcome)
      requires Valid() && 1 <= attempt <= MAX_ATTEMPTS && failure.Some?
      modifies this`seen, db`tasks, db`executions, db`history
      ensures Valid()
      ensures r == if attempt == MAX_ATTEMPTS && !Active(old(seen)) then Fail(Conflict) else Pass
      ensures db.executions == AfterAttempt(old(db.executions), id, attempt, failure, r)
      ensures seen == if attempt == MAX_ATTEMPTS && r.Pass? then Failed else old(seen)
      ensures if attempt == MAX_ATTEMPTS && r.Pass?
        then db.tasks == old(db.tasks)[task := old(db.tasks)[task].(status := Blocked)]
          && db.history == Wrote(old(db.history), task, Blocked)
        else db.tasks == old(db.tasks) && db.history == old(db.history)
    {
      var recorded := db.executions[id].(attempts := attempt, error := failure);
      if Active(recorded.state) { ActiveNeverCollides(db.executions, id); }
      r := db.Store(id, recorded);
      if attempt < MAX_ATTEMPTS { return Pass; }
      if Failed !in AllowedTransitions(seen) { return Fail(Conflict); }
      ghost var table, middle := old(db.executions), db.executions;
      r := Flush(recorded.(state := Failed), Blocked);
      UpdateTwice(table, id, middle[id], db.executions[id]);
    }

    /** The success path: execution and task go through review to the end in one transaction. */
    method Success(attempt: nat) returns (r: Outcome)
      requires Valid() && 1 <= attempt <= MAX_ATTEMPTS
      modifies this`seen, db`tasks, db`executions, db`history
      ensures Valid()
      ensures r ==
        if old(seen) != Running then Fail(Conflict)
        else if Collides(old(db.executions), id) then Fail(IndexViolation) else Pass
      ensures db.executions == AfterAttempt(old(db.executions), id, attempt, None, r)
      ensures seen == if r.Pass? then Completed else old(seen)
      ensures if r.Pass?
        then db.tasks == old(db.tasks)[task := old(db.tasks)[task].(status := Done)]
          && db.history == Wrote(Wrote(old(db.history), task, Review), task, Done)
        else db.tasks == old(db.tasks) && db.history == old(db.history)
    {
      hide OneTask, OneExecution, HistoryInv, Referenced, RowOk, Collides, Wrote;
      if WaitingReview !in AllowedTransitions(seen) { return Fail(Conflict); }
      hide AllowedTransitions;
      var row := db.executions[id].(attempts := attempt, error := None);
      ghost var board, table := db.tasks, db.executions;
      r := Flush(row.(state := WaitingReview), Review);
      if r.Fail? { return; }
      ghost var reviewed, inReview := db.executions, db.tasks;
      r := Flush(row.(state := Completed), Done);
      UpdateTwice(table, id, reviewed[id], db.executions[id]);
      UpdateTwice(board, task, inReview[task], db.tasks[task]);
    }

    /** One turn of the retry loop, with anything in between the turns: the stored state moves forward
        unless this attempt ends the execution and somebody had cancelled it. */
    method Attempt(attempt: nat, failure: Option<string>) returns (r: Outcome, again: bool)
      requires Valid() && 1 <= attempt <= MAX_ATTEMPTS
      modifies this`seen, db`tasks, db`executions, db`history
      ensures Valid()
      ensures again <==> failure.Some? && attempt < MAX_ATTEMPTS
      ensures r == AttemptOutcome(old(db.executions), id, old(seen), attempt, failure)
      ensures db.executions == AfterAttempt(old(db.executions), id, attempt, failure, r)
      ensures seen == SeenAfter(old(seen), attempt, failure, r)
      ensures old(seen) == Running ==>
        Board(db.executions, map[id := seen]) ==
        Step(Board(old(db.executions), map[id := old(seen)]), StepAttempt(id, attempt, failure))
      ensures db.tasks ==
        if again || r.Fail? then old(db.tasks)
        else old(db.tasks)[task := old(db.tasks)[task].(status := if failure.Some? then Blocked else Done)]
      ensures Extends(old(db.history), db.history)
      ensures Progress(old(db.executions), db.executions) <==>
        (r.Pass? && !again ==> old(db.executions)[id].state == old(seen))
    {
      again := failure.Some? && attempt < MAX_ATTEMPTS;
      ghost var before, copy := db.executions, seen;
      AttemptIsStep(before, id, attempt, failure);
      WroteExtends(db.history, task, Review, Done);
      WroteExtends(db.history, task, Blocked, Done);
      hide Database.Valid, Progress, Collides, Step, AfterAttempt, Cached, Extends, Wrote;
      if failure.Some? { r := Failure(attempt, failure); } else { r := Success(attempt); }
      AttemptProgress(before, id, copy, attempt, failure, r);
    }

    /** run_execution with nobody in between: it ends FAILED if and only if every attempt failed. */
    method Run(failures: seq<Option<string>>) returns (r: Outcome)
      requires Valid() && db.executions[id].state == seen && |failures| == MAX_ATTEMPTS
      modifies this`seen, db`tasks, db`executions, db`history
      ensures Valid() && Progress(old(db.executions), db.executions) && Extends(old(db.history), db.history)
      ensures r == if old(seen) == Assigned then Pass else Fail(Conflict)
      ensures r.Fail? ==> db.tasks == old(db.tasks) && db.executions == old(db.executions)
      ensures r.Pass? ==> exists n: nat ::
        StopsAt(failures, n) && Ended(old(db.executions), old(db.tasks), n, failures[n - 1])
      ensures r.Pass? ==> db.executions[id].state == if AllFailed(failures) then Failed else Completed
    {
      if Active(seen) { ActiveNeverCollides(db.executions, id); }
      r := Begin();
      if r.Fail? { return; }
      StartGoing(old(db.executions), old(db.tasks));
      hide Database.Valid, Progress, Extends, Cached, Going, Collides;
      Retry(failures, old(db.executions), old(db.tasks), old(db.history));
    }

    lemma StartGoing(executions: Executions, tasks: Tasks)
      requires Valid() && id in executions && db.executions == executions[id := executions[id].(state := Running)]
      requires executions[id].task == task && db.tasks == tasks && seen == Running
      ensures Going(executions, tasks) && Extends(db.history, db.history)
    {
    }

    /** The retry loop. */
    method Retry(failures: seq<Option<string>>, ghost executions: Executions, ghost tasks: Tasks,
                 ghost history: History)
      requires Valid() && Going(executions, tasks) && |failures| == MAX_ATTEMPTS
      requires Progress(executions, db.executions) && Extends(history, db.history)
      modifies this`seen, db`tasks, db`executions, db`history
      ensures Valid() && Progress(executions, db.executions) && Extends(history, db.history)
      ensures exists n: nat :: StopsAt(failures, n) && Ended(executions, tasks, n, failures[n - 1])
      ensures db.executions[id].state == if AllFailed(failures) then Failed else Completed
    {
      hide Database.Valid, Progress, Extends, Cached, Ended;
      assert task in tasks && id in executions;
      hide Going;
      for attempt := 1 to MAX_ATTEMPTS + 1
        invariant attempt <= MAX_ATTEMPTS && Valid() && Going(executions, tasks)
        invariant Progress(executions, db.executions) && Extends(history, db.history)
        invariant AllFailed(failures[..attempt - 1])
      {
        var again := Turn(attempt, failures[attempt - 1], executions, tasks, history);
        FailedSoFar(failures, attempt);
        if !again {
          assert StopsAt(failures, attempt) && Ended(executions, tasks, attempt, failures[attempt - 1]);
          return;
        }
      }
    }

    /** One turn of the loop while nobody else writes. */
    method Turn(attempt: nat, failure: Option<string>, ghost executions: Executions, ghost tasks: Tasks,
                ghost history: History)
      returns (again: bool)
      requires Valid() && Going(executions, tasks) && 1 <= attempt <= MAX_ATTEMPTS
      requires Progress(executions, db.executions) && Extends(history, db.history)
      modifies this`seen, db`tasks, db`executions, db`history
      ensures Valid() && Progress(executions, db.executions) && Extends(history, db.history)
      ensures again <==> failure.Some? && attempt < MAX_ATTEMPTS
      ensures if again then Going(executions, tasks) else Ended(executions, tasks, attempt, failure)
      ensures !again ==> db.executions[id].state == if failure.Some? then Failed else Completed
    {
      ghost var middle, past := db.executions, db.history;
      NoCollision();
      AttemptCases(middle, id, attempt, failure);
      hide Database.Valid, Progress, Extends, Collides, Step, AfterAttempt, AttemptOutcome, SeenAfter, Cached;
      var r;
      r, again := Attempt(attempt, failure);
      OnlyRowTwice(executions, middle, db.executions, id);
      hide OnlyRow;
      ProgressTransitive(executions, middle, db.executions);
      ExtendsTransitive(history, past, db.history);
    }

    /** Between two turns only the row's count and error have changed. */
    ghost predicate Going(executions: Executions, tasks: Tasks)
      reads this, db
    {
      && OnlyRow(executions, db.executions, id) && db.tasks == tasks && task in tasks
      && db.executions[id].state == seen == Running
    }

    /** After n attempts: the row carries the count and the last error, the task its status, nothing else changed. */
    ghost predicate Ended(executions: Executions, tasks: Tasks, n: nat, failure: Option<string>)
      requires id in executions && task in tasks
      reads this, db
    {
      && db.executions == executions[id :=
        Execution(task, executions[id].agent, if failure.Some? then Failed else Completed, n, failure)]
      && db.tasks == tasks[task := tasks[task].(status := if failure.Some? then Blocked else Done)]
    }

    lemma NoCollision()
      requires Valid() && Active(db.executions[id].state)
      ensures !Collides(db.executions, id)
    {
      ActiveNeverCollides(db.executions, id);
    }
  }

  /** One agent, one task, and the execution that joins them. */
  method OneAssigned(kind: string) returns (db: Database)
    ensures fresh(db) && db.Valid() && db.executions == map[1 := Execution(1, Some(1), Assigned, 0, None)]
    ensures 1 in db.tasks
  {
    db := new Database();
    db.CreateAgent(Agent(kind, None, true), 1);
    var r := db.CreateTask(Task(Ready, High, None, None, 0), 1);
    assert FreeAgent(db.tasks, db.agents, db.executions, db.tasks[1], {kind}, 1);
    ghost var executions := db.executions;
    assert forall e :: !ActiveFor(executions, 1, e);
    assert forall a :: FreeAgent(db.tasks, db.agents, db.executions, db.tasks[1], {kind}, a) ==> a == 1;
    hide OneTask, OneExecution, HistoryInv, Referenced, FreeAgent, ActiveFor, Progress, OnlyCancels, Extends;
    r := db.ScheduleTask(1, {kind}, 1);
  }

  method OneRunning(kind: string) returns (db: Database, worker: Worker)
    ensures fresh(db) && fresh(worker) && worker.db == db && worker.id == 1 && worker.Valid() && worker.seen == Running
    ensures db.executions == map[1 := Execution(1, Some(1), Running, 0, None)]
  {
    db := OneAssigned(kind);
    worker := new Worker(db, 1);
    OneRow(db.executions);
    hide OneTask, OneExecution, HistoryInv, Referenced, Collides, Progress, Extends, Cached;
    var r := worker.Begin();
  }

  /** Its first attempt has failed. */
  method FailedOnce(kind: string, reason: string) returns (db: Database, worker: Worker)
    ensures fresh(db) && fresh(worker) && worker.db == db && worker.id == 1 && worker.Valid() && worker.seen == Running
    ensures db.executions == map[1 := Execution(1, Some(1), Running, 1, Some(reason))]
  {
    db, worker := OneRunning(kind);
    hide OneTask, OneExecution, HistoryInv, Referenced, Collides, Progress, Extends, Cached;
    var r, again := worker.Attempt(1, Some(reason));
  }

  /** A run in which CANCELLED becomes COMPLETED: the first attempt fails, the execution is cancelled, and the
      second attempt succeeds on the worker's copy. The task, requeued by the cancellation, ends DONE. */
  method CancelledRunCompletes(kind: string, reason: string) returns (db: Database, ghost cancelled: Executions)
    ensures fresh(db) && db.Valid()
    ensures cancelled == map[1 := Execution(1, Some(1), Cancelled, 1, Some(reason))]
    ensures db.executions == map[1 := Execution(1, Some(1), Completed, 2, None)] && !Progress(cancelled, db.executions)
    ensures 1 in db.tasks && db.tasks[1].status == Done
  {
    var worker;
    db, worker := FailedOnce(kind, reason);
    hide OneTask, OneExecution, HistoryInv, Referenced, Progress, Extends;
    var r := db.CancelExecution(1);
    cancelled := db.executions;
    OneRow(cancelled);
    hide OnlyCancels, Collides;
    var again;
    r, again := worker.Attempt(2, None);
  }

  lemma OneRow(executions: Executions)
    requires executions.Keys == {1}
    ensures !Collides(executions, 1)
  {
    assert forall e :: e in executions ==> e == 1;
  }
}
