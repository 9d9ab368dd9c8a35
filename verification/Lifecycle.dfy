/**
 The life of process instances over the live and the history tables (`service/runtime_service_impl.go`,
 `service/instance_lock.go`). `Db` is the state of the tables; the methods of `Store` change them row by row and
 are proved against functions on `Db`.
 */
module Lifecycle {
  import opened Text
  import opened Definitions
  import opened Walks

  datatype InstanceStatus = Draft | Running | Paused | Finished | Stopped | Cancelled | Failed | Deleted

  datatype Instance = Instance(status: InstanceStatus, parent: Id, process: Id)

  datatype Task = Task(instance: Id, status: TaskStatus, assignee: Id)

  datatype Db = Db(
    live: map<Id, Instance>,
    hist: map<Id, Instance>,
    tasks: map<Id, Task>,
    hiTasks: map<Id, Task>,
    issued: set<Id>)

  datatype Answer = Done | NotFound | Terminal | Refused

  predicate IsTerminalInstance(s: InstanceStatus) {
    s == Finished || s == Stopped || s == Cancelled || s == Failed
  }

  predicate IsOpen(s: InstanceStatus) {
    s == Running || s == Paused
  }

  // ---- Archiving ----

  /** Which tasks are voided when their instance is archived. */
  datatype Voiding = OpenTasks | AllUnfinished

  /** The statuses that termination and deletion look for. */
  predicate IsOpenTask(s: TaskStatus) {
    s == TaskStatus.Active || s == Pending || s == Suspended
  }

  function Voided(v: Voiding, s: TaskStatus): TaskStatus {
    if (v == OpenTasks && IsOpenTask(s)) || (v == AllUnfinished && !IsTerminalTask(s)) then Terminated else s
  }

  function VoidTask(v: Voiding, t: Task): Task {
    t.(status := Voided(v, t.status))
  }

  function Kept(rows: map<Id, Instance>, s: set<Id>): map<Id, Instance> {
    map i | i in rows && i !in s :: rows[i]
  }

  function Closed(rows: map<Id, Instance>, s: set<Id>, status: InstanceStatus): map<Id, Instance> {
    map i | i in rows && i in s :: rows[i].(status := status)
  }

  function TasksKept(rows: map<Id, Task>, s: set<Id>): map<Id, Task> {
    map t | t in rows && rows[t].instance !in s :: rows[t]
  }

  function TasksClosed(rows: map<Id, Task>, s: set<Id>, v: Voiding): map<Id, Task> {
    map t | t in rows && rows[t].instance in s :: VoidTask(v, rows[t])
  }

  /** The rows of the instances s move to the history tables with the given status. */
  function Archive(db: Db, s: set<Id>, status: InstanceStatus, v: Voiding): Db {
    Db(Kept(db.live, s), db.hist + Closed(db.live, s, status), TasksKept(db.tasks, s),
       db.hiTasks + TasksClosed(db.tasks, s, v), db.issued)
  }

  lemma KeptMore(rows: map<Id, Instance>, hist: map<Id, Instance>, s: set<Id>, i: Id, status: InstanceStatus)
    ensures Kept(Kept(rows, s), {i}) == Kept(rows, s + {i})
    ensures (hist + Closed(rows, s, status)) + Closed(Kept(rows, s), {i}, status) == hist + Closed(rows, s + {i}, status)
  {
  }

  lemma TasksKeptMore(rows: map<Id, Task>, hist: map<Id, Task>, s: set<Id>, i: Id, v: Voiding)
    ensures TasksKept(TasksKept(rows, s), {i}) == TasksKept(rows, s + {i})
    ensures (hist + TasksClosed(rows, s, v)) + TasksClosed(TasksKept(rows, s), {i}, v) == hist + TasksClosed(rows, s + {i}, v)
  {
  }

  /** Archiving one instance after others is archiving them together. */
  lemma ArchiveMore(db: Db, s: set<Id>, i: Id, status: InstanceStatus, v: Voiding)
    ensures Archive(Archive(db, s, status, v), {i}, status, v) == Archive(db, s + {i}, status, v)
  {
    KeptMore(db.live, db.hist, s, i, status);
    TasksKeptMore(db.tasks, db.hiTasks, s, i, v);
  }

  lemma CloseOne(db: Db, id: Id, status: InstanceStatus)
    requires id in db.live
    ensures db.hist + Closed(db.live, {id}, status) == db.hist[id := db.live[id].(status := status)]
    ensures Kept(db.live, {id}) == db.live - {id}
    ensures TasksKept(db.tasks, {id}) == map t | t in db.tasks && db.tasks[t].instance != id :: db.tasks[t]
  {
  }

  // ---- Children ----

  /** The live children a termination goes on to. */
  function OpenChildren(live: map<Id, Instance>, parent: Id): set<Id> {
    set c | c in live && live[c].parent == parent && IsOpen(live[c].status)
  }

  ghost function Family(live: map<Id, Instance>): Adj {
    map p | p in (set c | c in live :: live[c].parent) :: SortedKeys(OpenChildren(live, p))
  }

  lemma FamilyEdges(live: map<Id, Instance>, p: Id, c: Id)
    ensures c in Succ(Family(live), p) <==> c in OpenChildren(live, p)
    ensures c in OpenChildren(live, p) <==> c in live && live[c].parent == p && (live[c].status == Running || live[c].status == Paused)
  {
  }

  /** The root and every instance reached from it through open children. */
  ghost function Descent(live: map<Id, Instance>, root: Id): set<Id> {
    Region(Family(live), root)
  }

  lemma SnocElems(queue: seq<Id>, x: Id)
    ensures Elems(queue + [x]) == Elems(queue) + {x}
  {
  }

  /** The edges of the graph are the open children. */
  ghost predicate Draws(adj: Adj, live: map<Id, Instance>) {
    forall p, c :: c in Succ(adj, p) <==> c in OpenChildren(live, p)
  }

  /** One turn of the worklist: the head is done once its children are seen and queued. */
  lemma ExploredStep(adj: Adj, done: set<Id>, queue: seq<Id>, seen: set<Id>, kids: set<Id>, queue': seq<Id>)
    requires queue != [] && Explored(adj, done, queue, seen) && kids == Elems(Succ(adj, queue[0]))
    requires Elems(queue') == Elems(queue[1..]) + (kids - seen)
    ensures Explored(adj, done + {queue[0]}, queue', seen + kids)
  {
    QueueSplit(queue, []);
  }

  lemma AllSeen(adj: Adj, done: set<Id>, seen: set<Id>, root: Id)
    requires root in seen && seen <= Region(adj, root) && Explored(adj, done, [], seen)
    ensures seen == Region(adj, root)
  {
    ExploredAll(adj, done, seen, root);
  }

  lemma StaysInRegion(adj: Adj, root: Id, seen: set<Id>, parent: Id)
    requires seen <= Region(adj, root) && parent in seen
    ensures seen + Elems(Succ(adj, parent)) <= Region(adj, root)
  {
    RegionClosed(adj, root);
  }

  /** Seeing something new leaves less to be seen. */
  lemma FewerLeft(all: set<Id>, seen: set<Id>, more: set<Id>)
    requires more <= all
    ensures seen + more == seen || |all - (seen + more)| < |all - seen|
  {
    if x :| x in more && x !in seen { SmallerSet(all - (seen + more), all - seen, x); } else { assert seen + more == seen; }
  }

  // ---- The invariant ----

  /** An instance is in one table only, and its status fits the table. */
  predicate RowOk(db: Db, i: Id) {
    && (i in db.live ==> i !in db.hist && i in db.issued && (db.live[i].status == Draft || IsOpen(db.live[i].status)))
    && (i in db.hist ==> i in db.issued && db.hist[i].status in {Finished, Stopped, Deleted})
  }

  /** A task is in the table that goes with its instance's; drafts have none, and completed instances only ended ones. */
  predicate TaskOk(db: Db, t: Id) {
    && (t in db.tasks ==> t !in db.hiTasks && db.tasks[t].instance in db.live && db.live[db.tasks[t].instance].status != Draft)
    && (t in db.hiTasks ==>
          var i := db.hiTasks[t].instance;
          i in db.hist && (db.hist[i].status == Finished ==> IsTerminalTask(db.hiTasks[t].status)))
  }

  ghost predicate Valid(db: Db) {
    NO_ID !in db.issued && (forall i :: RowOk(db, i)) && (forall t :: TaskOk(db, t))
  }

  // ---- Steps ----

  datatype Step =
    | Start(id: Id, parent: Id, process: Id, isDraft: bool)
    | AddTask(task: Id, row: Task)
    | SetTask(task: Id, to: TaskStatus)
    | Suspend(id: Id)
    | Activate(id: Id)
    | Complete(id: Id, seen: Option<InstanceStatus>)
    | Terminate(id: Id)
    | Delete(id: Id)

  function SuspendTask(t: Task): Task {
    if t.status == TaskStatus.Active || t.status == Pending then t.(status := Suspended) else t
  }

  /** A suspended task with an assignee becomes active, one without goes back to the candidates. */
  function ActivateTask(t: Task): Task {
    if t.status == Suspended then t.(status := if t.assignee != NO_ID then TaskStatus.Active else Pending) else t
  }

  function OnTasksOf(rows: map<Id, Task>, i: Id, f: Task -> Task): map<Id, Task> {
    map t | t in rows :: if rows[t].instance == i then f(rows[t]) else rows[t]
  }

  function SetStatus(rows: map<Id, Instance>, i: Id, status: InstanceStatus): map<Id, Instance> {
    if i in rows then rows[i := rows[i].(status := status)] else rows
  }

  /** What `WithInstanceTx` answers before it runs its body. */
  function Guard(db: Db, i: Id): Answer {
    if i !in db.live then NotFound else if IsTerminalInstance(db.live[i].status) then Terminal else Done
  }

  function AnswerOf(db: Db, step: Step): Answer {
    match step
    case Start(id, parent, _, _) => if id == NO_ID || id in db.issued then Refused else Done
    case AddTask(task, row) =>
      if task in db.tasks || task in db.hiTasks then Refused
      else if Guard(db, row.instance) == Done && db.live[row.instance].status == Draft then Refused
      else Guard(db, row.instance)
    case SetTask(task, _) => if task in db.tasks then Done else NotFound
    case Suspend(id) => if Guard(db, id) == Done && db.live[id].status == Draft then Refused else Guard(db, id)
    case Activate(id) => Guard(db, id)
    case Complete(id, seen) =>
      if seen.None? then NotFound
      else if seen.value == Finished then Done
      else if seen.value != Running then Refused
      else Guard(db, id)
    case Terminate(id) => if Guard(db, id) == Done && db.live[id].status == Draft then Refused else Guard(db, id)
    case Delete(id) => if Guard(db, id) == NotFound && id in db.hist then Done else Guard(db, id)
  }

  /** The tables after a step; a step that is not answered with `Done` is rolled back. */
  ghost function Apply(db: Db, step: Step): Db {
    if AnswerOf(db, step) != Done then db else
      match step
      case Start(id, parent, process, isDraft) =>
        db.(live := db.live[id := Instance(if isDraft then Draft else Running, parent, process)], issued := db.issued + {id})
      case AddTask(task, row) => db.(tasks := db.tasks[task := row])
      case SetTask(task, to) => db.(tasks := db.tasks[task := db.tasks[task].(status := to)])
      case Suspend(id) =>
        if db.live[id].status == Paused then db
        else db.(live := SetStatus(db.live, id, Paused), tasks := OnTasksOf(db.tasks, id, SuspendTask))
      case Activate(id) =>
        if db.live[id].status == Running then db
        else if db.live[id].status == Draft then db.(live := SetStatus(db.live, id, Running))
        else db.(live := SetStatus(db.live, id, Running), tasks := OnTasksOf(db.tasks, id, ActivateTask))
      case Complete(id, seen) =>
        if seen == Some(Finished) then db else Archive(db, {id}, Finished, AllUnfinished)
      case Terminate(id) => Archive(db, Descent(db.live, id), Stopped, OpenTasks)
      case Delete(id) =>
        if id !in db.live then db.(hist := SetStatus(db.hist, id, Deleted))
        else if db.live[id].status == Draft then db.(live := db.live - {id})
        else Archive(db, {id}, Deleted, OpenTasks)
  }

  lemma StepRowOk(db: Db, step: Step, i: Id)
    requires RowOk(db, i)
    ensures RowOk(Apply(db, step), i)
  {
  }

  lemma GoingOnTaskOk(db: Db, step: Step, t: Id)
    requires TaskOk(db, t) && (t in db.tasks ==> RowOk(db, db.tasks[t].instance)) && (t in db.hiTasks ==> RowOk(db, db.hiTasks[t].instance))
    requires !(step.Complete? || step.Terminate? || step.Delete?)
    ensures TaskOk(Apply(db, step), t)
  {
  }

  lemma StepTaskOk(db: Db, step: Step, t: Id)
    requires Valid(db)
    ensures TaskOk(Apply(db, step), t)
  {
    assert TaskOk(db, t);
    if t in db.tasks { assert RowOk(db, db.tasks[t].instance); }
    if t in db.hiTasks { assert RowOk(db, db.hiTasks[t].instance); }
    if !(step.Complete? || step.Terminate? || step.Delete?) { GoingOnTaskOk(db, step, t); }
  }

  lemma StepKeeps(db: Db, step: Step)
    requires Valid(db)
    ensures Valid(Apply(db, step))
  {
    forall i ensures RowOk(Apply(db, step), i) { assert RowOk(db, i); StepRowOk(db, step, i); }
    forall t ensures TaskOk(Apply(db, step), t) { StepTaskOk(db, step, t); }
  }

  // ---- The operations ----

  /** The tables as a transaction sees them. */
  datatype Tables = Tables(live: map<Id, Instance>, hist: map<Id, Instance>, tasks: map<Id, Task>, hiTasks: map<Id, Task>)

  /** What a transaction leaves behind: the changed tables, and the hooks it registered, with their later success. */
  datatype Work = Work(tables: Tables, hooks: seq<bool>)

  datatype Ending = Blocked(answer: Answer) | RolledBack | HookFailed | Committed

  /** The tables. Every method is one transaction: it changes nothing unless it answers `Done`. */
  class Store {
    var live: map<Id, Instance>
    var hist: map<Id, Instance>
    var tasks: map<Id, Task>
    var hiTasks: map<Id, Task>
    ghost var issued: set<Id>

    ghost function Now(): Db
      reads this
    {
      Db(live, hist, tasks, hiTasks, issued)
    }

    constructor ()
      ensures Now() == EMPTY
    {
      live, hist, tasks, hiTasks, issued := map[], map[], map[], map[], {};
    }

    /** The row is locked: it must exist and must not be frozen. In consistent tables no live row is frozen. */
    method Lock(id: Id) returns (answer: Answer)
      ensures answer == Guard(Now(), id)
      ensures Valid(Now()) ==> (answer == Done <==> id in live) && answer != Terminal
    {
      assert Valid(Now()) ==> RowOk(Now(), id);
      if id !in live { return NotFound; }
      if IsTerminalInstance(live[id].status) { return Terminal; }
      return Done;
    }

    function Current(): Tables
      reads this
    {
      Tables(live, hist, tasks, hiTasks)
    }

    /**
     `WithInstanceTx`: the guarded transaction, and behind its commit the hooks in order up to the first that
     fails. No hook runs unless the changes stand, and the changes stand exactly if the error, if any, came from
     a hook. `body` is what the transaction does to the tables, `None` if it fails; `commits` tells whether the
     database accepts the commit.
     */
    method WithInstanceTx(id: Id, body: Tables -> Option<Work>, commits: bool) returns (end: Ending, ran: nat)
      modifies this
      ensures (ran > 0 || end == HookFailed || end == Committed) ==>
                Guard(old(Now()), id) == Done && commits && body(old(Current())).Some? && Current() == body(old(Current())).value.tables
      ensures end.Blocked? || end.RolledBack? ==> Now() == old(Now()) && ran == 0
      ensures end.Blocked? <==> Guard(old(Now()), id) != Done
      ensures end == RolledBack <==> Guard(old(Now()), id) == Done && !(commits && body(old(Current())).Some?)
      ensures end == Committed ==> ran == |body(old(Current())).value.hooks| && false !in body(old(Current())).value.hooks
      ensures end == HookFailed ==>
                var hooks := body(old(Current())).value.hooks;
                0 < ran <= |hooks| && !hooks[ran - 1] && false !in hooks[..ran - 1]
      ensures issued == old(issued)
    {
      var answer := Lock(id);
      if answer != Done { return Blocked(answer), 0; }
      var work := body(Current());
      if work.None? || !commits { return RolledBack, 0; }
      live, hist, tasks, hiTasks := work.value.tables.live, work.value.tables.hist, work.value.tables.tasks, work.value.tables.hiTasks;
      ran := 0;
      for i := 0 to |work.value.hooks|
        invariant ran == i && false !in work.value.hooks[..i]
      {
        ran := i + 1;
        if !work.value.hooks[i] { return HookFailed, ran; }
      }
      return Committed, ran;
    }

    /** `startInstanceCore`; the id comes from the generator, which never repeats one. */
    method StartInstance(id: Id, parent: Id, process: Id, isDraft: bool)
      requires Valid(Now()) && id != NO_ID && id !in issued
      modifies this
      ensures Now() == Apply(old(Now()), Step.Start(id, parent, process, isDraft)) && Valid(Now())
    {
      StepKeeps(Now(), Step.Start(id, parent, process, isDraft));
      live := live[id := Instance(if isDraft then Draft else Running, parent, process)];
      issued := issued + {id};
    }

    /** The tasks of an instance as they are archived. */
    method ClosingTasks(id: Id, v: Voiding) returns (closing: map<Id, Task>)
      ensures closing == TasksClosed(tasks, {id}, v)
    {
      closing := map[];
      var rest := set t | t in tasks && tasks[t].instance == id;
      while rest != {}
        invariant forall t | t in rest :: t in tasks && tasks[t].instance == id
        invariant closing == map t | t in tasks && tasks[t].instance == id && t !in rest :: VoidTask(v, tasks[t])
        decreases rest
      {
        var t :| t in rest;
        var task := tasks[t];
        if v == OpenTasks {
          if task.status == TaskStatus.Active || task.status == Pending || task.status == Suspended {
            task := task.(status := Terminated);
          }
        } else if task.status in {Created, Waiting, Pending, Assigned, TaskStatus.Active, Delegated, Suspended} {
          task := task.(status := Terminated);
        }
        closing := closing[t := task];
        rest := rest - {t};
      }
    }

    /** Move an instance and its tasks to the history tables. */
    method ArchiveInstance(id: Id, status: InstanceStatus, v: Voiding)
      requires id in live
      modifies this
      ensures Now() == Archive(old(Now()), {id}, status, v)
    {
      var closing := ClosingTasks(id, v);
      CloseOne(Now(), id, status);
      hiTasks := hiTasks + closing;
      hist := hist[id := live[id].(status := status)];
      tasks := map t | t in tasks && tasks[t].instance != id :: tasks[t];
      live := live - {id};
    }

    /** The cascade under a row lock: `suspendProcessInstanceInternal`. */
    method SuspendInstance(id: Id) returns (answer: Answer)
      requires Valid(Now())
      modifies this
      ensures answer == AnswerOf(old(Now()), Step.Suspend(id))
      ensures Now() == Apply(old(Now()), Step.Suspend(id)) && Valid(Now())
    {
      StepKeeps(Now(), Step.Suspend(id));
      answer := Lock(id);
      if answer != Done { return; }
      if live[id].status == Paused { return Done; }
      if live[id].status == Draft { return Refused; }
      tasks := map t | t in tasks ::
        if tasks[t].instance == id && (tasks[t].status == TaskStatus.Active || tasks[t].status == Pending)
        then tasks[t].(status := Suspended) else tasks[t];
      assert tasks == OnTasksOf(old(tasks), id, SuspendTask);
      live := live[id := live[id].(status := Paused)];
    }

    /** `activateProcessInstanceInternal`. `drive` tells the caller to start the engine: a draft was turned into a running instance. */
    method ActivateInstance(id: Id) returns (answer: Answer, drive: bool)
      requires Valid(Now())
      modifies this
      ensures answer == AnswerOf(old(Now()), Step.Activate(id))
      ensures Now() == Apply(old(Now()), Step.Activate(id)) && Valid(Now())
      ensures drive <==> id in old(live) && old(live[id].status) == Draft
    {
      StepKeeps(Now(), Step.Activate(id));
      drive := false;
      answer := Lock(id);
      if answer != Done {
        assert id in live ==> RowOk(Now(), id);
        return;
      }
      if live[id].status == Running { return; }
      drive := live[id].status == Draft;
      if !drive {
        tasks := map t | t in tasks ::
          if tasks[t].instance == id && tasks[t].status == Suspended
          then tasks[t].(status := if tasks[t].assignee != NO_ID then TaskStatus.Active else Pending) else tasks[t];
      }
      live := live[id := live[id].(status := Running)];
    }

    /** `CompleteProcessInstance`; `seen` is the status read before the row was locked. */
    method CompleteInstance(id: Id, seen: Option<InstanceStatus>) returns (answer: Answer)
      requires Valid(Now())
      modifies this
      ensures answer == AnswerOf(old(Now()), Step.Complete(id, seen))
      ensures Now() == Apply(old(Now()), Step.Complete(id, seen)) && Valid(Now())
    {
      StepKeeps(Now(), Step.Complete(id, seen));
      if seen.None? { return NotFound; }
      if seen.value == Finished { return Done; }
      if seen.value != Running { return Refused; }
      answer := Lock(id);
      if answer == Done { ArchiveInstance(id, Finished, AllUnfinished); }
    }

    /** The open children of one instance, in any order: archived, and queued for their own children. */
    method TerminateChildren(parent: Id, seen: set<Id>, queue: seq<Id>, ghost db: Db) returns (seen': set<Id>, queue': seq<Id>)
      requires Now() == Archive(db, seen, Stopped, OpenTasks)
      modifies this
      ensures Now() == Archive(db, seen', Stopped, OpenTasks)
      ensures seen' == seen + OpenChildren(db.live, parent)
      ensures Elems(queue') == Elems(queue) + (OpenChildren(db.live, parent) - seen) && (seen' == seen ==> queue' == queue)
    {
      var children := OpenChildren(live, parent);
      seen', queue' := seen, queue;
      assert children == OpenChildren(db.live, parent) - seen;
      var rest := children;
      while rest != {}
        invariant rest <= children && seen' == seen + (children - rest) && Now() == Archive(db, seen', Stopped, OpenTasks)
        invariant Elems(queue') == Elems(queue) + (children - rest) && (rest == children ==> queue' == queue)
        decreases rest
      {
        var child :| child in rest;
        rest := rest - {child};
        if child in seen' { continue; }
        ArchiveMore(db, seen', child, Stopped, OpenTasks);
        seen' := seen' + {child};
        ArchiveInstance(child, Stopped, OpenTasks);
        SnocElems(queue', child);
        queue' := queue' + [child];
      }
    }

    /** `TerminateInTx`: the instance itself, and then level by level what runs below it. */
    method TerminateInstance(id: Id) returns (answer: Answer)
      requires Valid(Now())
      modifies this
      ensures answer == AnswerOf(old(Now()), Step.Terminate(id))
      ensures Now() == Apply(old(Now()), Step.Terminate(id)) && Valid(Now())
    {
      StepKeeps(Now(), Step.Terminate(id));
      answer := Lock(id);
      if answer != Done { return; }
      if live[id].status == Draft { return Refused; }
      ghost var db := Now();
      ArchiveInstance(id, Stopped, OpenTasks);
      forall p, c { FamilyEdges(db.live, p, c); }
      var seen := TerminateBelow(id, db, Family(db.live));
    }

    /** One turn of the worklist. */
    method TerminateTurn(ghost root: Id, ghost db: Db, ghost adj: Adj, ghost done: set<Id>, seen: set<Id>, queue: seq<Id>)
      returns (seen': set<Id>, queue': seq<Id>)
      requires Now() == Archive(db, seen, Stopped, OpenTasks) && Draws(adj, db.live)
      requires queue != [] && seen <= Region(adj, root) && Explored(adj, done, queue, seen)
      modifies this
      ensures Now() == Archive(db, seen', Stopped, OpenTasks)
      ensures seen <= seen' <= Region(adj, root) && Explored(adj, done + {queue[0]}, queue', seen')
      ensures |db.live.Keys - seen'| < |db.live.Keys - seen| || (seen' == seen && |queue'| < |queue|)
    {
      var parent := queue[0];
      ghost var kids := OpenChildren(db.live, parent);
      assert kids == Elems(Succ(adj, parent));
      assert parent in Elems(queue);
      StaysInRegion(adj, root, seen, parent);
      FewerLeft(db.live.Keys, seen, kids);
      seen', queue' := TerminateChildren(parent, seen, queue[1..], db);
      ExploredStep(adj, done, queue, seen, kids, queue');
    }

    /** The worklist over the children. */
    method TerminateBelow(id: Id, ghost db: Db, ghost adj: Adj) returns (seen: set<Id>)
      requires Now() == Archive(db, {id}, Stopped, OpenTasks) && Draws(adj, db.live)
      modifies this
      ensures Now() == Archive(db, seen, Stopped, OpenTasks) && seen == Region(adj, id)
    {
      ghost var done := {};
      var queue := [id];
      seen := {id};
      RegionClosed(adj, id);
      while queue != []
        invariant Now() == Archive(db, seen, Stopped, OpenTasks)
        invariant id in seen && seen <= Region(adj, id) && Explored(adj, done, queue, seen)
        decreases |db.live.Keys - seen|, |queue|
      {
        ghost var parent := queue[0];
        seen, queue := TerminateTurn(id, db, adj, done, seen, queue);
        done := done + {parent};
      }
      AllSeen(adj, done, seen, id);
    }

    /** `DeleteProcessInstance` and `markArchivedInstanceDeleted`. */
    method DeleteInstance(id: Id) returns (answer: Answer)
      requires Valid(Now())
      modifies this
      ensures answer == AnswerOf(old(Now()), Step.Delete(id))
      ensures Now() == Apply(old(Now()), Step.Delete(id)) && Valid(Now())
    {
      StepKeeps(Now(), Step.Delete(id));
      answer := Lock(id);
      if answer == NotFound {
        if id in hist {
          hist := hist[id := hist[id].(status := Deleted)];
          answer := Done;
        }
      } else if answer == Done {
        if live[id].status == Draft {
          live := live - {id};
        } else {
          ArchiveInstance(id, Deleted, OpenTasks);
        }
      }
    }
  }

  // ---- Runs ----

  const EMPTY := Db(map[], map[], map[], map[], {})

  ghost predicate IsRun(run: seq<Db>) {
    |run| > 0 && run[0] == EMPTY && forall j, k | 0 <= j < k < |run| && k == j + 1 :: IsStep(run[j], run[k])
  }

  ghost predicate IsStep(db: Db, db': Db) {
    exists step :: db' == Apply(db, step)
  }

  lemma {:induction false} RunValid(run: seq<Db>, k: nat)
    requires IsRun(run) && k < |run|
    ensures Valid(run[k])
  {
    if k > 0 {
      RunValid(run, k - 1);
      assert IsStep(run[k - 1], run[k]);
      var step :| run[k] == Apply(run[k - 1], step);
      StepKeeps(run[k - 1], step);
    }
  }

  /** No instance and no task is ever in both tables. */
  lemma TablesDisjoint(run: seq<Db>, k: nat)
    requires IsRun(run) && k < |run|
    ensures run[k].live.Keys !! run[k].hist.Keys && run[k].tasks.Keys !! run[k].hiTasks.Keys
  {
    var db := run[k];
    RunValid(run, k);
    forall i ensures !(i in db.live && i in db.hist) { assert RowOk(db, i); }
    forall t ensures !(t in db.tasks && t in db.hiTasks) { assert TaskOk(db, t); }
  }

  predicate HasTask(db: Db, t: Id, i: Id) {
    (t in db.tasks && db.tasks[t].instance == i) || (t in db.hiTasks && db.hiTasks[t].instance == i)
  }

  lemma StepKeepsTask(db: Db, step: Step, t: Id, i: Id)
    requires TaskOk(db, t) && HasTask(db, t, i)
    ensures HasTask(Apply(db, step), t, i)
  {
  }

  lemma {:induction false} TaskStays(run: seq<Db>, j: nat, k: nat, t: Id, i: Id)
    requires forall a, b | 0 <= a < b < |run| && b == a + 1 && HasTask(run[a], t, i) :: HasTask(run[b], t, i)
    requires j <= k < |run| && HasTask(run[j], t, i)
    ensures HasTask(run[k], t, i)
    decreases k
  {
    if j < k {
      TaskStays(run, j, k - 1, t, i);
    }
  }

  /** No task is lost or changes its instance: it stays live or moves to history, once. */
  lemma TasksConserved(run: seq<Db>, j: nat, k: nat, t: Id, i: Id)
    requires IsRun(run) && j <= k < |run| && HasTask(run[j], t, i)
    ensures HasTask(run[k], t, i) && !(t in run[k].tasks && t in run[k].hiTasks)
  {
    forall a, b | 0 <= a < b < |run| && b == a + 1 && HasTask(run[a], t, i) ensures HasTask(run[b], t, i) {
      NextHasTask(run, a, t, i);
    }
    TaskStays(run, j, k, t, i);
    TablesDisjoint(run, k);
  }

  lemma NextHasTask(run: seq<Db>, k: nat, t: Id, i: Id)
    requires IsRun(run) && k + 1 < |run| && HasTask(run[k], t, i)
    ensures HasTask(run[k + 1], t, i)
  {
    var db := run[k];
    RunValid(run, k);
    assert TaskOk(db, t) && IsStep(db, run[k + 1]);
    var step :| run[k + 1] == Apply(db, step);
    StepKeepsTask(db, step, t, i);
  }

  /** Every archived task of a completed instance has ended. */
  lemma CompletedTasksEnded(run: seq<Db>, k: nat, t: Id)
    requires IsRun(run) && k < |run| && t in run[k].hiTasks
    ensures run[k].hiTasks[t].instance in run[k].hist
    ensures run[k].hist[run[k].hiTasks[t].instance].status == Finished ==> IsTerminalTask(run[k].hiTasks[t].status)
  {
    RunValid(run, k);
    assert TaskOk(run[k], t);
  }

  /** The rows that pass a filter in one table. */
  function Matching(rows: map<Id, Instance>, filter: (Id, Instance) -> bool): set<Id> {
    set i | i in rows && filter(i, rows[i])
  }

  /** Counting both tables with UNION ALL counts every matching instance once. */
  lemma UnionAllIsDistinct(run: seq<Db>, k: nat, filter: (Id, Instance) -> bool)
    requires IsRun(run) && k < |run|
    ensures |Matching(run[k].live, filter)| + |Matching(run[k].hist, filter)|
            == |Matching(run[k].live, filter) + Matching(run[k].hist, filter)|
  {
    TablesDisjoint(run, k);
    assert Matching(run[k].live, filter) !! Matching(run[k].hist, filter);
  }

  // ---- What termination and deletion leave ----

  /**
   A task of an instance that is terminated or deleted is archived as ended unless it was still created,
   assigned, waiting or delegated: those statuses are not looked for and go to history as they are.
   */
  lemma ArchivedAsEnded(db: Db, step: Step, t: Id)
    requires Valid(db) && (step.Terminate? || step.Delete?) && t in db.tasks && t in Apply(db, step).hiTasks
    ensures IsTerminalTask(Apply(db, step).hiTasks[t].status) <==>
              db.tasks[t].status !in {Created, Assigned, Waiting, Delegated}
  {
    assert TaskOk(db, t);
    HowClosed(db, step, t);
    VoidedEnds(db.tasks[t].status);
  }

  lemma VoidedEnds(s: TaskStatus)
    ensures IsTerminalTask(Voided(OpenTasks, s)) <==> s !in {Created, Assigned, Waiting, Delegated}
  {
  }

  lemma HowClosed(db: Db, step: Step, t: Id)
    requires TaskOk(db, t) && (step.Terminate? || step.Delete?) && t in db.tasks && t in Apply(db, step).hiTasks
    ensures Apply(db, step).hiTasks[t] == VoidTask(OpenTasks, db.tasks[t])
  {
  }

  /**
   A termination archives exactly the root and what is reached from it through open children, keeps every other
   instance row as it is, and leaves none of these children live.
   */
  lemma CascadeExact(db: Db, root: Id)
    requires Valid(db) && AnswerOf(db, Terminate(root)) == Done
    ensures var db' := Apply(db, Terminate(root));
            && (forall i :: i in Descent(db.live, root) <==> Reach(Family(db.live), root, i))
            && (forall i | i in Descent(db.live, root) :: i in db.live && i !in db'.live && i in db'.hist && db'.hist[i].status == Stopped)
            && (forall i | i !in Descent(db.live, root) ::
                  (i in db'.live <==> i in db.live) && (i in db.live ==> db'.live[i] == db.live[i])
                  && (i in db'.hist <==> i in db.hist) && (i in db.hist ==> db'.hist[i] == db.hist[i]))
            && (forall c | c in db'.live && db'.live[c].status in {Running, Paused} :: db'.live[c].parent !in Descent(db.live, root))
  {
    RegionMeaning(Family(db.live), root);
    RegionClosed(Family(db.live), root);
    forall i | i in Descent(db.live, root) ensures i in db.live {
      if i != root {
        var p :| WalkFromTo(Family(db.live), p, root, i);
        assert p[|p| - 2 + 1] in Succ(Family(db.live), p[|p| - 2]);
        FamilyEdges(db.live, p[|p| - 2], i);
      }
    }
    var db' := Apply(db, Terminate(root));
    forall c | c in db'.live && IsOpen(db'.live[c].status) ensures db'.live[c].parent !in Descent(db.live, root) {
      FamilyEdges(db.live, db.live[c].parent, c);
    }
  }

  lemma ArchivedTask(db: Db, s: set<Id>, status: InstanceStatus, v: Voiding, t: Id)
    requires TaskOk(db, t)
    ensures var a := Archive(db, s, status, v);
            if t in db.tasks && db.tasks[t].instance in s
            then t !in a.tasks && t in a.hiTasks && a.hiTasks[t] == VoidTask(v, db.tasks[t])
            else (t in a.tasks <==> t in db.tasks) && (t in db.tasks ==> a.tasks[t] == db.tasks[t])
                 && (t in a.hiTasks <==> t in db.hiTasks) && (t in db.hiTasks ==> a.hiTasks[t] == db.hiTasks[t])
  {
  }

  lemma VoidedOpen(t: Task)
    ensures VoidTask(OpenTasks, t) ==
            t.(status := if t.status in {TaskStatus.Active, Pending, Suspended} then Terminated else t.status)
  {
  }

  /** The tasks of what is archived go to history, the open ones voided; every other task row stays as it is. */
  lemma CascadeTasks(db: Db, root: Id, t: Id)
    requires Valid(db) && AnswerOf(db, Terminate(root)) == Done
    ensures var db' := Apply(db, Terminate(root));
            if t in db.tasks && db.tasks[t].instance in Descent(db.live, root)
            then t !in db'.tasks && t in db'.hiTasks
                 && db'.hiTasks[t] == db.tasks[t].(status := if db.tasks[t].status in {TaskStatus.Active, Pending, Suspended}
                                                             then Terminated else db.tasks[t].status)
            else (t in db'.tasks <==> t in db.tasks) && (t in db.tasks ==> db'.tasks[t] == db.tasks[t])
                 && (t in db'.hiTasks <==> t in db.hiTasks) && (t in db.hiTasks ==> db'.hiTasks[t] == db.hiTasks[t])
  {
    assert TaskOk(db, t);
    ArchivedTask(db, Descent(db.live, root), Stopped, OpenTasks, t);
    if t in db.tasks { VoidedOpen(db.tasks[t]); }
  }

  /** Deletion does not go on to the children. */
  lemma DeleteKeepsChildren(db: Db, i: Id, c: Id)
    requires Valid(db) && c in db.live && c != i
    ensures c in Apply(db, Delete(i)).live && Apply(db, Delete(i)).live[c] == db.live[c]
  {
  }

  /** Suspending and activating again restores a task unless it was suspended already, or its status does not fit its assignee. */
  lemma SuspendActivate(db: Db, i: Id, t: Id)
    requires Valid(db) && i in db.live && db.live[i].status == Running && t in db.tasks && db.tasks[t].instance == i
    ensures var db' := Apply(Apply(db, Suspend(i)), Activate(i));
            t in db'.tasks
            && (db'.tasks[t] == db.tasks[t] <==>
                  db.tasks[t].status != Suspended
                  && (db.tasks[t].status == TaskStatus.Active ==> db.tasks[t].assignee != NO_ID)
                  && (db.tasks[t].status == Pending ==> db.tasks[t].assignee == NO_ID))
            && db'.live[i] == db.live[i]
  {
    var mid := Apply(db, Suspend(i));
    assert mid.live[i].status == Paused && mid.tasks[t] == SuspendTask(db.tasks[t]);
  }
}
