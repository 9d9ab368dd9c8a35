/** What each operation does to the rows of the tables (`service/runtime_service_impl.go`), row by row. */
module LifecycleRows {
  import opened Text
  import opened Definitions
  import opened Lifecycle

  /** Both tables treat the key alike. */
  ghost predicate SameAt<V>(a: map<Id, V>, b: map<Id, V>, k: Id) {
    (k in a <==> k in b) && (k in a ==> a[k] == b[k])
  }

  /** Every row of another instance and of its tasks is as it was. */
  ghost predicate OthersKept(db: Db, db': Db, id: Id) {
    && (forall i | i != id :: SameAt(db.live, db'.live, i) && SameAt(db.hist, db'.hist, i))
    && (forall t | t !in db.tasks || db.tasks[t].instance != id :: SameAt(db.tasks, db'.tasks, t) && SameAt(db.hiTasks, db'.hiTasks, t))
  }

  /** The instance stands in the history table with this status, its parent and its process. */
  ghost predicate ArchivedAs(db: Db, db': Db, id: Id, status: InstanceStatus)
    requires id in db.live
  {
    && id !in db'.live && id in db'.hist
    && db'.hist[id] == Instance(status, db.live[id].parent, db.live[id].process)
  }

  /** The tasks of the instance are in the history table, those in one of the statuses as terminated. */
  ghost predicate TasksArchived(db: Db, db': Db, id: Id, voided: set<TaskStatus>) {
    forall t | t in db.tasks && db.tasks[t].instance == id ::
      && t !in db'.tasks && t in db'.hiTasks
      && db'.hiTasks[t] == Task(id, if db.tasks[t].status in voided then Terminated else db.tasks[t].status, db.tasks[t].assignee)
  }

  /** The tasks of the instance stay live, with a status that depends on the old one and on the assignee. */
  ghost predicate TasksTurned(db: Db, db': Db, id: Id, turn: (TaskStatus, Id) -> TaskStatus) {
    forall t | t in db.tasks && db.tasks[t].instance == id ::
      && t in db'.tasks && SameAt(db.hiTasks, db'.hiTasks, t)
      && db'.tasks[t] == Task(id, turn(db.tasks[t].status, db.tasks[t].assignee), db.tasks[t].assignee)
  }

  const UNFINISHED := {Created, Assigned, Waiting, Pending, TaskStatus.Active, Delegated, Suspended}
  const OPEN := {TaskStatus.Active, Pending, Suspended}

  lemma InstanceArchived(db: Db, id: Id, status: InstanceStatus, v: Voiding)
    requires Valid(db) && id in db.live
    ensures var db' := Archive(db, {id}, status, v);
            ArchivedAs(db, db', id, status) && forall i | i != id :: SameAt(db.live, db'.live, i) && SameAt(db.hist, db'.hist, i)
  {
    assert RowOk(db, id);
  }

  lemma OtherTask(db: Db, id: Id, status: InstanceStatus, v: Voiding, t: Id)
    requires t !in db.tasks || db.tasks[t].instance != id
    ensures var db' := Archive(db, {id}, status, v); SameAt(db.tasks, db'.tasks, t) && SameAt(db.hiTasks, db'.hiTasks, t)
  {
  }

  lemma OwnTask(db: Db, id: Id, status: InstanceStatus, v: Voiding, t: Id)
    requires t in db.tasks && db.tasks[t].instance == id
    ensures var db' := Archive(db, {id}, status, v);
            && t !in db'.tasks && t in db'.hiTasks
            && db'.hiTasks[t] == Task(id, if db.tasks[t].status in (if v == OpenTasks then OPEN else UNFINISHED)
                                          then Terminated else db.tasks[t].status, db.tasks[t].assignee)
  {
  }

  lemma OneArchived(db: Db, id: Id, status: InstanceStatus, v: Voiding)
    requires Valid(db) && id in db.live
    ensures var db' := Archive(db, {id}, status, v);
            && OthersKept(db, db', id) && ArchivedAs(db, db', id, status)
            && TasksArchived(db, db', id, if v == OpenTasks then OPEN else UNFINISHED)
  {
    var db' := Archive(db, {id}, status, v);
    InstanceArchived(db, id, status, v);
    forall t | t !in db.tasks || db.tasks[t].instance != id
      ensures SameAt(db.tasks, db'.tasks, t) && SameAt(db.hiTasks, db'.hiTasks, t)
    {
      OtherTask(db, id, status, v, t);
    }
    forall t | t in db.tasks && db.tasks[t].instance == id
      ensures t !in db'.tasks && t in db'.hiTasks
      ensures db'.hiTasks[t] == Task(id, if db.tasks[t].status in (if v == OpenTasks then OPEN else UNFINISHED)
                                         then Terminated else db.tasks[t].status, db.tasks[t].assignee)
    {
      OwnTask(db, id, status, v, t);
    }
  }

  /** A start writes one live row, running or a draft. */
  lemma StartRows(db: Db, id: Id, parent: Id, process: Id, isDraft: bool)
    requires Valid(db) && id != NO_ID && id !in db.issued
    ensures var step := Step.Start(id, parent, process, isDraft);
            var db' := Apply(db, step);
            && AnswerOf(db, step) == Done && OthersKept(db, db', id)
            && id in db'.live && db'.live[id] == Instance(if isDraft then Draft else Running, parent, process) && id !in db'.hist
  {
    assert RowOk(db, id);
    forall t | t in db.tasks ensures db.tasks[t].instance != id { assert TaskOk(db, t) && RowOk(db, db.tasks[t].instance); }
  }

  /**
   Completing a live instance that was seen running archives it as completed, with every unfinished task voided
   and every other row as it was. Doing it again finds it completed and changes nothing.
   */
  lemma CompleteRows(db: Db, id: Id)
    requires Valid(db) && id in db.live
    ensures var step := Complete(id, Some(Running));
            var db' := Apply(db, step);
            && AnswerOf(db, step) == Done && OthersKept(db, db', id)
            && ArchivedAs(db, db', id, Finished) && TasksArchived(db, db', id, UNFINISHED)
            && AnswerOf(db', Complete(id, Some(db'.hist[id].status))) == Done
            && Apply(db', Complete(id, Some(db'.hist[id].status))) == db'
  {
    assert RowOk(db, id);
    OneArchived(db, id, Finished, AllUnfinished);
    assert Apply(db, Complete(id, Some(Running))) == Archive(db, {id}, Finished, AllUnfinished);
  }

  /** A completion changes nothing where the instance is not live any more or was not seen running. */
  lemma CompleteRefused(db: Db, id: Id, seen: Option<InstanceStatus>)
    requires Valid(db) && (id !in db.live || seen != Some(Running))
    ensures Apply(db, Complete(id, seen)) == db
    ensures AnswerOf(db, Complete(id, seen)) ==
            if seen.None? || seen == Some(Running) then NotFound else if seen == Some(Finished) then Done else Refused
  {
  }

  /** Deleting a draft removes its row and nothing else. */
  lemma DeleteDraftRows(db: Db, id: Id)
    requires Valid(db) && id in db.live && db.live[id].status == Draft
    ensures var db' := Apply(db, Delete(id));
            && AnswerOf(db, Delete(id)) == Done && OthersKept(db, db', id) && id !in db'.live && id !in db'.hist
  {
    assert RowOk(db, id);
    forall t | t in db.tasks ensures db.tasks[t].instance != id { assert TaskOk(db, t); }
  }

  /** Deleting an open instance archives it as deleted, with its open tasks voided and every other row as it was. */
  lemma DeleteLiveRows(db: Db, id: Id)
    requires Valid(db) && id in db.live && db.live[id].status != Draft
    ensures var db' := Apply(db, Delete(id));
            && AnswerOf(db, Delete(id)) == Done && OthersKept(db, db', id)
            && ArchivedAs(db, db', id, Deleted) && TasksArchived(db, db', id, OPEN)
  {
    assert RowOk(db, id);
    OneArchived(db, id, Deleted, OpenTasks);
    assert Apply(db, Delete(id)) == Archive(db, {id}, Deleted, OpenTasks);
  }

  /** Deleting an archived instance marks its row; an unknown one is not found. */
  lemma DeleteArchivedRows(db: Db, id: Id)
    requires Valid(db) && id !in db.live
    ensures var db' := Apply(db, Delete(id));
            && AnswerOf(db, Delete(id)) == (if id in db.hist then Done else NotFound)
            && OthersKept(db, db', id) && db'.tasks == db.tasks && db'.hiTasks == db.hiTasks && id !in db'.live
            && (id in db'.hist <==> id in db.hist)
            && (id in db.hist ==> db'.hist[id] == Instance(Deleted, db.hist[id].parent, db.hist[id].process))
  {
  }

  /** Suspending a running instance suspends its active and pending tasks; a suspended one and a draft are left alone. */
  lemma SuspendRows(db: Db, id: Id)
    requires Valid(db)
    ensures var db' := Apply(db, Suspend(id));
            if id !in db.live then AnswerOf(db, Suspend(id)) == NotFound && db' == db
            else if db.live[id].status == Draft then AnswerOf(db, Suspend(id)) == Refused && db' == db
            else if db.live[id].status == Paused then AnswerOf(db, Suspend(id)) == Done && db' == db
            else
              && AnswerOf(db, Suspend(id)) == Done && OthersKept(db, db', id) && SameAt(db.hist, db'.hist, id)
              && id in db'.live && db'.live[id] == Instance(Paused, db.live[id].parent, db.live[id].process)
              && TasksTurned(db, db', id, (s, a) => if s == TaskStatus.Active || s == Pending then Suspended else s)
  {
    assert RowOk(db, id);
  }

  /** Activating a suspended instance gives its tasks back; a draft starts running; a running instance is left alone. */
  lemma ActivateRows(db: Db, id: Id)
    requires Valid(db)
    ensures var db' := Apply(db, Activate(id));
            if id !in db.live then AnswerOf(db, Activate(id)) == NotFound && db' == db
            else if db.live[id].status == Running then AnswerOf(db, Activate(id)) == Done && db' == db
            else
              && AnswerOf(db, Activate(id)) == Done && OthersKept(db, db', id) && SameAt(db.hist, db'.hist, id)
              && id in db'.live && db'.live[id] == Instance(Running, db.live[id].parent, db.live[id].process)
              && TasksTurned(db, db', id, (s, a) => if s != Suspended then s else if a != NO_ID then TaskStatus.Active else Pending)
  {
    assert RowOk(db, id);
    forall t | t in db.tasks ensures db.tasks[t].instance in db.live && db.live[db.tasks[t].instance].status != Draft {
      assert TaskOk(db, t);
    }
  }

  /** Drafts and unknown instances are not terminated. */
  lemma TerminateRefused(db: Db, id: Id)
    requires Valid(db) && (id !in db.live || db.live[id].status == Draft)
    ensures Apply(db, Terminate(id)) == db
    ensures AnswerOf(db, Terminate(id)) == if id !in db.live then NotFound else Refused
  {
  }
}
