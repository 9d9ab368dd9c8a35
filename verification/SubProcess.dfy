/** How deep sub-processes nest (`service/runtime_subprocess.go`), over every run of starts, completions, terminations and deletions. */
module SubProcess {
  import opened Text
  import opened Definitions
  import opened Walks
  import opened Lifecycle

  const MAX_DEPTH := 10

  /** The instance and its ancestors, as far as they are live and at most n of them. */
  function Lineage(live: map<Id, Instance>, i: Id, n: nat): seq<Id>
    decreases n
  {
    if n == 0 || i == NO_ID || i !in live then [] else [i] + Lineage(live, live[i].parent, n - 1)
  }

  /** The processes of a line of instances. */
  function Processes(live: map<Id, Instance>, line: seq<Id>): seq<Id>
    requires forall i | i in line :: i in live
  {
    if line == [] then [] else [live[line[0]].process] + Processes(live, line[1..])
  }

  lemma {:induction false} LineageLive(live: map<Id, Instance>, i: Id, n: nat)
    ensures |Lineage(live, i, n)| <= n && forall j | j in Lineage(live, i, n) :: j in live
    ensures Lineage(live, i, n) != [] ==> Lineage(live, i, n)[0] == i
    decreases n
  {
    if n > 0 && i != NO_ID && i in live { LineageLive(live, live[i].parent, n - 1); }
  }

  function LineProcesses(live: map<Id, Instance>, i: Id, n: nat): seq<Id> {
    LineageLive(live, i, n);
    Processes(live, Lineage(live, i, n))
  }

  /** The walk from cur, with room for n more members, meets neither the process nor a member too many. */
  ghost predicate MayStart(live: map<Id, Instance>, cur: Id, process: Id, n: nat) {
    process !in LineProcesses(live, cur, n) && !GoesOn(live, cur, n)
  }

  /** There are n live members in a row and the last one names a parent. */
  predicate GoesOn(live: map<Id, Instance>, cur: Id, n: nat)
    decreases n
  {
    cur != NO_ID && (n == 0 || (cur in live && GoesOn(live, live[cur].parent, n - 1)))
  }

  lemma MayStartStep(live: map<Id, Instance>, cur: Id, process: Id, n: nat)
    ensures cur == NO_ID ==> MayStart(live, cur, process, n)
    ensures cur != NO_ID ==>
              (MayStart(live, cur, process, n) <==>
                 n > 0 && (cur !in live || (live[cur].process != process && MayStart(live, live[cur].parent, process, n - 1))))
  {
  }

  /** `checkSubProcessDepth`: walk up from the parent, counting; an ancestor that is not live ends the walk. */
  method CheckSubProcessDepth(live: map<Id, Instance>, parent: Id, process: Id) returns (ok: bool)
    ensures ok <==> MayStart(live, parent, process, MAX_DEPTH)
  {
    var depth, cur := 0, parent;
    while cur != NO_ID
      invariant 0 <= depth <= MAX_DEPTH
      invariant MayStart(live, parent, process, MAX_DEPTH) <==> MayStart(live, cur, process, MAX_DEPTH - depth)
      decreases MAX_DEPTH - depth
    {
      MayStartStep(live, cur, process, MAX_DEPTH - depth);
      depth := depth + 1;
      if depth > MAX_DEPTH { return false; }
      if cur !in live { return true; }
      if live[cur].process == process { return false; }
      cur := live[cur].parent;
    }
    MayStartStep(live, cur, process, MAX_DEPTH - depth);
    return true;
  }

  // ---- The invariant ----

  /** At most ten live ancestors in a row, and no process twice among an instance and these ancestors. */
  ghost predicate NestsWell(live: map<Id, Instance>, i: Id) {
    |Lineage(live, i, MAX_DEPTH + 2)| <= MAX_DEPTH + 1 && NoDup(LineProcesses(live, i, MAX_DEPTH + 2))
  }

  /** The parent named by the row of the instance, in whichever table it stands. */
  function ParentOf(db: Db, i: Id): Id {
    if i in db.live then db.live[i].parent else if i in db.hist then db.hist[i].parent else NO_ID
  }

  /** Parents were issued before, and drafts have none: a child never starts as a draft. */
  predicate ParentOk(db: Db, i: Id) {
    && (ParentOf(db, i) == NO_ID || ParentOf(db, i) in db.issued)
    && (i in db.live && db.live[i].status == Draft ==> db.live[i].parent == NO_ID)
  }

  ghost predicate Nested(db: Db) {
    (forall i | i in db.live :: NestsWell(db.live, i)) && (forall i :: ParentOk(db, i))
  }

  /** Rows may go and change their status; nothing else changes. */
  ghost predicate Shrinks(live: map<Id, Instance>, live': map<Id, Instance>) {
    forall i | i in live' :: i in live && live'[i].parent == live[i].parent && live'[i].process == live[i].process
  }

  lemma {:induction false} LineShrinks(live: map<Id, Instance>, live': map<Id, Instance>, i: Id, n: nat)
    requires Shrinks(live, live')
    ensures Lineage(live', i, n) <= Lineage(live, i, n) && LineProcesses(live', i, n) <= LineProcesses(live, i, n)
    decreases n
  {
    if n > 0 && i != NO_ID && i in live' {
      LineShrinks(live, live', live[i].parent, n - 1);
    }
  }

  lemma ShrinkingNestsWell(live: map<Id, Instance>, live': map<Id, Instance>, i: Id)
    requires Shrinks(live, live') && NestsWell(live, i)
    ensures NestsWell(live', i)
  {
    LineShrinks(live, live', i, MAX_DEPTH + 2);
  }

  /** A row nobody names as parent changes no other line. */
  lemma {:induction false} LineKept(live: map<Id, Instance>, id: Id, row: Instance, i: Id, n: nat)
    requires id !in live && i != id && forall j | j in live :: live[j].parent != id
    ensures Lineage(live[id := row], i, n) == Lineage(live, i, n)
    ensures LineProcesses(live[id := row], i, n) == LineProcesses(live, i, n)
    decreases n
  {
    if n > 0 && i != NO_ID && i in live {
      LineKept(live, id, row, live[i].parent, n - 1);
    }
  }

  /** A line that does not go on past n members is complete. */
  lemma {:induction false} LineComplete(live: map<Id, Instance>, i: Id, n: nat)
    requires !GoesOn(live, i, n)
    ensures Lineage(live, i, n + 1) == Lineage(live, i, n) && LineProcesses(live, i, n + 1) == LineProcesses(live, i, n)
    decreases n
  {
    if i != NO_ID && i in live {
      LineComplete(live, live[i].parent, n - 1);
    }
  }

  /** A child that may start nests well below its parent. */
  lemma ChildNestsWell(live: map<Id, Instance>, id: Id, row: Instance)
    requires id !in live && id != NO_ID && row.parent != id && forall j | j in live :: live[j].parent != id
    requires row.parent == NO_ID || (row.parent in live && NestsWell(live, row.parent) && MayStart(live, row.parent, row.process, MAX_DEPTH))
    ensures NestsWell(live[id := row], id)
  {
    var live', parent, n := live[id := row], row.parent, MAX_DEPTH;
    LineKept(live, id, row, parent, n + 1);
    if parent != NO_ID {
      LineComplete(live, parent, n);
      LineageLive(live, parent, n);
      FewerProcesses(live, parent, n);
      NoDupCons(row.process, LineProcesses(live, parent, n));
    }
  }

  /** The processes of a complete line do not repeat if those of the longer line do not. */
  lemma FewerProcesses(live: map<Id, Instance>, parent: Id, n: nat)
    requires n == MAX_DEPTH && NestsWell(live, parent) && !GoesOn(live, parent, n)
    ensures NoDup(LineProcesses(live, parent, n))
  {
    LineComplete(live, parent, n);
    StopsLater(live, parent, n);
    LineComplete(live, parent, n + 1);
  }

  lemma {:induction false} StopsLater(live: map<Id, Instance>, i: Id, n: nat)
    requires !GoesOn(live, i, n)
    ensures !GoesOn(live, i, n + 1)
    decreases n
  {
    if i != NO_ID && i in live { StopsLater(live, live[i].parent, n - 1); }
  }

  // ---- Runs ----

  /** A step as the engine takes it: a child is started below a live parent, after the check, and never as a draft. */
  ghost predicate Allowed(db: Db, step: Step) {
    step.Start? && step.parent != NO_ID ==>
      step.parent in db.live && MayStart(db.live, step.parent, step.process, MAX_DEPTH) && !step.isDraft
  }

  lemma StepShrinks(db: Db, step: Step)
    requires !step.Start?
    ensures Shrinks(db.live, Apply(db, step).live) && Apply(db, step).issued == db.issued
  {
  }

  /** No row changes its parent; a draft that is deleted had none. */
  lemma ParentKept(db: Db, step: Step, i: Id)
    requires RowOk(db, i) && ParentOk(db, i) && !step.Start?
    ensures ParentOf(Apply(db, step), i) == ParentOf(db, i)
  {
  }

  lemma DraftsKept(db: Db, step: Step, i: Id)
    requires !step.Start? && i in Apply(db, step).live && Apply(db, step).live[i].status == Draft
    ensures i in db.live && db.live[i] == Apply(db, step).live[i]
  {
  }

  lemma ParentOkKept(db: Db, step: Step, i: Id)
    requires RowOk(db, i) && ParentOk(db, i) && !step.Start?
    ensures ParentOk(Apply(db, step), i)
  {
    var db' := Apply(db, step);
    ParentKept(db, step, i);
    StepShrinks(db, step);
    if i in db'.live && db'.live[i].status == Draft { DraftsKept(db, step, i); }
  }

  lemma StepNests(db: Db, step: Step)
    requires Valid(db) && Nested(db) && Allowed(db, step)
    ensures Nested(Apply(db, step))
  {
    var db' := Apply(db, step);
    if AnswerOf(db, step) != Done {
    } else if step.Start? {
      StartNests(db, step);
    } else {
      StepShrinks(db, step);
      forall i | i in db'.live ensures NestsWell(db'.live, i) { ShrinkingNestsWell(db.live, db'.live, i); }
      forall i ensures ParentOk(db', i) {
        assert RowOk(db, i) && ParentOk(db, i);
        ParentOkKept(db, step, i);
      }
    }
  }

  lemma StartNests(db: Db, step: Step)
    requires Valid(db) && Nested(db) && Allowed(db, step) && step.Start? && AnswerOf(db, step) == Done
    ensures Nested(Apply(db, step))
  {
    var db', id := Apply(db, step), step.id;
    var row := db'.live[id];
    assert RowOk(db, id) && RowOk(db, step.parent);
    forall j | j in db.live ensures db.live[j].parent != id { assert ParentOk(db, j); }
    ChildNestsWell(db.live, id, row);
    forall i | i in db'.live ensures NestsWell(db'.live, i) {
      if i != id { LineKept(db.live, id, row, i, MAX_DEPTH + 2); }
    }
    forall i ensures ParentOk(db', i) { assert ParentOk(db, i); }
  }

  /** `StartSubProcessInstance`: a child starts only below a live parent and after the check. */
  method StartSubProcessInstance(store: Store, id: Id, parent: Id, process: Id) returns (started: bool)
    requires Valid(store.Now()) && Nested(store.Now()) && id != NO_ID && id !in store.issued
    modifies store
    ensures started <==> parent in old(store.live) && MayStart(old(store.live), parent, process, MAX_DEPTH)
    ensures store.Now() == if started then Apply(old(store.Now()), Step.Start(id, parent, process, false)) else old(store.Now())
    ensures Valid(store.Now()) && Nested(store.Now())
  {
    if parent !in store.live { return false; }
    started := CheckSubProcessDepth(store.live, parent, process);
    if !started { return; }
    StepNests(store.Now(), Step.Start(id, parent, process, false));
    store.StartInstance(id, parent, process, false);
  }

  ghost predicate IsNestingRun(run: seq<Db>, steps: seq<Step>) {
    && |run| == |steps| + 1 && run[0] == EMPTY
    && forall j, k | 0 <= j < k < |run| && k == j + 1 :: Allowed(run[j], steps[j]) && run[k] == Apply(run[j], steps[j])
  }

  lemma NextIs(run: seq<Db>, steps: seq<Step>, j: nat)
    requires IsNestingRun(run, steps) && j < |steps|
    ensures Allowed(run[j], steps[j]) && run[j + 1] == Apply(run[j], steps[j])
  {
    var next := run[j + 1];
    assert Allowed(run[j], steps[j]);
  }

  /** In every reachable state, no live instance has more than ten live ancestors in a row, and no process occurs twice among them. */
  lemma {:induction false} NestingBounded(run: seq<Db>, steps: seq<Step>, k: nat)
    requires IsNestingRun(run, steps) && k < |run|
    ensures Valid(run[k]) && Nested(run[k])
  {
    if k > 0 {
      NestingBounded(run, steps, k - 1);
      NextIs(run, steps, k - 1);
      StepKeeps(run[k - 1], steps[k - 1]);
      StepNests(run[k - 1], steps[k - 1]);
    }
  }

  // ---- Ancestors across both tables ----

  /** The m-th instance above i, through live and archived rows; i itself is the 0-th. */
  function Above(db: Db, i: Id, m: nat): Id {
    if m == 0 then i else ParentOf(db, Above(db, i, m - 1))
  }

  /** Below a live ancestor no instance of the line is missing: the walk of the check meets every live ancestor. */
  ghost predicate Covered(db: Db) {
    forall c, m: nat, j: nat | c in db.live && Above(db, c, m) in db.live && j <= m :: Above(db, c, j) in db.live
  }

  /** The step takes an instance out of the middle: a live child stays below it and a live parent above it. */
  ghost predicate OpensGap(db: Db, step: Step) {
    && AnswerOf(db, step) == Done
    && match step
       case Complete(id, seen) => seen == Some(Running) && InTheMiddle(db, id)
       case Delete(id) => InTheMiddle(db, id)
       case _ => false
  }

  ghost predicate InTheMiddle(db: Db, b: Id) {
    && b in db.live && db.live[b].parent in db.live && db.live[b].parent != b
    && exists c :: c in db.live && c != b && db.live[c].parent == b
  }

  /** A line of live instances is the beginning of the lineage. */
  lemma {:induction false} LineIsLineage(db: Db, c: Id, m: nat, n: nat)
    requires NO_ID !in db.live && m < n && forall j: nat | j <= m :: Above(db, c, j) in db.live
    ensures m < |Lineage(db.live, c, n)| == |LineProcesses(db.live, c, n)|
    ensures Lineage(db.live, c, n)[m] == Above(db, c, m)
    ensures LineProcesses(db.live, c, n)[m] == db.live[Above(db, c, m)].process
    decreases m
  {
    assert Above(db, c, 0) in db.live;
    LineageLive(db.live, c, n);
    ProcessesLength(db.live, Lineage(db.live, c, n));
    if m > 0 {
      var parent := db.live[c].parent;
      forall j: nat | j <= m ensures j > 0 ==> Above(db, parent, j - 1) == Above(db, c, j) { if j > 0 { AboveShift(db, c, j - 1); } }
      forall j: nat | j <= m - 1 ensures Above(db, parent, j) in db.live { assert Above(db, c, j + 1) in db.live; }
      LineIsLineage(db, parent, m - 1, n - 1);
    }
  }

  lemma {:induction false} ProcessesLength(live: map<Id, Instance>, line: seq<Id>)
    requires forall i | i in line :: i in live
    ensures |Processes(live, line)| == |line|
  {
    if line != [] { ProcessesLength(live, line[1..]); }
  }

  lemma {:induction false} AboveShift(db: Db, c: Id, m: nat)
    ensures Above(db, ParentOf(db, c), m) == Above(db, c, m + 1)
  {
    if m > 0 { AboveShift(db, c, m - 1); }
  }

  /**
   Where no instance of a line is missing, the bounds hold for all live ancestors: none is more than ten steps
   above, their processes are distinct, and the check refuses each of these processes.
   */
  lemma CoveredBoundsAll(db: Db, c: Id, m: nat)
    requires Valid(db) && Nested(db) && Covered(db) && c in db.live && Above(db, c, m) in db.live
    ensures m <= MAX_DEPTH
    ensures forall j: nat | j < m :: Above(db, c, j) in db.live && db.live[Above(db, c, j)].process != db.live[Above(db, c, m)].process
    ensures !MayStart(db.live, c, db.live[Above(db, c, m)].process, MAX_DEPTH)
  {
    var n := MAX_DEPTH + 2;
    assert RowOk(db, NO_ID) && NestsWell(db.live, c);
    LineageLive(db.live, c, n);
    LineIsLineage(db, c, if m < n then m else n - 1, n);
    forall j: nat | j < m
      ensures Above(db, c, j) in db.live && db.live[Above(db, c, j)].process != db.live[Above(db, c, m)].process
    {
      LineIsLineage(db, c, j, n);
    }
    if m < MAX_DEPTH {
      LineIsLineage(db, c, m, MAX_DEPTH);
    } else {
      TenAbove(db, c, MAX_DEPTH);
    }
  }

  /** With that many live ancestors in a row the walk is cut off. */
  lemma {:induction false} TenAbove(db: Db, c: Id, n: nat)
    requires NO_ID !in db.live && forall j: nat | j <= n :: Above(db, c, j) in db.live
    ensures GoesOn(db.live, c, n)
    decreases n
  {
    assert Above(db, c, 0) in db.live;
    if n > 0 {
      forall j: nat | j <= n - 1 ensures Above(db, db.live[c].parent, j) in db.live {
        AboveShift(db, c, j);
        assert Above(db, c, j + 1) in db.live;
      }
      TenAbove(db, db.live[c].parent, n - 1);
    }
  }

  /** i and the m instances above it are all live. */
  ghost predicate LiveLine(db: Db, i: Id, m: nat) {
    forall j: nat | j <= m :: Above(db, i, j) in db.live
  }

  lemma LiveLineShift(db: Db, i: Id, m: nat)
    requires i in db.live
    ensures LiveLine(db, i, m + 1) <==> LiveLine(db, db.live[i].parent, m)
  {
    if LiveLine(db, db.live[i].parent, m) {
      forall j: nat | j <= m + 1 ensures Above(db, i, j) in db.live {
        if j > 0 { AboveShift(db, i, j - 1); } else { assert Above(db, i, 0) == i; }
      }
    }
    if LiveLine(db, i, m + 1) {
      forall j: nat | j <= m ensures Above(db, db.live[i].parent, j) in db.live {
        AboveShift(db, i, j);
        assert Above(db, i, j + 1) in db.live;
      }
    }
  }

  /** The line goes on: n members are live and the last one names a parent. */
  lemma {:induction false} GoesOnIs(db: Db, i: Id, n: nat)
    requires NO_ID !in db.live && RowOk(db, NO_ID) && NO_ID !in db.issued
    ensures GoesOn(db.live, i, n) <==> (n == 0 || LiveLine(db, i, n - 1)) && Above(db, i, n) != NO_ID
    decreases n
  {
    assert Above(db, i, 0) == i;
    if n > 0 {
      if i in db.live {
        var parent := db.live[i].parent;
        GoesOnIs(db, parent, n - 1);
        AboveShift(db, i, n - 1);
        if n > 1 { LiveLineShift(db, i, n - 2); } else { assert LiveLine(db, i, 0) by { assert Above(db, i, 0) == i; } }
      }
    }
  }

  lemma {:induction false} ProcessesAre(db: Db, i: Id, n: nat, process: Id)
    requires NO_ID !in db.live
    ensures process in LineProcesses(db.live, i, n) <==>
              exists m: nat :: m < n && LiveLine(db, i, m) && db.live[Above(db, i, m)].process == process
    decreases n
  {
    assert Above(db, i, 0) == i;
    if n > 0 && i in db.live {
      var parent := db.live[i].parent;
      ProcessesAre(db, parent, n - 1, process);
      assert Above(db, i, 0) == i && LiveLine(db, i, 0);
      if m: nat :| m < n - 1 && LiveLine(db, parent, m) && db.live[Above(db, parent, m)].process == process {
        AboveShift(db, i, m);
        LiveLineShift(db, i, m);
        assert LiveLine(db, i, m + 1) && db.live[Above(db, i, m + 1)].process == process;
      }
      if m: nat :| m < n && LiveLine(db, i, m) && db.live[Above(db, i, m)].process == process {
        if m > 0 {
          AboveShift(db, i, m - 1);
          LiveLineShift(db, i, m - 1);
        }
      }
    }
  }

  /**
   What the check means: of the parent and the live instances in a row above it none of the first ten runs the
   process, and if all ten are live the tenth names no parent.
   */
  lemma CheckMeaning(db: Db, parent: Id, process: Id)
    requires Valid(db)
    ensures MayStart(db.live, parent, process, MAX_DEPTH) <==>
              && (forall m: nat | m < 10 && LiveLine(db, parent, m) :: db.live[Above(db, parent, m)].process != process)
              && !(LiveLine(db, parent, 9) && Above(db, parent, 10) != NO_ID)
  {
    assert RowOk(db, NO_ID);
    GoesOnIs(db, parent, MAX_DEPTH);
    ProcessesAre(db, parent, MAX_DEPTH, process);
  }

  // ---- Which steps keep lines whole ----

  lemma {:induction false} AboveKept(db: Db, db': Db, c: Id, m: nat)
    requires forall i :: ParentOf(db', i) == ParentOf(db, i)
    ensures Above(db', c, m) == Above(db, c, m)
  {
    if m > 0 { AboveKept(db, db', c, m - 1); }
  }

  /** Termination goes down every line: below a terminated instance of a live line all are terminated. */
  lemma {:induction false} TerminatesBelow(db: Db, root: Id, c: Id, j: nat)
    requires Valid(db) && Nested(db) && AnswerOf(db, Terminate(root)) == Done
    requires (forall k: nat | k <= j :: Above(db, c, k) in db.live) && Above(db, c, j) in Descent(db.live, root)
    ensures c in Descent(db.live, root)
  {
    if j > 0 {
      var x := Above(db, c, j - 1);
      assert x in db.live && RowOk(db, x) && ParentOk(db, x) && RowOk(db, NO_ID);
      assert Above(db, c, j) == db.live[x].parent;
      FamilyEdges(db.live, Above(db, c, j), x);
      RegionClosed(Family(db.live), root);
      TerminatesBelow(db, root, c, j - 1);
    }
  }

  /** What a step takes out of the live table. */
  lemma RemovedBy(db: Db, step: Step, x: Id)
    requires Valid(db) && !step.Start? && x in db.live && x !in Apply(db, step).live
    ensures (step.Complete? && step.id == x && step.seen == Some(Running) && AnswerOf(db, step) == Done)
            || (step.Delete? && step.id == x && AnswerOf(db, step) == Done)
            || (step.Terminate? && AnswerOf(db, step) == Done && x in Descent(db.live, step.id))
  {
  }

  /** Without a gap no line loses an instance from its middle. */
  lemma LineStays(db: Db, step: Step, c: Id, m: nat, j: nat)
    requires Valid(db) && Nested(db) && Covered(db) && !step.Start? && !OpensGap(db, step) && j <= m
    requires c in Apply(db, step).live && Above(db, c, m) in Apply(db, step).live
    ensures Above(db, c, j) in Apply(db, step).live
  {
    var db', b := Apply(db, step), Above(db, c, j);
    StepShrinks(db, step);
    assert forall k: nat | k <= m :: Above(db, c, k) in db.live;
    if b !in db'.live {
      RemovedBy(db, step, b);
      if step.Terminate? {
        TerminatesBelow(db, step.id, c, j);
        assert false;
      } else {
        assert j != 0 && j != m;
        var child := Above(db, c, j - 1);
        assert child in db.live && db.live[child].parent == b && Above(db, c, j + 1) == db.live[b].parent;
        if db.live[b].parent == b || child == b {
          Circles(db, b, c, if child == b then j - 1 else j, m);
        }
        assert false;
      }
    }
  }

  /** A line that comes to an instance that is its own parent stays there. */
  lemma {:induction false} Circles(db: Db, b: Id, c: Id, j: nat, m: nat)
    requires j <= m && Above(db, c, j) == b && ParentOf(db, b) == b
    ensures Above(db, c, m) == b
    decreases m
  {
    if j < m { Circles(db, b, c, j, m - 1); }
  }

  lemma {:induction false} AboveStarted(db: Db, db': Db, id: Id, c: Id, m: nat)
    requires forall i | i != id :: ParentOf(db', i) == ParentOf(db, i) && ParentOf(db, i) != id
    requires c != id
    ensures Above(db', c, m) == Above(db, c, m) != id
  {
    if m > 0 { AboveStarted(db, db', id, c, m - 1); }
  }

  /** Above a child that was started stand its parent and what stands above that. */
  lemma AboveChild(db: Db, db': Db, id: Id, m: nat)
    requires forall i | i != id :: ParentOf(db', i) == ParentOf(db, i) && ParentOf(db, i) != id
    requires ParentOf(db', id) != id
    ensures Above(db', id, m + 1) == Above(db, ParentOf(db', id), m) != id
  {
    AboveShift(db', id, m);
    AboveStarted(db, db', id, ParentOf(db', id), m);
  }

  lemma StartedLine(db: Db, db': Db, id: Id, c: Id, m: nat, j: nat)
    requires Covered(db) && NO_ID !in db.live && RowOk(db, NO_ID) && NO_ID !in db.issued && id !in db.live
    requires forall i | i != id :: ParentOf(db', i) == ParentOf(db, i) && ParentOf(db, i) != id
    requires db'.live.Keys == db.live.Keys + {id} && ParentOf(db', id) != id
    requires ParentOf(db', id) == NO_ID || ParentOf(db', id) in db.live
    requires c in db'.live && Above(db', c, m) in db'.live && j <= m
    ensures Above(db', c, j) in db'.live
  {
    if c != id {
      AboveStarted(db, db', id, c, m);
      AboveStarted(db, db', id, c, j);
    } else if j > 0 {
      AboveChild(db, db', id, m - 1);
      AboveChild(db, db', id, j - 1);
      NothingAbove(db, m - 1);
    }
  }

  lemma StartCovers(db: Db, step: Step)
    requires Valid(db) && Nested(db) && Covered(db) && Allowed(db, step) && step.Start? && AnswerOf(db, step) == Done
    ensures Covered(Apply(db, step))
  {
    var db', id := Apply(db, step), step.id;
    assert RowOk(db, id) && RowOk(db, NO_ID) && RowOk(db, step.parent);
    forall i | i != id ensures ParentOf(db', i) == ParentOf(db, i) && ParentOf(db, i) != id { assert ParentOk(db, i); }
    forall c, m: nat, j: nat | c in db'.live && Above(db', c, m) in db'.live && j <= m ensures Above(db', c, j) in db'.live {
      StartedLine(db, db', id, c, m, j);
    }
  }

  lemma {:induction false} NothingAbove(db: Db, m: nat)
    requires RowOk(db, NO_ID) && NO_ID !in db.issued
    ensures Above(db, NO_ID, m) == NO_ID
  {
    if m > 0 { NothingAbove(db, m - 1); }
  }

  lemma TakenOut(db: Db, step: Step)
    requires OpensGap(db, step)
    ensures Apply(db, step).live == db.live - {step.id}
  {
  }

  /** The walk of the check ends at an instance that is not live. */
  lemma WalkEnds(live: map<Id, Instance>, c: Id, process: Id)
    requires c in live && c != NO_ID && live[c].process != process && live[c].parent !in live
    ensures MayStart(live, c, process, MAX_DEPTH)
  {
    MayStartStep(live, c, process, MAX_DEPTH);
    MayStartStep(live, live[c].parent, process, MAX_DEPTH - 1);
  }

  /** Taking an instance out of the middle hides its parent from the check of its children. */
  lemma GapHides(db: Db, step: Step, c: Id)
    requires Valid(db) && Nested(db) && Covered(db) && OpensGap(db, step) && c in db.live && c != step.id && db.live[c].parent == step.id
    ensures var db', a := Apply(db, step), db.live[step.id].parent;
            && c in db'.live && a in db'.live && Above(db', c, 2) == a && Above(db', c, 1) !in db'.live
            && MayStart(db'.live, c, db'.live[a].process, MAX_DEPTH)
  {
    var db', b := Apply(db, step), step.id;
    var a := db.live[b].parent;
    TakenOut(db, step);
    assert RowOk(db, NO_ID) && RowOk(db, b) && RowOk(db, c) && ParentOk(db, b) && ParentOk(db, c);
    ParentKept(db, step, c);
    ParentKept(db, step, b);
    assert Above(db, c, 0) == c && Above(db, c, 1) == b && Above(db, c, 2) == a;
    assert Above(db', c, 0) == c && Above(db', c, 1) == b && Above(db', c, 2) == a;
    CoveredBoundsAll(db, c, 2);
    assert db.live[Above(db, c, 0)].process != db.live[a].process;
    WalkEnds(db'.live, c, db'.live[a].process);
  }

  /** A step keeps every line whole exactly when it does not take a live instance out between a live child and a live parent. */
  lemma StepCoversExactly(db: Db, step: Step)
    requires Valid(db) && Nested(db) && Covered(db) && Allowed(db, step)
    ensures Covered(Apply(db, step)) <==> !OpensGap(db, step)
  {
    var db' := Apply(db, step);
    if AnswerOf(db, step) != Done {
    } else if step.Start? {
      StartCovers(db, step);
    } else if OpensGap(db, step) {
      var c :| c in db.live && c != step.id && db.live[c].parent == step.id;
      GapHides(db, step, c);
    } else {
      forall i ensures ParentOf(db', i) == ParentOf(db, i) {
        assert RowOk(db, i) && ParentOk(db, i);
        ParentKept(db, step, i);
      }
      forall c, m: nat, j: nat | c in db'.live && Above(db', c, m) in db'.live && j <= m ensures Above(db', c, j) in db'.live {
        AboveKept(db, db', c, m);
        AboveKept(db, db', c, j);
        LineStays(db, step, c, m, j);
      }
    }
  }

  /** Over a whole run: lines stay whole exactly as long as no step opens a gap. */
  lemma {:induction false} CoveredExactly(run: seq<Db>, steps: seq<Step>, k: nat)
    requires IsNestingRun(run, steps) && k < |run|
    ensures (forall j | 0 <= j <= k :: Covered(run[j])) <==> forall j | 0 <= j < k :: !OpensGap(run[j], steps[j])
  {
    if k > 0 {
      CoveredExactly(run, steps, k - 1);
      NestingBounded(run, steps, k - 1);
      NextIs(run, steps, k - 1);
      if Covered(run[k - 1]) { StepCoversExactly(run[k - 1], steps[k - 1]); }
    }
  }

  /**
   As long as no step opened a gap, the bounds hold for every live ancestor through both tables: none is more than
   ten steps above, their processes are distinct, and the check refuses each of them.
   */
  lemma AllAncestorsBounded(run: seq<Db>, steps: seq<Step>, k: nat, c: Id, m: nat)
    requires IsNestingRun(run, steps) && k < |run| && forall j | 0 <= j < k :: !OpensGap(run[j], steps[j])
    requires c in run[k].live && Above(run[k], c, m) in run[k].live
    ensures m <= 10
    ensures forall j: nat | j < m ::
              Above(run[k], c, j) in run[k].live && run[k].live[Above(run[k], c, j)].process != run[k].live[Above(run[k], c, m)].process
    ensures !MayStart(run[k].live, c, run[k].live[Above(run[k], c, m)].process, MAX_DEPTH)
  {
    CoveredExactly(run, steps, k);
    NestingBounded(run, steps, k);
    CoveredBoundsAll(run[k], c, m);
  }

  // ---- Behind a gap ----

  /** a started b, and b started c; then b was deleted. */
  function Gap(a: Id, b: Id, c: Id, p: Id, q: Id, r: Id): Db {
    Db(map[a := Instance(Running, NO_ID, p), c := Instance(Running, b, r)],
       map[b := Instance(Deleted, a, q)], map[], map[], {a, b, c})
  }

  /**
   Deletion leaves the children running, and the walk stops at the archived instance: an instance below the gap
   may start the very process that its live ancestor above the gap runs.
   */
  lemma GapHidesAncestor(a: Id, b: Id, c: Id, p: Id, q: Id, r: Id)
    requires NoDup([NO_ID, a, b, c]) && NoDup([p, q, r])
    ensures var db := Gap(a, b, c, p, q, r);
            && db == Apply(Apply(Apply(Apply(EMPTY, Step.Start(a, NO_ID, p, false)), Step.Start(b, a, q, false)), Step.Start(c, b, r, false)), Delete(b))
            && a in db.live && db.live[a].process == p && db.hist[db.live[c].parent].parent == a
            && MayStart(db.live, c, p, MAX_DEPTH)
  {
    var ids, processes := [NO_ID, a, b, c], [p, q, r];
    assert ids[0] == NO_ID && ids[1] == a && ids[2] == b && ids[3] == c;
    assert processes[0] == p && processes[1] == q && processes[2] == r;
    GapReached(a, b, c, p, q, r);
    var live := Gap(a, b, c, p, q, r).live;
    MayStartStep(live, c, p, MAX_DEPTH);
    MayStartStep(live, b, p, MAX_DEPTH - 1);
  }

  lemma GapReached(a: Id, b: Id, c: Id, p: Id, q: Id, r: Id)
    requires a != b && a != c && b != c && a != NO_ID && b != NO_ID && c != NO_ID
    ensures Gap(a, b, c, p, q, r)
            == Apply(Apply(Apply(Apply(EMPTY, Step.Start(a, NO_ID, p, false)), Step.Start(b, a, q, false)), Step.Start(c, b, r, false)), Delete(b))
  {
    var d1 := Started(EMPTY, a, NO_ID, p);
    var d2 := Started(d1, b, a, q);
    var d3 := Started(d2, c, b, r);
  }

  function Started(db: Db, id: Id, parent: Id, process: Id): Db {
    db.(live := db.live[id := Instance(Running, parent, process)], issued := db.issued + {id})
  }
}
