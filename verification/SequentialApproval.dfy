/**
 Approvers who sign one after the other (`components/user_task_node.go`, sequential mode), and the paging loop
 the progress counts rest on (`components/node_helpers.go`). Calls of `OnMsg` for one node are serialised.
 */
module SequentialApproval {
  import opened Text

  /** How a completed task ended; a completion may carry another reason or none. */
  datatype Verdict = Approved | Rejected | Unmarked

  /** A task of the node. `cached` is the list of approvers kept in its variables. */
  datatype Row = Row(assignee: Id, done: bool, verdict: Verdict, cached: seq<Id>)

  datatype Outcome = CreatedFirst | CreatedNext | Rejection | Success | Waiting

  // ---- Reading tasks page by page ----

  function PageOf(rows: seq<Row>, page: nat, size: nat): seq<Row>
    requires page >= 1
  {
    var from := (page - 1) * size;
    if from >= |rows| then [] else rows[from..if from + size <= |rows| then from + size else |rows|]
  }

  /** `fetchTasksPageAll`: every row, whatever the page size. */
  method FetchTasksPageAll(rows: seq<Row>, size: nat) returns (all: seq<Row>)
    requires size >= 1
    ensures all == rows
  {
    all := [];
    var page := 1;
    while true
      invariant page >= 1 && |all| == (page - 1) * size <= |rows| && all == rows[..|all|]
      decreases |rows| - |all|
    {
      var tasks, total := PageOf(rows, page, size), |rows|;
      all := all + tasks;
      if |all| >= total || |tasks| == 0 { return; }
      assert page * size == (page - 1) * size + size;
      page := page + 1;
    }
  }

  // ---- Counting ----

  function DoneCount(tasks: seq<Row>): nat {
    if tasks == [] then 0 else DoneCount(tasks[..|tasks| - 1]) + if tasks[|tasks| - 1].done then 1 else 0
  }

  predicate SomeVerdict(tasks: seq<Row>, v: Verdict) {
    exists t :: t in tasks && t.done && t.verdict == v
  }

  /** The longest cached list, the first one of that length. */
  function CachedApprovers(tasks: seq<Row>): seq<Id> {
    if tasks == [] then [] else
      var best := CachedApprovers(tasks[..|tasks| - 1]);
      if |tasks[|tasks| - 1].cached| > |best| then tasks[|tasks| - 1].cached else best
  }

  /** `sequentialAssigneesFrom`: the first of the longest cached lists, and none exactly when no task has one. */
  method SequentialAssigneesFrom(tasks: seq<Row>) returns (best: seq<Id>)
    ensures best == CachedApprovers(tasks)
    ensures forall k | 0 <= k < |tasks| :: |tasks[k].cached| <= |best|
    ensures best != [] ==> exists k :: 0 <= k < |tasks| && tasks[k].cached == best
                                       && forall j | 0 <= j < k :: |tasks[j].cached| < |best|
  {
    best := [];
    for i := 0 to |tasks|
      invariant best == CachedApprovers(tasks[..i])
      invariant forall k | 0 <= k < i :: |tasks[k].cached| <= |best|
      invariant best != [] ==> exists k :: 0 <= k < i && tasks[k].cached == best
                                           && forall j | 0 <= j < k :: |tasks[j].cached| < |best|
    {
      assert tasks[..i + 1][..i] == tasks[..i];
      if |tasks[i].cached| > |best| { best := tasks[i].cached; }
    }
    assert tasks[..|tasks|] == tasks;
  }

  method CountDone(tasks: seq<Row>) returns (completed: nat, active: nat)
    ensures completed == DoneCount(tasks) && active == |tasks| - DoneCount(tasks)
  {
    completed, active := 0, 0;
    for i := 0 to |tasks|
      invariant completed == DoneCount(tasks[..i]) && active == i - completed
    {
      assert tasks[..i + 1][..i] == tasks[..i];
      if tasks[i].done { completed := completed + 1; } else { active := active + 1; }
    }
    assert tasks[..|tasks|] == tasks;
  }

  method HasVerdict(tasks: seq<Row>, v: Verdict) returns (has: bool)
    ensures has <==> SomeVerdict(tasks, v)
  {
    for i := 0 to |tasks|
      invariant forall k | 0 <= k < i :: !(tasks[k].done && tasks[k].verdict == v)
    {
      if tasks[i].done && tasks[i].verdict == v {
        assert tasks[i] in tasks;
        return true;
      }
    }
    return false;
  }

  /** `checkTasksCompletion`, sequential case. */
  method CheckTasksCompletion(tasks: seq<Row>) returns (completed: bool)
    ensures completed <==>
              if CachedApprovers(tasks) == [] then DoneCount(tasks) == |tasks|
              else DoneCount(tasks) >= |CachedApprovers(tasks)|
  {
    var done, active := CountDone(tasks);
    var cached := SequentialAssigneesFrom(tasks);
    if |cached| == 0 { return done == |tasks|; }
    return done >= |cached|;
  }

  // ---- The node ----

  /** The approval node of one instance; `approvers` is what resolving them yields. */
  class ApprovalNode {
    const approvers: seq<Id>
    var tasks: seq<Row>

    constructor (approvers: seq<Id>)
      requires approvers != []
      ensures this.approvers == approvers && tasks == []
    {
      this.approvers, tasks := approvers, [];
    }

    /** A task is completed from outside. */
    method Complete(k: nat, v: Verdict)
      requires k < |tasks| && !tasks[k].done
      modifies this
      ensures tasks == Completed(old(tasks), k, v)
    {
      tasks := tasks[k := tasks[k].(done := true, verdict := v)];
    }

    /** `OnMsg` in sequential mode. */
    method OnMsg(pageSize: nat) returns (outcome: Outcome)
      requires approvers != [] && pageSize >= 1
      modifies this
      ensures (tasks, outcome) == React(approvers, old(tasks))
    {
      var existing := FetchTasksPageAll(tasks, pageSize);
      if |existing| == 0 {
        tasks := [Row(approvers[0], false, Unmarked, approvers)];
        return CreatedFirst;
      }
      var allCompleted := CheckTasksCompletion(existing);
      var rejected := HasVerdict(existing, Rejected);
      var approved := HasVerdict(existing, Approved);
      if !allCompleted {
        if rejected { return Rejection; }
        var assignees := SequentialAssigneesFrom(existing);
        if |assignees| == 0 { assignees := approvers; }
        var completed, active := CountDone(existing);
        if active == 0 && completed < |assignees| {
          tasks := tasks + [Row(assignees[completed], false, Unmarked, assignees)];
          return CreatedNext;
        }
      }
      if !allCompleted { return Waiting; }
      if approved && !rejected { return Success; }
      return Rejection;
    }
  }

  function Completed(tasks: seq<Row>, k: nat, v: Verdict): seq<Row>
    requires k < |tasks|
  {
    tasks[k := tasks[k].(done := true, verdict := v)]
  }

  /** The tasks after a call of `OnMsg`, and its outcome. */
  function React(approvers: seq<Id>, tasks: seq<Row>): (seq<Row>, Outcome)
    requires approvers != []
  {
    if tasks == [] then ([Row(approvers[0], false, Unmarked, approvers)], CreatedFirst) else
      var cached := CachedApprovers(tasks);
      var done := DoneCount(tasks);
      var all := if cached == [] then done == |tasks| else done >= |cached|;
      var list := if cached == [] then approvers else cached;
      if all then (tasks, if SomeVerdict(tasks, Approved) && !SomeVerdict(tasks, Rejected) then Success else Rejection)
      else if SomeVerdict(tasks, Rejected) then (tasks, Rejection)
      else if done == |tasks| && done < |list| then (tasks + [Row(list[done], false, Unmarked, list)], CreatedNext)
      else (tasks, Waiting)
  }

  // ---- Runs ----

  /** A call of the node, or the completion of one of its open tasks. */
  datatype Event = Call | Finish(k: nat, v: Verdict)

  ghost predicate CanStep(tasks: seq<Row>, e: Event) {
    e.Finish? ==> e.k < |tasks| && !tasks[e.k].done
  }

  function Next(approvers: seq<Id>, tasks: seq<Row>, e: Event): seq<Row>
    requires approvers != [] && (e.Finish? ==> e.k < |tasks|)
  {
    match e
    case Call => React(approvers, tasks).0
    case Finish(k, v) => Completed(tasks, k, v)
  }

  ghost predicate IsRun(approvers: seq<Id>, states: seq<seq<Row>>, events: seq<Event>)
    requires approvers != []
  {
    && |states| == |events| + 1 && states[0] == []
    && forall j, k | 0 <= j < k < |states| && k == j + 1 ::
         CanStep(states[j], events[j]) && states[k] == Next(approvers, states[j], events[j])
  }

  /** The tasks so far belong to the first approvers in turn; all but the last one are done and none of those was rejected. */
  ghost predicate InTurn(approvers: seq<Id>, tasks: seq<Row>) {
    && |tasks| <= |approvers|
    && (forall k | 0 <= k < |tasks| :: tasks[k].assignee == approvers[k] && tasks[k].cached == approvers)
    && (forall k | 0 <= k < |tasks| - 1 :: tasks[k].done && tasks[k].verdict != Rejected)
  }

  lemma {:induction false} CachedIs(approvers: seq<Id>, tasks: seq<Row>)
    requires tasks != [] && approvers != [] && forall k | 0 <= k < |tasks| :: tasks[k].cached == approvers
    ensures CachedApprovers(tasks) == approvers
  {
    if |tasks| > 1 { CachedIs(approvers, tasks[..|tasks| - 1]); }
  }

  lemma {:induction false} AllDone(tasks: seq<Row>)
    ensures DoneCount(tasks) <= |tasks|
    ensures DoneCount(tasks) == |tasks| <==> forall k | 0 <= k < |tasks| :: tasks[k].done
  {
    if tasks != [] { AllDone(tasks[..|tasks| - 1]); }
  }

  lemma CallKeeps(approvers: seq<Id>, tasks: seq<Row>)
    requires approvers != [] && InTurn(approvers, tasks)
    ensures InTurn(approvers, React(approvers, tasks).0)
  {
    if tasks != [] {
      CachedIs(approvers, tasks);
      AllDone(tasks);
      assert tasks[|tasks| - 1] in tasks;
    }
  }

  lemma {:induction false} RunInTurn(approvers: seq<Id>, states: seq<seq<Row>>, events: seq<Event>, k: nat)
    requires approvers != [] && IsRun(approvers, states, events) && k < |states|
    ensures InTurn(approvers, states[k])
  {
    if k > 0 {
      RunInTurn(approvers, states, events, k - 1);
      if events[k - 1].Call? { CallKeeps(approvers, states[k - 1]); }
    }
  }

  /**
   In every run the k-th task belongs to the k-th approver, at most one task is open and it is the last one, and
   no task was created behind a rejection.
   */
  lemma OneAtATime(approvers: seq<Id>, states: seq<seq<Row>>, events: seq<Event>, i: nat)
    requires approvers != [] && IsRun(approvers, states, events) && i < |states|
    ensures |states[i]| <= |approvers|
    ensures forall k | 0 <= k < |states[i]| :: states[i][k].assignee == approvers[k]
    ensures forall k | 0 <= k < |states[i]| && !states[i][k].done :: k == |states[i]| - 1
    ensures forall k | 0 <= k < |states[i]| && states[i][k].done && states[i][k].verdict == Rejected :: k == |states[i]| - 1
  {
    RunInTurn(approvers, states, events, i);
  }

  /** All approvers have completed a task, none rejected, and at least one marked approval. */
  ghost predicate AllPassed(approvers: seq<Id>, tasks: seq<Row>) {
    && |tasks| == |approvers| && (forall k | 0 <= k < |tasks| :: tasks[k].done && tasks[k].verdict != Rejected)
    && SomeVerdict(tasks, Approved)
  }

  /** What a call answers in a reachable state and what it creates, case by case. */
  lemma CallAnswers(approvers: seq<Id>, states: seq<seq<Row>>, events: seq<Event>, i: nat)
    requires approvers != [] && IsRun(approvers, states, events) && i < |states|
    ensures var tasks, outcome, after := states[i], React(approvers, states[i]).1, React(approvers, states[i]).0;
            if tasks == [] then outcome == CreatedFirst && after == [Row(approvers[0], false, Unmarked, approvers)] else
            var last := tasks[|tasks| - 1];
            && (outcome == Success <==> AllPassed(approvers, tasks))
            && (outcome == Waiting <==> !last.done)
            && (outcome == CreatedNext <==> last.done && last.verdict != Rejected && |tasks| < |approvers|)
            && (outcome == Rejection <==> last.done && (last.verdict == Rejected || (|tasks| == |approvers| && !SomeVerdict(tasks, Approved))))
            && after == if outcome == CreatedNext then tasks + [Row(approvers[|tasks|], false, Unmarked, approvers)] else tasks
  {
    var tasks := states[i];
    RunInTurn(approvers, states, events, i);
    if tasks != [] {
      CachedIs(approvers, tasks);
      AllDone(tasks);
      assert tasks[|tasks| - 1] in tasks;
    }
  }

  ghost predicate AlwaysMarked(events: seq<Event>) {
    forall k | 0 <= k < |events| && events[k].Finish? :: events[k].v != Unmarked
  }

  lemma {:induction false} MarkedTasks(approvers: seq<Id>, states: seq<seq<Row>>, events: seq<Event>, i: nat)
    requires approvers != [] && IsRun(approvers, states, events) && AlwaysMarked(events) && i < |states|
    ensures forall k | 0 <= k < |states[i]| && states[i][k].done :: states[i][k].verdict != Unmarked
  {
    if i > 0 {
      MarkedTasks(approvers, states, events, i - 1);
      assert states[i] == Next(approvers, states[i - 1], events[i - 1]) && CanStep(states[i - 1], events[i - 1]);
    }
  }

  /** Where every completion is an approval or a rejection, success means that each approver approved. */
  lemma SuccessMeansAllApproved(approvers: seq<Id>, states: seq<seq<Row>>, events: seq<Event>, i: nat)
    requires approvers != [] && IsRun(approvers, states, events) && AlwaysMarked(events) && i < |states|
    ensures React(approvers, states[i]).1 == Success <==>
              |states[i]| == |approvers| &&
              forall k | 0 <= k < |approvers| :: states[i][k].done && states[i][k].assignee == approvers[k] && states[i][k].verdict == Approved
  {
    var tasks := states[i];
    if tasks != [] {
      CallAnswers(approvers, states, events, i);
      RunInTurn(approvers, states, events, i);
      MarkedTasks(approvers, states, events, i);
      assert tasks[0] in tasks;
    }
  }

  /**
   Where success is answered, every approver has completed a task and none rejected; each of them approved if and
   only if no completion came without a verdict.
   */
  lemma ApprovedExactly(approvers: seq<Id>, states: seq<seq<Row>>, events: seq<Event>, i: nat)
    requires approvers != [] && IsRun(approvers, states, events) && i < |states|
    requires React(approvers, states[i]).1 == Success
    ensures |states[i]| == |approvers|
    ensures forall k | 0 <= k < |approvers| ::
              states[i][k].done && states[i][k].assignee == approvers[k] && states[i][k].verdict != Rejected
    ensures (forall k | 0 <= k < |approvers| :: states[i][k].verdict == Approved) <==>
              forall k | 0 <= k < |approvers| :: states[i][k].verdict != Unmarked
  {
    if states[i] != [] {
      CallAnswers(approvers, states, events, i);
      RunInTurn(approvers, states, events, i);
    }
  }

  /** A completion without a verdict passes as approval: two approvers, of whom only one approved, succeed. */
  lemma UnmarkedPasses(a: Id, b: Id)
    ensures var approvers := [a, b];
            var tasks := [Row(a, true, Approved, approvers), Row(b, true, Unmarked, approvers)];
            React(approvers, tasks).1 == Success
  {
    var approvers := [a, b];
    var tasks := [Row(a, true, Approved, approvers), Row(b, true, Unmarked, approvers)];
    CachedIs(approvers, tasks);
    AllDone(tasks);
    assert tasks[0] in tasks;
  }

  // ---- Calls that overlap ----

  /** What a call decides on the tasks it read before taking the lock: go on to create the next task. */
  predicate GoesOn(approvers: seq<Id>, read: seq<Row>) {
    && read != [] && DoneCount(read) == |read| && !SomeVerdict(read, Rejected)
    && var cached := CachedApprovers(read);
       DoneCount(read) < if cached == [] then |approvers| else |cached|
  }

  /** The section under the lock: the tasks are read again and counted, but not searched for a rejection. */
  function Advance(list: seq<Id>, tasks: seq<Row>): seq<Row> {
    if DoneCount(tasks) == |tasks| && |tasks| < |list| then tasks + [Row(list[|tasks|], false, Unmarked, list)] else tasks
  }

  /** The tasks, and for each overlapping call what it read. */
  datatype Overlap = Overlap(tasks: seq<Row>, seen: map<nat, seq<Row>>)

  datatype Move = Begin(call: nat) | Resume(call: nat) | End(k: nat, v: Verdict)

  ghost predicate CanMove(approvers: seq<Id>, s: Overlap, m: Move) {
    match m
    case Begin(_) => true
    case Resume(call) => call in s.seen && GoesOn(approvers, s.seen[call])
    case End(k, _) => k < |s.tasks| && !s.tasks[k].done
  }

  function MoveOn(approvers: seq<Id>, s: Overlap, m: Move): Overlap
    requires approvers != [] && (m.Resume? ==> m.call in s.seen) && (m.End? ==> m.k < |s.tasks|)
  {
    match m
    case Begin(call) =>
      if s.tasks == [] then Overlap([Row(approvers[0], false, Unmarked, approvers)], s.seen)
      else s.(seen := s.seen[call := s.tasks])
    case Resume(call) =>
      var cached := CachedApprovers(s.seen[call]);
      s.(tasks := Advance(if cached == [] then approvers else cached, s.tasks))
    case End(k, v) => s.(tasks := Completed(s.tasks, k, v))
  }

  ghost predicate IsOverlappingRun(approvers: seq<Id>, states: seq<Overlap>, moves: seq<Move>)
    requires approvers != []
  {
    && |states| == |moves| + 1 && states[0] == Overlap([], map[])
    && forall j, k | 0 <= j < k < |states| && k == j + 1 ::
         CanMove(approvers, states[j], moves[j]) && states[k] == MoveOn(approvers, states[j], moves[j])
  }

  /** The tasks belong to the first approvers in turn, and only the last one may be open. */
  ghost predicate Ordered(approvers: seq<Id>, tasks: seq<Row>) {
    && |tasks| <= |approvers|
    && (forall k | 0 <= k < |tasks| :: tasks[k].assignee == approvers[k] && tasks[k].cached == approvers)
    && (forall k | 0 <= k < |tasks| - 1 :: tasks[k].done)
  }

  ghost predicate AllOrdered(approvers: seq<Id>, s: Overlap) {
    Ordered(approvers, s.tasks) && forall c | c in s.seen :: Ordered(approvers, s.seen[c])
  }

  lemma AdvanceOrdered(approvers: seq<Id>, tasks: seq<Row>)
    requires approvers != [] && Ordered(approvers, tasks)
    ensures Ordered(approvers, Advance(approvers, tasks))
  {
    AllDone(tasks);
  }

  lemma MoveOrdered(approvers: seq<Id>, s: Overlap, m: Move)
    requires approvers != [] && AllOrdered(approvers, s) && CanMove(approvers, s, m)
    ensures AllOrdered(approvers, MoveOn(approvers, s, m))
  {
    if m.Resume? {
      CachedIs(approvers, s.seen[m.call]);
      AdvanceOrdered(approvers, s.tasks);
    }
  }

  /** However calls overlap, no place in the list gets two tasks and at most one task is open: the second count under the lock sees to it. */
  lemma {:induction false} OrderSurvivesOverlap(approvers: seq<Id>, states: seq<Overlap>, moves: seq<Move>, i: nat)
    requires approvers != [] && IsOverlappingRun(approvers, states, moves) && i < |states|
    ensures AllOrdered(approvers, states[i])
  {
    if i > 0 {
      OrderSurvivesOverlap(approvers, states, moves, i - 1);
      assert CanMove(approvers, states[i - 1], moves[i - 1]) && states[i] == MoveOn(approvers, states[i - 1], moves[i - 1]);
      MoveOrdered(approvers, states[i - 1], moves[i - 1]);
    }
  }

  /** What a call read and was done then still stands: rows are only added, and a done row does not change. */
  ghost predicate StillStands(s: Overlap, call: nat, k: nat) {
    call in s.seen && k < |s.seen[call]| && s.seen[call][k].done ==> k < |s.tasks| && s.tasks[k] == s.seen[call][k]
  }

  lemma Moves(approvers: seq<Id>, states: seq<Overlap>, moves: seq<Move>, i: nat)
    requires approvers != [] && IsOverlappingRun(approvers, states, moves) && i < |moves|
    ensures CanMove(approvers, states[i], moves[i]) && states[i + 1] == MoveOn(approvers, states[i], moves[i])
  {
    var k := i + 1;
    var next := states[k];
    assert CanMove(approvers, states[i], moves[i]);
  }

  lemma {:induction false} ReadsStand(approvers: seq<Id>, states: seq<Overlap>, moves: seq<Move>, i: nat, call: nat, k: nat)
    requires approvers != [] && IsOverlappingRun(approvers, states, moves) && i < |states|
    ensures StillStands(states[i], call, k)
  {
    if i > 0 {
      ReadsStand(approvers, states, moves, i - 1, call, k);
      Moves(approvers, states, moves, i - 1);
    }
  }

  /** The call goes on to create a task although the last one was rejected. */
  ghost predicate PassesRejection(approvers: seq<Id>, s: Overlap, m: Move) {
    && m.Resume? && 0 < |s.tasks| < |approvers|
    && s.tasks[|s.tasks| - 1].done && s.tasks[|s.tasks| - 1].verdict == Rejected
  }

  /** Some task stands behind a rejected one. */
  ghost predicate FollowsRejection(tasks: seq<Row>) {
    exists k :: 0 <= k < |tasks| - 1 && tasks[k].done && tasks[k].verdict == Rejected
  }

  lemma AdvanceIs(approvers: seq<Id>, tasks: seq<Row>)
    requires tasks != [] && Ordered(approvers, tasks)
    ensures Advance(approvers, tasks) == if tasks[|tasks| - 1].done && |tasks| < |approvers|
                                         then tasks + [Row(approvers[|tasks|], false, Unmarked, approvers)] else tasks
  {
    AllDone(tasks);
  }

  /**
   What a call does that was cleared to go on: it creates the task of the next approver exactly when the last
   task is done and approvers are left, whatever the verdict of that task.
   */
  lemma ResumeCreates(approvers: seq<Id>, states: seq<Overlap>, moves: seq<Move>, i: nat)
    requires approvers != [] && IsOverlappingRun(approvers, states, moves) && i < |moves| && moves[i].Resume?
    ensures var tasks, next := states[i].tasks, states[i + 1].tasks;
            && tasks != []
            && next == if tasks[|tasks| - 1].done && |tasks| < |approvers|
                       then tasks + [Row(approvers[|tasks|], false, Unmarked, approvers)] else tasks
  {
    var s, call := states[i], moves[i].call;
    OrderSurvivesOverlap(approvers, states, moves, i);
    Moves(approvers, states, moves, i);
    var read := s.seen[call];
    CachedIs(approvers, read);
    AllDone(read);
    ReadsStand(approvers, states, moves, i, call, 0);
    assert StillStands(s, call, 0);
    AdvanceIs(approvers, s.tasks);
  }

  /** A call that passes a rejection read the tasks before the rejected one was created. */
  lemma PassingCallIsStale(approvers: seq<Id>, states: seq<Overlap>, moves: seq<Move>, i: nat)
    requires approvers != [] && IsOverlappingRun(approvers, states, moves) && i < |moves|
    requires PassesRejection(approvers, states[i], moves[i])
    ensures moves[i].call in states[i].seen && states[i].seen[moves[i].call] < states[i].tasks
  {
    var s, call := states[i], moves[i].call;
    Moves(approvers, states, moves, i);
    var read := s.seen[call];
    AllDone(read);
    forall k | 0 <= k < |read| ensures k < |s.tasks| && s.tasks[k] == read[k] {
      ReadsStand(approvers, states, moves, i, call, k);
      assert StillStands(s, call, k);
    }
    assert read[|read| - 1] in read;
  }

  /** A task comes to stand behind a rejected one only by a call that passes the rejection. */
  lemma MoveFollows(approvers: seq<Id>, states: seq<Overlap>, moves: seq<Move>, i: nat)
    requires approvers != [] && IsOverlappingRun(approvers, states, moves) && i < |moves|
    ensures FollowsRejection(states[i + 1].tasks) <==>
              FollowsRejection(states[i].tasks) || PassesRejection(approvers, states[i], moves[i])
  {
    var s, s' := states[i], states[i + 1];
    OrderSurvivesOverlap(approvers, states, moves, i);
    Moves(approvers, states, moves, i);
    if moves[i].Resume? { ResumeCreates(approvers, states, moves, i); }
    if k :| 0 <= k < |s.tasks| - 1 && s.tasks[k].done && s.tasks[k].verdict == Rejected { assert s'.tasks[k] == s.tasks[k]; }
    if k :| 0 <= k < |s'.tasks| - 1 && s'.tasks[k].done && s'.tasks[k].verdict == Rejected {
      if k < |s.tasks| - 1 { assert s.tasks[k] == s'.tasks[k]; }
    }
    if PassesRejection(approvers, s, moves[i]) {
      var k := |s.tasks| - 1;
      assert s'.tasks[k] == s.tasks[k];
    }
  }

  /**
   When a task follows a rejection in a run of overlapping calls: exactly when a call that was cleared to go on
   before is resumed behind a rejected last task while approvers are left.
   */
  lemma {:induction false} FollowsRejectionExactly(approvers: seq<Id>, states: seq<Overlap>, moves: seq<Move>, i: nat)
    requires approvers != [] && IsOverlappingRun(approvers, states, moves) && i < |states|
    ensures FollowsRejection(states[i].tasks) <==> exists j :: 0 <= j < i && PassesRejection(approvers, states[j], moves[j])
  {
    if i > 0 {
      FollowsRejectionExactly(approvers, states, moves, i - 1);
      MoveFollows(approvers, states, moves, i - 1);
    }
  }

  /** a approved; two calls read that; the first one creates the task of b. */
  function AfterFirst(a: Id, b: Id, c: Id): Overlap {
    var l := [a, b, c];
    var read := [Row(a, true, Approved, l)];
    Overlap(read + [Row(b, false, Unmarked, l)], map[1 := read, 2 := read])
  }

  /**
   Only serialised calls stop at a rejection: a call that read the tasks before b rejected goes on to create the
   task of c, because the section under the lock does not look for rejections again.
   */
  lemma StaleCallPassesRejection(a: Id, b: Id, c: Id)
    ensures var l := [a, b, c];
            var s := AfterFirst(a, b, c);
            var rejected := MoveOn(l, s, End(1, Rejected));
            && CanMove(l, s, End(1, Rejected)) && CanMove(l, rejected, Resume(2))
            && PassesRejection(l, rejected, Resume(2)) && FollowsRejection(MoveOn(l, rejected, Resume(2)).tasks)
  {
    var l := [a, b, c];
    var s := AfterFirst(a, b, c);
    var rejected := MoveOn(l, s, End(1, Rejected));
    var read := s.seen[2];
    CachedIs(l, read);
    AllDone(read);
    AllDone(rejected.tasks);
    var last := MoveOn(l, rejected, Resume(2)).tasks;
    assert last == rejected.tasks + [Row(c, false, Unmarked, l)] && last[1] == rejected.tasks[1];
  }

  /** The state of that case is reached. */
  lemma AfterFirstReached(a: Id, b: Id, c: Id)
    ensures var l := [a, b, c];
            var s0 := Overlap([], map[]);
            var s1 := MoveOn(l, s0, Begin(0));
            var s2 := MoveOn(l, s1, End(0, Approved));
            var s3 := MoveOn(l, s2, Begin(1));
            var s4 := MoveOn(l, s3, Begin(2));
            && CanMove(l, s1, End(0, Approved)) && CanMove(l, s4, Resume(1))
            && MoveOn(l, s4, Resume(1)) == AfterFirst(a, b, c)
  {
    var l := [a, b, c];
    var read := [Row(a, true, Approved, l)];
    var s4 := Overlap(read, map[1 := read, 2 := read]);
    CachedIs(l, read);
    AllDone(read);
    assert read[0] in read;
    assert MoveOn(l, Overlap([], map[]), Begin(0)).tasks == [Row(a, false, Unmarked, l)];
    assert Completed([Row(a, false, Unmarked, l)], 0, Approved) == read;
    assert MoveOn(l, s4, Resume(1)).tasks == AfterFirst(a, b, c).tasks;
  }
}
