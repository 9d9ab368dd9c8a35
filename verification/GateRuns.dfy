/** What the gate of an instance guarantees over every interleaving of its steps. */
module GateRuns {
  import opened Text
  import opened ExecGate

  ghost predicate IsStep(s: State, s': State) {
    exists t, a :: Enabled(s, t, a) && s' == Do(s, t, a)
  }

  ghost predicate IsRun(run: seq<State>) {
    |run| > 0 && run[0] == INITIAL && forall j, k | 0 <= j < k < |run| && k == j + 1 :: IsStep(run[j], run[k])
  }

  lemma {:induction false} RunInv(run: seq<State>, i: nat)
    requires IsRun(run) && i < |run|
    ensures Inv(run[i])
  {
    if i == 0 {
      InitialInv();
    } else {
      RunInv(run, i - 1);
      assert IsStep(run[i - 1], run[i]);
      var t, a :| Enabled(run[i - 1], t, a) && run[i] == Do(run[i - 1], t, a);
      InvKept(run[i - 1], t, a);
    }
  }

  /** In every interleaving at most one goroutine is through the gate of an instance. */
  lemma MutualExclusion(run: seq<State>, i: nat, t: Gid, u: Gid, key: Id)
    requires IsRun(run) && i < |run| && Through(run[i], t, key) && Through(run[i], u, key)
    ensures t == u
  {
    RunInv(run, i);
    OneThrough(run[i], t, u, key);
  }

  /** An entry with an owner or a waiter is the one the table holds, and its counters are exact. */
  lemma BusyIsCurrent(run: seq<State>, i: nat, e: nat)
    requires IsRun(run) && i < |run| && e in run[i].entries
    ensures run[i].entries[e].owner != 0 || WaitersOf(run[i], e) != {} ==> run[i].Current(e)
    ensures run[i].entries[e].waiters == |WaitersOf(run[i], e)|
    ensures run[i].entries[e].owner != 0 ==> run[i].tokens[Token(run[i].entries[e].owner, e)] == run[i].entries[e].depth > 0
  {
    RunInv(run, i);
    assert EntryOk(run[i], e) && CountOk(run[i], e);
  }

  /** Once every call has returned and every release function was called, no instance has an entry in the table. */
  lemma NothingLeftBehind(run: seq<State>, i: nat)
    requires IsRun(run) && i < |run| && run[i].tokens == multiset{} && forall t :: run[i].PcOf(t) == Idle
    ensures forall k | k in run[i].gates :: k == NO_ID
  {
    var s := run[i];
    RunInv(run, i);
    forall k ensures k in s.gates ==> k == NO_ID {
      var e := if k in s.gates then s.gates[k] else 0;
      assert GateOk(s, k);
      assert EntryOk(s, e) && CountOk(s, e);
      forall t ensures t !in WaitersOf(s, e) { assert s.PcOf(t) == Idle; }
      assert WaitersOf(s, e) == {};
    }
  }

  /** The call is answered as re-entrant exactly when the goroutine is already through this gate. */
  lemma ReentrantExactly(run: seq<State>, i: nat, t: Gid)
    requires IsRun(run) && i < |run| && run[i].PcOf(t).Inside?
    ensures run[i].PcOf(t).e in run[i].entries
    ensures var x := run[i].entries[run[i].PcOf(t).e];
            x.owner == t <==> Through(run[i], t, x.key)
  {
    RunInv(run, i);
    OwnerIsThrough(run[i], t);
  }

  /** A goroutine never waits for a gate it is through itself. */
  lemma NoSelfWait(run: seq<State>, i: nat, t: Gid, e: nat)
    requires IsRun(run) && i < |run| && Waits(run[i].PcOf(t), e)
    ensures e in run[i].entries && !Through(run[i], t, run[i].entries[e].key)
  {
    var s := run[i];
    RunInv(run, i);
    assert ThreadOk(s, t);
    forall token | token in s.tokens && token.gid == t ensures !SameKey(s, e, token.e) {
      assert HeldOk(s, t, token) && TokenOk(s, token);
    }
  }

  lemma {:induction false} UnusedExists(used: set<nat>) returns (n: nat)
    ensures n !in used
    ensures forall x | x in used :: x < n
    decreases |used|
  {
    if used == {} {
      n := 0;
    } else {
      var x :| x in used;
      var m := UnusedExists(used - {x});
      n := if x < m then m else x + 1;
      forall y | y in used ensures y < n { assert y == x || y in used - {x}; }
    }
  }

  /** The goroutine inside a section can go on. */
  lemma HolderSteps(s: State, e: nat) returns (a: Action)
    requires e in s.entries && EntryOk(s, e) && s.entries[e].mu != 0
    ensures Enabled(s, s.entries[e].mu, a) && !a.Call? && !a.Release?
  {
    var pc := s.PcOf(s.entries[e].mu);
    a := if pc.Inside? then Examine else if pc.Checked? then Claim else if pc.Woken? then Recheck
         else if pc.Deleting? then Delete else Leave;
  }

  /**
   Nobody waits for ever at a gate nobody is through, whatever happens at other gates: a goroutine that asks for a
   gate can look up its entry, and for one that did some goroutine at the same entry can take its next step.
   */
  lemma NoDeadlock(run: seq<State>, i: nat, t: Gid)
    requires IsRun(run) && i < |run| && t != 0 && run[i].PcOf(t) != Idle
    ensures var s, pc := run[i], run[i].PcOf(t);
            if pc.Wants? then exists n :: Enabled(s, t, Lookup(n))
            else pc.e in s.entries
                 && ((exists u :: Through(s, u, s.entries[pc.e].key))
                     || exists u, a :: PointsTo(s, u, pc.e) && Enabled(s, u, a) && !a.Call? && !a.Release?)
  {
    var s := run[i];
    RunInv(run, i);
    if s.PcOf(t).Wants? {
      var n := UnusedExists(s.entries.Keys);
      assert Enabled(s, t, Lookup(n));
    } else {
      var e := s.PcOf(t).e;
      assert ThreadOk(s, t) && EntryOk(s, e);
      var x := s.entries[e];
      if x.mu != 0 {
        var a := HolderSteps(s, e);
        assert PointsTo(s, x.mu, e);
      } else if x.owner != 0 {
        assert Token(x.owner, e) in s.tokens;
        assert Through(s, x.owner, x.key);
      } else {
        assert PointsTo(s, t, e) && Enabled(s, t, if s.PcOf(t).Loaded? then Lock else Wake);
      }
    }
  }

  /**
   No wake-up is lost: behind every goroutine that sleeps and was not woken stands the goroutine that is through
   the gate, or one that is about to broadcast at this very entry.
   */
  lemma SleeperHasWaker(run: seq<State>, i: nat, t: Gid)
    requires IsRun(run) && i < |run| && run[i].PcOf(t).Sleeping? && !run[i].PcOf(t).signaled
    ensures var s, e := run[i], run[i].PcOf(t).e;
            && e in s.entries
            && ((exists u :: u != t && Token(u, e) in s.tokens)
                || exists u :: u != t && (s.PcOf(u) == Deleting(e) || s.PcOf(u) == Leaving(e)))
  {
    var s, e := run[i], run[i].PcOf(t).e;
    RunInv(run, i);
    assert ThreadOk(s, t) && EntryOk(s, e);
    var x := s.entries[e];
    if x.owner != 0 {
      assert Token(x.owner, e) in s.tokens;
    } else {
      assert s.PcOf(x.mu) == Deleting(e) || s.PcOf(x.mu) == Leaving(e);
    }
  }

  // ---- A free gate lets in ----

  /** t can take these steps one after the other while nobody else moves. */
  ghost predicate CanGo(s: State, t: Gid, steps: seq<Action>)
    decreases |steps|
  {
    steps == [] || (Enabled(s, t, steps[0]) && CanGo(Do(s, t, steps[0]), t, steps[1..]))
  }

  ghost function Gone(s: State, t: Gid, steps: seq<Action>): State
    requires CanGo(s, t, steps)
    decreases |steps|
  {
    if steps == [] then s else Gone(Do(s, t, steps[0]), t, steps[1..])
  }

  /** The steps lead t through the gate. */
  ghost predicate LeadsIn(s: State, t: Gid, key: Id, steps: seq<Action>) {
    && CanGo(s, t, steps) && Through(Gone(s, t, steps), t, key)
    && forall a | a in steps :: !a.Call? && !a.Release?
  }

  /** Nobody is through the gate of the key, and nobody but t is inside a section of one of its entries. */
  ghost predicate IsFree(s: State, t: Gid, key: Id) {
    && (forall u :: !Through(s, u, key))
    && forall e | e in s.entries && s.entries[e].key == key :: s.entries[e].mu == 0 || s.entries[e].mu == t
  }

  /** t asks for the gate of the key and is not asleep. */
  ghost predicate AsksFor(s: State, t: Gid, key: Id) {
    var pc := s.PcOf(t);
    pc == Wants(key) || (IsAcquiring(pc) && pc.e in s.entries && s.entries[pc.e].key == key && (pc.Sleeping? ==> pc.signaled))
  }

  lemma FirstStep(s: State, t: Gid, key: Id, a: Action, rest: seq<Action>)
    requires Enabled(s, t, a) && !a.Call? && !a.Release? && LeadsIn(Do(s, t, a), t, key, rest)
    ensures LeadsIn(s, t, key, [a] + rest)
  {
    assert ([a] + rest)[1..] == rest;
  }

  lemma Arrived(s: State, t: Gid, key: Id, a: Action)
    requires Enabled(s, t, a) && !a.Call? && !a.Release? && Through(Do(s, t, a), t, key)
    ensures LeadsIn(s, t, key, [a])
  {
    assert LeadsIn(Do(s, t, a), t, key, []);
    FirstStep(s, t, key, a, []);
    assert [a] + [] == [a];
  }

  lemma FreeHasNoOwner(s: State, t: Gid, key: Id, e: nat)
    requires Inv(s) && IsFree(s, t, key) && e in s.entries && s.entries[e].key == key
    ensures s.entries[e].owner == 0
  {
    assert EntryOk(s, e);
    if s.entries[e].owner != 0 {
      assert Token(s.entries[e].owner, e) in s.tokens;
      assert Through(s, s.entries[e].owner, key);
    }
  }

  /** Inside the section of the current entry: the gate is found free and taken. */
  lemma TakesCurrent(s: State, t: Gid, key: Id) returns (steps: seq<Action>)
    requires Inv(s) && t != 0 && IsFree(s, t, key) && s.PcOf(t).Inside?
    requires s.Current(s.PcOf(t).e) && s.entries[s.PcOf(t).e].key == key
    ensures LeadsIn(s, t, key, steps) && |steps| == 2
  {
    var e := s.PcOf(t).e;
    FreeHasNoOwner(s, t, key, e);
    var s1 := Do(s, t, Examine);
    var s2 := Do(s1, t, Claim);
    assert Token(t, e) in s2.tokens && s2.entries[e].key == key;
    Arrived(s1, t, key, Claim);
    FirstStep(s, t, key, Examine, [Claim]);
    steps := [Examine] + [Claim];
  }

  lemma LocksCurrent(s: State, t: Gid, key: Id) returns (steps: seq<Action>)
    requires Inv(s) && t != 0 && IsFree(s, t, key) && s.PcOf(t).Loaded?
    requires s.Current(s.PcOf(t).e) && s.entries[s.PcOf(t).e].key == key
    ensures LeadsIn(s, t, key, steps) && |steps| == 3
  {
    var e := s.PcOf(t).e;
    assert EntryOk(s, e);
    var s1 := Do(s, t, Lock);
    InvKept(s, t, Lock);
    forall u ensures !Through(s1, u, key) { SameThrough(s, s1, u, key); }
    var rest := TakesCurrent(s1, t, key);
    FirstStep(s, t, key, Lock, rest);
    steps := [Lock] + rest;
  }

  /** Being through depends on the release functions and the keys of their entries only. */
  lemma SameThrough(s: State, s': State, u: Gid, key: Id)
    requires Inv(s) && s'.tokens == s.tokens
    requires forall e | e in s.entries :: e in s'.entries && s'.entries[e].key == s.entries[e].key
    ensures Through(s', u, key) ==> Through(s, u, key)
  {
    if Through(s', u, key) {
      var token :| token in s'.tokens && token.gid == u && token.e in s'.entries && s'.entries[token.e].key == key;
      assert TokenOk(s, token);
    }
  }

  /** The table is asked: the entry looked up is the current one. */
  lemma LooksUp(s: State, t: Gid, key: Id) returns (steps: seq<Action>)
    requires Inv(s) && t != 0 && IsFree(s, t, key) && s.PcOf(t) == Wants(key)
    ensures LeadsIn(s, t, key, steps) && |steps| == 4
  {
    var n := UnusedExists(s.entries.Keys);
    assert GateOk(s, key);
    var s1 := Do(s, t, Lookup(n));
    InvKept(s, t, Lookup(n));
    forall u ensures !Through(s1, u, key) { SameThrough(s, s1, u, key); }
    var rest := LocksCurrent(s1, t, key);
    FirstStep(s, t, key, Lookup(n), rest);
    steps := [Lookup(n)] + rest;
  }

  /** Inside the section of any entry of the key: an orphan sends the goroutine back to the table. */
  lemma Examines(s: State, t: Gid, key: Id) returns (steps: seq<Action>)
    requires Inv(s) && t != 0 && IsFree(s, t, key) && s.PcOf(t).Inside?
    requires s.PcOf(t).e in s.entries && s.entries[s.PcOf(t).e].key == key
    ensures LeadsIn(s, t, key, steps) && |steps| <= 5
  {
    var e := s.PcOf(t).e;
    FreeHasNoOwner(s, t, key, e);
    if s.Current(e) {
      steps := TakesCurrent(s, t, key);
    } else {
      var s1 := Do(s, t, Examine);
      InvKept(s, t, Examine);
      forall u ensures !Through(s1, u, key) { SameThrough(s, s1, u, key); }
      var rest := LooksUp(s1, t, key);
      FirstStep(s, t, key, Examine, rest);
      steps := [Examine] + rest;
    }
  }

  lemma Locks(s: State, t: Gid, key: Id) returns (steps: seq<Action>)
    requires Inv(s) && t != 0 && IsFree(s, t, key) && s.PcOf(t).Loaded?
    requires s.PcOf(t).e in s.entries && s.entries[s.PcOf(t).e].key == key
    ensures LeadsIn(s, t, key, steps) && |steps| <= 6
  {
    var e := s.PcOf(t).e;
    assert ThreadOk(s, t) && EntryOk(s, e);
    var s1 := Do(s, t, Lock);
    InvKept(s, t, Lock);
    forall u ensures !Through(s1, u, key) { SameThrough(s, s1, u, key); }
    var rest := Examines(s1, t, key);
    FirstStep(s, t, key, Lock, rest);
    steps := [Lock] + rest;
  }

  /** A goroutine that was woken and finds no owner takes the gate with its next step. */
  lemma Rechecks(s: State, t: Gid, key: Id)
    requires Inv(s) && t != 0 && IsFree(s, t, key) && s.PcOf(t).Woken?
    requires s.PcOf(t).e in s.entries && s.entries[s.PcOf(t).e].key == key
    ensures LeadsIn(s, t, key, [Recheck])
  {
    var e := s.PcOf(t).e;
    FreeHasNoOwner(s, t, key, e);
    var s1 := Do(s, t, Recheck);
    assert Token(t, e) in s1.tokens && s1.entries[e].key == key;
    Arrived(s, t, key, Recheck);
  }

  lemma Wakes(s: State, t: Gid, key: Id)
    requires Inv(s) && t != 0 && IsFree(s, t, key) && s.PcOf(t).Sleeping? && s.PcOf(t).signaled
    requires s.PcOf(t).e in s.entries && s.entries[s.PcOf(t).e].key == key
    ensures LeadsIn(s, t, key, [Wake] + [Recheck])
  {
    assert EntryOk(s, s.PcOf(t).e);
    var s1 := Do(s, t, Wake);
    InvKept(s, t, Wake);
    forall u ensures !Through(s1, u, key) { SameThrough(s, s1, u, key); }
    Rechecks(s1, t, key);
    FirstStep(s, t, key, Wake, [Recheck]);
  }

  /**
   A free gate lets in: a goroutine that asks for a gate nobody is through, and whose entries nobody else is
   working on, is through after at most six steps of its own.
   */
  lemma FreeGateLetsIn(run: seq<State>, i: nat, t: Gid, key: Id) returns (steps: seq<Action>)
    requires IsRun(run) && i < |run| && t != 0 && AsksFor(run[i], t, key) && IsFree(run[i], t, key)
    ensures LeadsIn(run[i], t, key, steps) && |steps| <= 6
  {
    var s := run[i];
    RunInv(run, i);
    assert ThreadOk(s, t);
    match s.PcOf(t) {
      case Wants(_) => steps := LooksUp(s, t, key);
      case Loaded(_) => steps := Locks(s, t, key);
      case Inside(_) => steps := Examines(s, t, key);
      case Checked(e) =>
        assert Token(t, e) in Do(s, t, Claim).tokens;
        Arrived(s, t, key, Claim);
        steps := [Claim];
      case Sleeping(_, _) =>
        Wakes(s, t, key);
        steps := [Wake] + [Recheck];
      case Woken(_) =>
        Rechecks(s, t, key);
        steps := [Recheck];
    }
  }

  /** The steps of a release function after the first: the key is dropped if nobody owns or waits for the gate, and t leaves. */
  ghost function Finished(s: State, t: Gid): State
    requires Inv(s) && t != 0 && (s.PcOf(t).Deleting? || s.PcOf(t).Leaving?)
  {
    assert ThreadOk(s, t);
    InvFinishes(s, t);
    Do(if s.PcOf(t).Deleting? then Do(s, t, Delete) else s, t, Leave)
  }

  lemma InvFinishes(s: State, t: Gid)
    requires Inv(s) && t != 0 && (s.PcOf(t).Deleting? || s.PcOf(t).Leaving?)
    ensures if s.PcOf(t).Deleting? then Enabled(s, t, Delete) && Enabled(Do(s, t, Delete), t, Leave) else Enabled(s, t, Leave)
  {
    assert ThreadOk(s, t);
  }

  /**
   What a release function does, run to its end: it takes one entry into the gate back. The last one leaves nobody
   through, wakes every sleeper of the entry, and drops the key if nobody waits.
   */
  lemma ReleaseGivesBack(run: seq<State>, i: nat, t: Gid, token: Token)
    requires IsRun(run) && i < |run| && Enabled(run[i], t, Release(token))
    ensures var s, e, s' := run[i], token.e, Do(run[i], t, Release(token));
            && Inv(s') && (s'.PcOf(t) == Deleting(e) || s'.PcOf(t) == Leaving(e)) && s'.tokens == s.tokens - multiset{token}
            && var key, last, done := s.entries[e].key, s.tokens[token] == 1, Finished(s', t);
               && done.tokens == s'.tokens && done.PcOf(t) == Idle && e in done.entries && done.entries[e].mu == 0
               && (forall u | done.PcOf(u).Sleeping? && done.PcOf(u).e == e :: done.PcOf(u).signaled)
               && (if last then forall u :: !Through(done, u, key) else Through(done, token.gid, key))
               && done.gates == if last && s.entries[e].waiters == 0 && key != NO_ID then s.gates - {key} else s.gates
  {
    var s, e, s' := run[i], token.e, Do(run[i], t, Release(token));
    RunInv(run, i);
    InvKept(s, t, Release(token));
    assert TokenOk(s, token) && EntryOk(s, e) && ThreadOk(s', t);
    InvFinishes(s', t);
    var key, done := s.entries[e].key, Finished(s', t);
    KeysStay(s, s', t, token);
    if s.tokens[token] == 1 {
      forall x | x in done.tokens && x.e in done.entries ensures done.entries[x.e].key != key {
        assert x in s.tokens && TokenOk(s, x) && EntryOk(s, x.e);
      }
    } else {
      assert token in done.tokens;
    }
  }

  lemma KeysStay(s: State, s': State, t: Gid, token: Token)
    requires Inv(s) && Enabled(s, t, Release(token)) && s' == Do(s, t, Release(token)) && Inv(s')
    requires t != 0 && (s'.PcOf(t).Deleting? || s'.PcOf(t).Leaving?)
    ensures forall f :: f in Finished(s', t).entries <==> f in s.entries
    ensures forall f | f in s.entries :: Finished(s', t).entries[f].key == s.entries[f].key
  {
    InvFinishes(s', t);
  }
}
