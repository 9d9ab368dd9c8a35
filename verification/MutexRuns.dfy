/** What the mutexes by key guarantee over every interleaving of their steps. */
module MutexRuns {
  import opened Text
  import opened KeyedMutex

  ghost predicate IsStep(s: State, s': State) {
    exists i, a :: Enabled(s, i, a) && s' == Do(s, i, a)
  }

  ghost predicate IsRun(run: seq<State>) {
    |run| > 0 && run[0] == INITIAL && forall j, k | 0 <= j < k < |run| && k == j + 1 :: IsStep(run[j], run[k])
  }

  lemma {:induction false} RunInv(run: seq<State>, n: nat)
    requires IsRun(run) && n < |run|
    ensures Inv(run[n])
  {
    if n == 0 {
      forall e ensures EntryOk(INITIAL, e) { }
    } else {
      RunInv(run, n - 1);
      assert IsStep(run[n - 1], run[n]);
      var i, a :| Enabled(run[n - 1], i, a) && run[n] == Do(run[n - 1], i, a);
      InvKept(run[n - 1], i, a);
    }
  }

  /** In every interleaving at most one session of a key is in its section. */
  lemma MutualExclusion(run: seq<State>, n: nat, i: Session, j: Session, key: Id)
    requires IsRun(run) && n < |run| && InSection(run[n], i, key) && InSection(run[n], j, key)
    ensures i == j
  {
    RunInv(run, n);
    AloneInSection(run[n], i, key);
  }

  /** The count of an entry is the number of sessions registered on it. */
  lemma WaitersExact(run: seq<State>, n: nat, e: nat)
    requires IsRun(run) && n < |run| && e in run[n].entries
    ensures run[n].entries[e].waiters == |RegisteredAt(run[n], e)|
    ensures run[n].entries[e].waiters > 0 <==> run[n].Current(e)
  {
    var s := run[n];
    RunInv(run, n);
    assert EntryOk(s, e) && KeyOk(s, s.entries[e].key);
    if RegisteredAt(s, e) != {} {
      var i :| i in RegisteredAt(s, e);
      assert SessionOk(s, i);
    }
  }

  /** Once no session is registered the table is empty. */
  lemma NothingLeftBehind(run: seq<State>, n: nat)
    requires IsRun(run) && n < |run| && forall i :: run[n].PcOf(i).Idle? || run[n].PcOf(i).Leaving?
    ensures run[n].locks == map[]
  {
    var s := run[n];
    RunInv(run, n);
    forall k ensures k !in s.locks {
      var e := if k in s.locks then s.locks[k] else 0;
      assert KeyOk(s, k) && EntryOk(s, e);
      forall i ensures i !in RegisteredAt(s, e) { assert s.PcOf(i).Idle? || s.PcOf(i).Leaving?; }
      assert RegisteredAt(s, e) == {};
    }
  }

  /** A registered session gets the mutex at once, or the session that holds it can take its next step. */
  lemma NoDeadlock(run: seq<State>, n: nat, i: Session)
    requires IsRun(run) && n < |run| && run[n].PcOf(i).Registered?
    ensures exists j, a :: Enabled(run[n], j, a) && !a.Register? && run[n].PcOf(j).e == run[n].PcOf(i).e
  {
    var s, e := run[n], run[n].PcOf(i).e;
    RunInv(run, n);
    assert SessionOk(s, i) && EntryOk(s, e);
    var j := s.entries[e].holder;
    if j == 0 {
      assert Enabled(s, i, Acquire);
    } else {
      assert SessionOk(s, j);
      assert Enabled(s, j, if s.PcOf(j).Critical? then Deregister else Unlock);
    }
  }

  /**
   A key nobody holds lets in: `Lock` returns after two steps of its own, and two more give the key back, after
   which it can be locked again.
   */
  lemma FreeKeyLetsIn(run: seq<State>, n: nat, i: Session, key: Id, unused: nat)
    requires IsRun(run) && n < |run| && i != 0 && run[n].PcOf(i).Idle? && unused !in run[n].entries
    requires key in run[n].locks && run[n].locks[key] in run[n].entries ==> run[n].entries[run[n].locks[key]].holder == 0
    ensures var s := run[n];
            Enabled(s, i, Register(key, unused)) &&
            var registered := Do(s, i, Register(key, unused));
            Enabled(registered, i, Acquire) &&
            var locked := Do(registered, i, Acquire);
            InSection(locked, i, key) && Enabled(locked, i, Deregister) &&
            var leaving := Do(locked, i, Deregister);
            !InSection(leaving, i, key) && Enabled(leaving, i, Unlock) &&
            var done := Do(leaving, i, Unlock);
            done.PcOf(i).Idle? && (key in done.locks && done.locks[key] in done.entries ==> done.entries[done.locks[key]].holder == 0)
  {
    RunInv(run, n);
    assert KeyOk(run[n], key);
  }

  /** A waiting session is let in as soon as the one before it has left: its next step enters the section. */
  lemma NextIsLetIn(run: seq<State>, n: nat, i: Session, j: Session)
    requires IsRun(run) && n < |run| && run[n].PcOf(i).Registered? && run[n].PcOf(j) == Leaving(run[n].PcOf(i).e)
    ensures run[n].PcOf(i).e in run[n].entries && Enabled(run[n], j, Unlock)
    ensures var s, key := Do(run[n], j, Unlock), run[n].entries[run[n].PcOf(i).e].key;
            Enabled(s, i, Acquire) && InSection(Do(s, i, Acquire), i, key)
  {
    RunInv(run, n);
    assert SessionOk(run[n], i) && SessionOk(run[n], j);
  }
}
