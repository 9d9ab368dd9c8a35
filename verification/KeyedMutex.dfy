/**
 The mutexes by key that serialise task creation (`keyedMutex` in `components/node_helpers.go`), over every
 interleaving. The entry of a key is dropped before its inner mutex is given back, so an old and a new entry of
 one key can both be locked for a moment; the invariant says why the callers still exclude each other. A section
 under the table's mutex is one step.
 */
module KeyedMutex {
  import opened Text

  /** One call of `Lock` up to the end of its unlock function; 0 stands for none. */
  type Session = nat

  datatype Entry = Entry(key: Id, holder: Session, waiters: int)

  datatype Pc = Idle | Registered(e: nat) | Critical(e: nat) | Leaving(e: nat)

  datatype State = State(entries: map<nat, Entry>, locks: map<Id, nat>, pcs: map<Session, Pc>) {
    function PcOf(i: Session): Pc {
      if i in pcs then pcs[i] else Idle
    }

    predicate Current(e: nat) {
      e in entries && entries[e].key in locks && locks[entries[e].key] == e
    }
  }

  const INITIAL := State(map[], map[], map[])

  datatype Action = Register(key: Id, unused: nat) | Acquire | Deregister | Unlock

  predicate Enabled(s: State, i: Session, a: Action) {
    i != 0 && match a
      case Register(_, unused) => s.PcOf(i).Idle? && unused !in s.entries
      case Acquire => s.PcOf(i).Registered? && s.PcOf(i).e in s.entries && s.entries[s.PcOf(i).e].holder == 0
      case Deregister => s.PcOf(i).Critical? && s.PcOf(i).e in s.entries
      case Unlock => s.PcOf(i).Leaving? && s.PcOf(i).e in s.entries
  }

  function Do(s: State, i: Session, a: Action): State
    requires Enabled(s, i, a)
  {
    match a
    case Register(key, unused) =>
      var s' := if key in s.locks && s.locks[key] in s.entries then s
                else s.(entries := s.entries[unused := Entry(key, 0, 0)], locks := s.locks[key := unused]);
      var e := s'.locks[key];
      s'.(entries := s'.entries[e := s'.entries[e].(waiters := s'.entries[e].waiters + 1)], pcs := s'.pcs[i := Registered(e)])
    case Acquire =>
      var e := s.PcOf(i).e;
      s.(entries := s.entries[e := s.entries[e].(holder := i)], pcs := s.pcs[i := Critical(e)])
    case Deregister =>
      var e := s.PcOf(i).e;
      var x := s.entries[e].(waiters := s.entries[e].waiters - 1);
      s.(entries := s.entries[e := x], pcs := s.pcs[i := Leaving(e)],
         locks := if x.waiters == 0 then s.locks - {x.key} else s.locks)
    case Unlock =>
      var e := s.PcOf(i).e;
      s.(entries := s.entries[e := s.entries[e].(holder := 0)], pcs := s.pcs[i := Idle])
  }

  /** The table of mutexes; each method is one step of a call. */
  class MutexTable {
    var entries: map<nat, Entry>
    var locks: map<Id, nat>
    var pcs: map<Session, Pc>

    constructor ()
      ensures Now() == INITIAL
    {
      entries, locks, pcs := map[], map[], map[];
    }

    function Now(): State
      reads this
    {
      State(entries, locks, pcs)
    }

    /** The first section of `Lock`: find or make the entry and register. */
    method Register(i: Session, key: Id, unused: nat)
      requires Enabled(Now(), i, Action.Register(key, unused)) && Inv(Now())
      modifies this
      ensures Now() == Do(old(Now()), i, Action.Register(key, unused)) && Inv(Now())
      ensures Now().PcOf(i).Registered? && Now().Current(Now().PcOf(i).e) && entries[Now().PcOf(i).e].key == key
    {
      InvKept(Now(), i, Action.Register(key, unused));
      assert KeyOk(Now(), key);
      if key !in locks {
        entries := entries[unused := Entry(key, 0, 0)];
        locks := locks[key := unused];
      }
      var e := locks[key];
      entries := entries[e := entries[e].(waiters := entries[e].waiters + 1)];
      pcs := pcs[i := Registered(e)];
    }

    /** The inner mutex is acquired, and `Lock` returns. */
    method Acquire(i: Session)
      requires Enabled(Now(), i, Action.Acquire) && Inv(Now())
      modifies this
      ensures Now() == Do(old(Now()), i, Action.Acquire) && Inv(Now())
      ensures var key := old(entries[pcs[i].e].key);
              InSection(Now(), i, key) && forall j | j != i :: !InSection(Now(), j, key)
    {
      InvKept(Now(), i, Action.Acquire);
      AloneInSection(Do(Now(), i, Action.Acquire), i, entries[pcs[i].e].key);
      var e := pcs[i].e;
      entries := entries[e := entries[e].(holder := i)];
      pcs := pcs[i := Critical(e)];
    }

    /** The first section of the unlock function: deregister, and forget the key when it was the last one. */
    method Deregister(i: Session)
      requires Enabled(Now(), i, Action.Deregister) && Inv(Now())
      modifies this
      ensures Now() == Do(old(Now()), i, Action.Deregister) && Inv(Now())
      ensures forall key :: !InSection(Now(), i, key)
    {
      InvKept(Now(), i, Action.Deregister);
      var e := pcs[i].e;
      entries := entries[e := entries[e].(waiters := entries[e].waiters - 1)];
      if entries[e].waiters == 0 {
        locks := locks - {entries[e].key};
      }
      pcs := pcs[i := Leaving(e)];
    }

    /** The inner mutex is given back. */
    method Unlock(i: Session)
      requires Enabled(Now(), i, Action.Unlock) && Inv(Now())
      modifies this
      ensures Now() == Do(old(Now()), i, Action.Unlock) && Inv(Now())
    {
      InvKept(Now(), i, Action.Unlock);
      var e := pcs[i].e;
      entries := entries[e := entries[e].(holder := 0)];
      pcs := pcs[i := Idle];
    }
  }

  // ---- The invariant ----

  predicate IsRegistered(pc: Pc, e: nat) {
    (pc.Registered? || pc.Critical?) && pc.e == e
  }

  predicate IsHolding(pc: Pc, e: nat) {
    (pc.Critical? || pc.Leaving?) && pc.e == e
  }

  /** A registered session's entry is the current one, and past `Lock` the session holds its inner mutex. */
  predicate SessionOk(s: State, i: Session) {
    var pc := s.PcOf(i);
    pc.Idle? || (i != 0 && pc.e in s.entries && (IsRegistered(pc, pc.e) ==> s.Current(pc.e))
                 && (IsHolding(pc, pc.e) ==> s.entries[pc.e].holder == i))
  }

  ghost function RegisteredAt(s: State, e: nat): set<Session> {
    set i | i in s.pcs && IsRegistered(s.pcs[i], e)
  }

  ghost predicate EntryOk(s: State, e: nat) {
    e in s.entries ==>
      && (s.entries[e].holder != 0 ==> IsHolding(s.PcOf(s.entries[e].holder), e))
      && s.entries[e].waiters == |RegisteredAt(s, e)|
  }

  predicate KeyOk(s: State, k: Id) {
    k in s.locks ==> s.locks[k] in s.entries && s.entries[s.locks[k]].key == k && s.entries[s.locks[k]].waiters > 0
  }

  ghost predicate Inv(s: State) {
    (forall i :: SessionOk(s, i)) && (forall e :: EntryOk(s, e)) && (forall k :: KeyOk(s, k))
  }

  /** The entry a step works on. */
  function Target(s: State, i: Session, a: Action): nat
    requires Enabled(s, i, a)
  {
    match a
    case Register(key, unused) => if key in s.locks && s.locks[key] in s.entries then s.locks[key] else unused
    case _ => s.PcOf(i).e
  }

  lemma SessionKept(s: State, i: Session, a: Action, j: Session)
    requires Inv(s) && Enabled(s, i, a)
    ensures SessionOk(Do(s, i, a), j)
  {
    assert SessionOk(s, i) && SessionOk(s, j) && EntryOk(s, Target(s, i, a));
    if a.Register? { assert KeyOk(s, a.key); }
    if a.Deregister? && j != i && IsRegistered(s.PcOf(j), s.PcOf(i).e) {
      assert {i, j} <= RegisteredAt(s, s.PcOf(i).e);
      TwoMembers(RegisteredAt(s, s.PcOf(i).e), i, j);
    }
  }

  lemma TwoMembers(s: set<Session>, i: Session, j: Session)
    requires i in s && j in s && i != j
    ensures |s| >= 2
  {
    assert |s - {i} - {j}| == |s| - 2;
  }

  lemma RegisteredAfter(s: State, i: Session, a: Action, e: nat)
    requires Enabled(s, i, a)
    ensures RegisteredAt(Do(s, i, a), e) ==
            if IsRegistered(Do(s, i, a).PcOf(i), e) then RegisteredAt(s, e) + {i} else RegisteredAt(s, e) - {i}
    ensures i in RegisteredAt(s, e) <==> IsRegistered(s.PcOf(i), e)
  {
  }

  /** The count goes up when a session registers and down when it deregisters; an entry without sessions is new. */
  lemma CountMoves(s: State, i: Session, a: Action, e: nat)
    requires Enabled(s, i, a) && SessionOk(s, i) && (a.Register? ==> KeyOk(s, a.key))
    ensures var s' := Do(s, i, a);
            var was := IsRegistered(s.PcOf(i), e);
            var now := IsRegistered(s'.PcOf(i), e);
            e in s'.entries ==>
              (e in s.entries && s'.entries[e].waiters == s.entries[e].waiters + (if now then 1 else 0) - (if was then 1 else 0))
              || (e !in s.entries && now && s'.entries[e].waiters == 1)
  {
  }

  lemma EntryKept(s: State, i: Session, a: Action, e: nat)
    requires Inv(s) && Enabled(s, i, a)
    ensures EntryOk(Do(s, i, a), e)
  {
    assert SessionOk(s, i) && EntryOk(s, e);
    if a.Register? { assert KeyOk(s, a.key); }
    CountKept(s, i, a, e);
  }

  lemma CountKept(s: State, i: Session, a: Action, e: nat)
    requires Enabled(s, i, a) && SessionOk(s, i) && (a.Register? ==> KeyOk(s, a.key)) && EntryOk(s, e)
    requires forall j :: SessionOk(s, j)
    ensures e in Do(s, i, a).entries ==> Do(s, i, a).entries[e].waiters == |RegisteredAt(Do(s, i, a), e)|
  {
    CountMoves(s, i, a, e);
    RegisteredAfter(s, i, a, e);
    if e !in s.entries {
      forall j ensures j !in RegisteredAt(s, e) { assert SessionOk(s, j); }
      assert RegisteredAt(s, e) == {};
    }
  }

  lemma KeyKept(s: State, i: Session, a: Action, k: Id)
    requires Inv(s) && Enabled(s, i, a)
    ensures KeyOk(Do(s, i, a), k)
  {
    assert KeyOk(s, k) && SessionOk(s, i);
    if a.Register? { assert KeyOk(s, a.key); }
    if a.Deregister? {
      assert EntryOk(s, s.PcOf(i).e);
    }
  }

  lemma InvKept(s: State, i: Session, a: Action)
    requires Inv(s) && Enabled(s, i, a)
    ensures Inv(Do(s, i, a))
  {
    forall j ensures SessionOk(Do(s, i, a), j) { SessionKept(s, i, a, j); }
    forall e ensures EntryOk(Do(s, i, a), e) { EntryKept(s, i, a, e); }
    forall k ensures KeyOk(Do(s, i, a), k) { KeyKept(s, i, a, k); }
  }

  /** The session is between the return of `Lock(key)` and the call of its unlock function. */
  predicate InSection(s: State, i: Session, key: Id) {
    s.PcOf(i).Critical? && s.PcOf(i).e in s.entries && s.entries[s.PcOf(i).e].key == key
  }

  lemma AloneInSection(s: State, i: Session, key: Id)
    requires Inv(s) && InSection(s, i, key)
    ensures forall j | j != i :: !InSection(s, j, key)
  {
    assert SessionOk(s, i);
    forall j | j != i ensures !InSection(s, j, key) { assert SessionOk(s, j); }
  }
}
