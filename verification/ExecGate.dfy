/**
 The re-entrant gate of one instance (`service/runtime_exec_gate.go`) as a transition system. An entry is dropped
 from the table once nobody owns it or waits for it, while other goroutines may still hold a pointer to it; the
 invariant says why this never lets two goroutines through. Steps are the sections between two points where
 another goroutine can be scheduled: everything under an entry's mutex that touches only that entry is one
 step, every access to the shared table is another.
 */
module ExecGate {
  import opened Text

  /** Goroutine ids; 0 means "nobody". */
  type Gid = nat

  datatype Entry = Entry(key: Id, owner: Gid, depth: int, waiters: int, mu: Gid)

  /** Where a goroutine is inside `acquireExecGate` or a release function. */
  datatype Pc =
    | Idle
    | Wants(key: Id)
    | Loaded(e: nat)
    | Inside(e: nat)
    | Checked(e: nat)
    | Sleeping(e: nat, signaled: bool)
    | Woken(e: nat)
    | Deleting(e: nat)
    | Leaving(e: nat)

  /** A release function not called yet, and the goroutine it was handed to. */
  datatype Token = Token(gid: Gid, e: nat)

  datatype State = State(entries: map<nat, Entry>, gates: map<Id, nat>, pcs: map<Gid, Pc>, tokens: multiset<Token>) {
    function PcOf(t: Gid): Pc {
      if t in pcs then pcs[t] else Idle
    }

    predicate Current(e: nat) {
      e in entries && entries[e].key in gates && gates[entries[e].key] == e
    }

    function MoveTo(t: Gid, pc: Pc): State {
      this.(pcs := pcs[t := pc])
    }

    function Put(e: nat, x: Entry): State {
      this.(entries := entries[e := x])
    }
  }

  datatype Action =
    | Call(key: Id)
    | Lookup(unused: nat)
    | Lock
    | Examine
    | Claim
    | Wake
    | Recheck
    | Release(token: Token)
    | Delete
    | Leave

  predicate Enabled(s: State, t: Gid, a: Action) {
    t != 0 && match a
      case Call(_) => s.PcOf(t).Idle?
      case Lookup(unused) => s.PcOf(t).Wants? && unused !in s.entries
      case Lock => s.PcOf(t).Loaded? && s.PcOf(t).e in s.entries && s.entries[s.PcOf(t).e].mu == 0
      case Examine => s.PcOf(t).Inside? && s.PcOf(t).e in s.entries
      case Claim => s.PcOf(t).Checked? && s.PcOf(t).e in s.entries
      case Wake => s.PcOf(t).Sleeping? && s.PcOf(t).signaled && s.PcOf(t).e in s.entries && s.entries[s.PcOf(t).e].mu == 0
      case Recheck => s.PcOf(t).Woken? && s.PcOf(t).e in s.entries
      case Release(token) => s.PcOf(t).Idle? && token in s.tokens && token.e in s.entries && s.entries[token.e].mu == 0
      case Delete => s.PcOf(t).Deleting? && s.PcOf(t).e in s.entries
      case Leave => s.PcOf(t).Leaving? && s.PcOf(t).e in s.entries
  }

  /** The broadcast: every sleeper of the entry may run again. */
  function Signal(pcs: map<Gid, Pc>, e: nat): map<Gid, Pc> {
    map u | u in pcs :: if pcs[u].Sleeping? && pcs[u].e == e then Sleeping(e, true) else pcs[u]
  }

  function Do(s: State, t: Gid, a: Action): State
    requires Enabled(s, t, a)
  {
    match a
    case Call(key) => s.MoveTo(t, Wants(key))
    case Lookup(unused) =>
      var key := s.PcOf(t).key;
      if key in s.gates then s.MoveTo(t, Loaded(s.gates[key]))
      else s.Put(unused, Entry(key, 0, 0, 0, 0)).(gates := s.gates[key := unused]).MoveTo(t, Loaded(unused))
    case Lock =>
      var e := s.PcOf(t).e;
      s.Put(e, s.entries[e].(mu := t)).MoveTo(t, Inside(e))
    case Examine =>
      var e := s.PcOf(t).e;
      var x := s.entries[e];
      if x.owner == 0 then
        if s.Current(e) then s.MoveTo(t, Checked(e))
        else s.Put(e, x.(mu := 0)).MoveTo(t, Wants(x.key))
      else if x.owner == t then
        s.Put(e, x.(mu := 0, depth := x.depth + 1)).(tokens := s.tokens + multiset{Token(t, e)}).MoveTo(t, Idle)
      else
        s.Put(e, x.(mu := 0, waiters := x.waiters + 1)).MoveTo(t, Sleeping(e, false))
    case Claim =>
      var e := s.PcOf(t).e;
      s.Put(e, s.entries[e].(mu := 0, owner := t, depth := 1)).(tokens := s.tokens + multiset{Token(t, e)}).MoveTo(t, Idle)
    case Wake =>
      var e := s.PcOf(t).e;
      s.Put(e, s.entries[e].(mu := t)).MoveTo(t, Woken(e))
    case Recheck =>
      var e := s.PcOf(t).e;
      var x := s.entries[e];
      if x.owner != 0 then s.Put(e, x.(mu := 0)).MoveTo(t, Sleeping(e, false))
      else s.Put(e, x.(mu := 0, owner := t, depth := 1, waiters := x.waiters - 1))
           .(tokens := s.tokens + multiset{Token(t, e)}).MoveTo(t, Idle)
    case Release(token) =>
      var e := token.e;
      var x := s.entries[e].(mu := t, depth := s.entries[e].depth - 1);
      var rest := s.(tokens := s.tokens - multiset{token});
      if x.depth <= 0 then
        rest.Put(e, x.(depth := 0, owner := 0)).MoveTo(t, if x.waiters == 0 && x.key != NO_ID then Deleting(e) else Leaving(e))
      else rest.Put(e, x).MoveTo(t, Leaving(e))
    case Delete =>
      var e := s.PcOf(t).e;
      s.(gates := s.gates - {s.entries[e].key}).MoveTo(t, Leaving(e))
    case Leave =>
      var e := s.PcOf(t).e;
      s.Put(e, s.entries[e].(mu := 0)).(pcs := Signal(s.pcs, e)).MoveTo(t, Idle)
  }

  const INITIAL := State(map[], map[], map[], multiset{})

  /**
   The gates of one engine. Each method is one step: a section of the source between two points where another
   goroutine can be scheduled.
   */
  class GateTable {
    var entries: map<nat, Entry>
    var gates: map<Id, nat>
    var pcs: map<Gid, Pc>
    var tokens: multiset<Token>

    constructor ()
      ensures Now() == INITIAL && Inv(Now())
    {
      InitialInv();
      entries, gates, pcs, tokens := map[], map[], map[], multiset{};
    }

    function Now(): State
      reads this
    {
      State(entries, gates, pcs, tokens)
    }

    /** `acquireExecGate` is called. */
    method Call(t: Gid, key: Id)
      requires Enabled(Now(), t, Action.Call(key)) && Inv(Now())
      modifies this
      ensures Now() == Do(old(Now()), t, Action.Call(key)) && Inv(Now())
    {
      InvKept(Now(), t, Action.Call(key));
      pcs := pcs[t := Wants(key)];
    }

    /** `LoadOrStore`. */
    method Lookup(t: Gid, unused: nat)
      requires Enabled(Now(), t, Action.Lookup(unused)) && Inv(Now())
      modifies this
      ensures Now() == Do(old(Now()), t, Action.Lookup(unused)) && Inv(Now())
    {
      InvKept(Now(), t, Action.Lookup(unused));
      var key := pcs[t].key;
      if key !in gates {
        entries := entries[unused := Entry(key, 0, 0, 0, 0)];
        gates := gates[key := unused];
      }
      pcs := pcs[t := Loaded(gates[key])];
    }

    /** `mu.Lock` once nobody holds the mutex. */
    method Lock(t: Gid)
      requires Enabled(Now(), t, Action.Lock) && Inv(Now())
      modifies this
      ensures Now() == Do(old(Now()), t, Action.Lock) && Inv(Now())
    {
      InvKept(Now(), t, Action.Lock);
      var e := pcs[t].e;
      entries := entries[e := entries[e].(mu := t)];
      pcs := pcs[t := Inside(e)];
    }

    /** The three ways on under the mutex: a free gate, the caller's own gate, somebody else's gate. */
    method Examine(t: Gid) returns (reentrant: bool)
      requires Enabled(Now(), t, Action.Examine) && Inv(Now())
      modifies this
      ensures Now() == Do(old(Now()), t, Action.Examine) && Inv(Now())
      ensures reentrant <==> old(Through(Now(), t, entries[pcs[t].e].key))
      ensures var e, x := old(pcs[t].e), old(entries[pcs[t].e]);
              if old(Through(Now(), t, entries[pcs[t].e].key)) then Now().PcOf(t) == Idle && tokens == old(tokens) + multiset{Token(t, e)}
              else tokens == old(tokens) && Now().PcOf(t) ==
                   if !old(Now().Current(pcs[t].e)) then Wants(x.key)
                   else if exists u :: old(Through(Now(), u, entries[pcs[t].e].key)) then Sleeping(e, false) else Checked(e)
    {
      InvKept(Now(), t, Action.Examine);
      OwnerIsThrough(Now(), t);
      SomeoneIsThrough(Now(), t);
      var e := pcs[t].e;
      var x := entries[e];
      reentrant := false;
      if x.owner == 0 {
        if x.key in gates && gates[x.key] == e {
          pcs := pcs[t := Checked(e)];
        } else {
          entries := entries[e := x.(mu := 0)];
          pcs := pcs[t := Wants(x.key)];
        }
      } else if x.owner == t {
        reentrant := true;
        entries := entries[e := x.(mu := 0, depth := x.depth + 1)];
        tokens := tokens + multiset{Token(t, e)};
        pcs := pcs[t := Idle];
      } else {
        entries := entries[e := x.(mu := 0, waiters := x.waiters + 1)];
        pcs := pcs[t := Sleeping(e, false)];
      }
    }

    /** The free and current gate is taken. */
    method Claim(t: Gid)
      requires Enabled(Now(), t, Action.Claim) && Inv(Now())
      modifies this
      ensures Now() == Do(old(Now()), t, Action.Claim) && Inv(Now())
      ensures forall u :: !old(Through(Now(), u, entries[pcs[t].e].key))
      ensures Through(Now(), t, old(entries[pcs[t].e].key))
    {
      FreeHasNobody(Now(), t);
      InvKept(Now(), t, Action.Claim);
      var e := pcs[t].e;
      entries := entries[e := entries[e].(mu := 0, owner := t, depth := 1)];
      tokens := tokens + multiset{Token(t, e)};
      pcs := pcs[t := Idle];
      assert Token(t, e) in tokens;
    }

    /** `cond.Wait` returns and has the mutex again. */
    method Wake(t: Gid)
      requires Enabled(Now(), t, Action.Wake) && Inv(Now())
      modifies this
      ensures Now() == Do(old(Now()), t, Action.Wake) && Inv(Now())
    {
      InvKept(Now(), t, Action.Wake);
      var e := pcs[t].e;
      entries := entries[e := entries[e].(mu := t)];
      pcs := pcs[t := Woken(e)];
    }

    /** The waiting loop looks again. */
    method Recheck(t: Gid)
      requires Enabled(Now(), t, Action.Recheck) && Inv(Now())
      modifies this
      ensures Now() == Do(old(Now()), t, Action.Recheck) && Inv(Now())
    {
      InvKept(Now(), t, Action.Recheck);
      var e := pcs[t].e;
      var x := entries[e];
      if x.owner != 0 {
        entries := entries[e := x.(mu := 0)];
        pcs := pcs[t := Sleeping(e, false)];
      } else {
        entries := entries[e := x.(mu := 0, waiters := x.waiters - 1, owner := t, depth := 1)];
        tokens := tokens + multiset{Token(t, e)};
        pcs := pcs[t := Idle];
      }
    }

    /** A release function starts: the mutex is taken and the depth goes down. */
    method Release(t: Gid, token: Token)
      requires Enabled(Now(), t, Action.Release(token)) && Inv(Now())
      modifies this
      ensures Now() == Do(old(Now()), t, Action.Release(token)) && Inv(Now())
    {
      InvKept(Now(), t, Action.Release(token));
      var e := token.e;
      var x := entries[e].(mu := t, depth := entries[e].depth - 1);
      tokens := tokens - multiset{token};
      var next := Leaving(e);
      if x.depth <= 0 {
        x := x.(depth := 0, owner := 0);
        if x.waiters == 0 && x.key != NO_ID { next := Deleting(e); }
      }
      entries := entries[e := x];
      pcs := pcs[t := next];
    }

    /** The table forgets the key of a gate nobody owns or waits for. */
    method Delete(t: Gid)
      requires Enabled(Now(), t, Action.Delete) && Inv(Now())
      modifies this
      ensures Now() == Do(old(Now()), t, Action.Delete) && Inv(Now())
    {
      InvKept(Now(), t, Action.Delete);
      var e := pcs[t].e;
      gates := gates - {entries[e].key};
      pcs := pcs[t := Leaving(e)];
    }

    /** Broadcast, and the mutex is given back. */
    method Leave(t: Gid)
      requires Enabled(Now(), t, Action.Leave) && Inv(Now())
      modifies this
      ensures Now() == Do(old(Now()), t, Action.Leave) && Inv(Now())
    {
      InvKept(Now(), t, Action.Leave);
      var e := pcs[t].e;
      pcs := Signal(pcs, e)[t := Idle];
      entries := entries[e := entries[e].(mu := 0)];
    }
  }

  // ---- The invariant ----

  predicate Holds(pc: Pc, e: nat) {
    (pc.Inside? || pc.Checked? || pc.Woken? || pc.Deleting? || pc.Leaving?) && pc.e == e
  }

  predicate Waits(pc: Pc, e: nat) {
    (pc.Sleeping? || pc.Woken?) && pc.e == e
  }

  predicate Approaches(pc: Pc, e: nat) {
    (pc.Loaded? || pc.Inside? || pc.Checked? || pc.Deleting?) && pc.e == e
  }

  /** The goroutine that holds the mutex is about to broadcast. */
  predicate Finishing(s: State, e: nat)
    requires e in s.entries
  {
    var pc := s.PcOf(s.entries[e].mu);
    s.entries[e].mu != 0 && (pc.Deleting? || pc.Leaving?)
  }

  /**
   What a goroutine may rely on: inside a section it holds the entry's mutex; past the orphan check the entry
   is still the current one; and while it was not woken, somebody is left who will wake it.
   */
  predicate ThreadOk(s: State, t: Gid) {
    var pc := s.PcOf(t);
    pc.Idle? || pc.Wants? || (pc.e in s.entries &&
      var x := s.entries[pc.e];
      && t != 0
      && (Holds(pc, pc.e) ==> x.mu == t)
      && (pc.Checked? ==> s.Current(pc.e) && x.owner == 0)
      && (pc.Deleting? ==> s.Current(pc.e) && x.owner == 0 && x.waiters == 0)
      && (pc.Sleeping? && !pc.signaled ==> x.owner != 0 || Finishing(s, pc.e))
      && (Waits(pc, pc.e) ==> x.owner != t))
  }

  /** An entry that is owned or waited for is the current one, and its depth counts the owner's release functions. */
  predicate EntryOk(s: State, e: nat) {
    e in s.entries ==>
      var x := s.entries[e];
      && (x.mu != 0 ==> Holds(s.PcOf(x.mu), e))
      && (x.owner != 0 || x.waiters != 0 ==> s.Current(e))
      && (if x.owner == 0 then x.depth == 0 else x.depth > 0 && s.tokens[Token(x.owner, e)] == x.depth)
  }

  predicate TokenOk(s: State, token: Token) {
    token in s.tokens ==> token.e in s.entries && token.gid != 0 && s.entries[token.e].owner == token.gid
  }

  /** The table holds no entry without a reason; the entry of the empty id is never dropped. */
  ghost predicate GateOk(s: State, k: Id) {
    k in s.gates ==>
      var e := s.gates[k];
      e in s.entries && s.entries[e].key == k
      && (k == NO_ID || s.entries[e].owner != 0 || s.entries[e].waiters != 0 || Approached(s, e))
  }

  ghost predicate Approached(s: State, e: nat) {
    exists t :: Approaches(s.PcOf(t), e)
  }

  ghost function WaitersOf(s: State, e: nat): set<Gid> {
    set t | t in s.pcs && Waits(s.pcs[t], e)
  }

  ghost predicate CountOk(s: State, e: nat) {
    e in s.entries ==> s.entries[e].waiters == |WaitersOf(s, e)|
  }

  /** A goroutine that already holds a gate and asks for it again looks at the very entry it holds. */
  predicate HeldOk(s: State, t: Gid, token: Token) {
    var pc := s.PcOf(t);
    token in s.tokens && token.gid == t && IsAcquiring(pc) && SameKey(s, pc.e, token.e) ==> pc.e == token.e
  }

  predicate SameKey(s: State, e: nat, f: nat) {
    e in s.entries && f in s.entries && s.entries[e].key == s.entries[f].key
  }

  predicate IsAcquiring(pc: Pc) {
    pc.Loaded? || pc.Inside? || pc.Checked? || pc.Sleeping? || pc.Woken?
  }

  ghost predicate Inv(s: State) {
    && (forall t :: ThreadOk(s, t))
    && (forall e :: EntryOk(s, e))
    && (forall token :: TokenOk(s, token))
    && (forall k :: GateOk(s, k))
    && (forall e :: CountOk(s, e))
    && (forall t, token :: HeldOk(s, t, token))
  }

  /** The entry a step works on. */
  function Target(s: State, t: Gid, a: Action): nat
    requires Enabled(s, t, a)
  {
    match a
    case Call(_) => 0
    case Lookup(unused) => unused
    case Release(token) => token.e
    case _ => s.PcOf(t).e
  }

  /** What the invariant says of the goroutine that steps and of the entry it works on. */
  ghost predicate Around(s: State, t: Gid, a: Action)
    requires Enabled(s, t, a)
  {
    var e := Target(s, t, a);
    && ThreadOk(s, t) && EntryOk(s, e) && TokenOk(s, Token(t, e)) && (a.Release? ==> TokenOk(s, a.token))
    && (a.Lookup? ==> GateOk(s, s.PcOf(t).key)) && (a.Recheck? ==> s.entries[e].waiters > 0)
  }

  predicate PointsTo(s: State, u: Gid, e: nat) {
    !s.PcOf(u).Idle? && !s.PcOf(u).Wants? && s.PcOf(u).e == e
  }

  /** A goroutine at the same entry is not inside its section unless the mutex says so, so it sleeps or approaches. */
  lemma NearKept(s: State, t: Gid, a: Action, u: Gid)
    requires Enabled(s, t, a) && Around(s, t, a) && u != t && !a.Call?
    requires ThreadOk(s, u) && PointsTo(s, u, Target(s, t, a))
    ensures ThreadOk(Do(s, t, a), u)
  {
  }

  predicate IsFar(s: State, t: Gid, a: Action, e: nat)
    requires Enabled(s, t, a)
  {
    e in s.entries && (a.Call? || e != Target(s, t, a))
  }

  /** A step leaves the other entries, their place in the table and their tokens alone. */
  lemma FarEntry(s: State, t: Gid, a: Action, e: nat, gid: Gid)
    requires Enabled(s, t, a) && Around(s, t, a) && IsFar(s, t, a, e)
    ensures var s' := Do(s, t, a);
            && e in s'.entries && s'.entries[e] == s.entries[e] && (s.Current(e) ==> s'.Current(e))
            && s'.tokens[Token(gid, e)] == s.tokens[Token(gid, e)]
  {
  }

  /** The goroutine inside the section of another entry stays there. */
  lemma FarHolder(s: State, t: Gid, a: Action, e: nat)
    requires Enabled(s, t, a) && Around(s, t, a) && IsFar(s, t, a, e) && EntryOk(s, e) && s.entries[e].mu != 0
    ensures Do(s, t, a).PcOf(s.entries[e].mu) == s.PcOf(s.entries[e].mu)
  {
  }

  lemma FarKept(s: State, t: Gid, a: Action, u: Gid)
    requires Enabled(s, t, a) && Around(s, t, a) && u != t
    requires ThreadOk(s, u) && (a.Call? || !PointsTo(s, u, Target(s, t, a)))
    requires s.PcOf(u).Idle? || s.PcOf(u).Wants? || EntryOk(s, s.PcOf(u).e)
    ensures ThreadOk(Do(s, t, a), u)
  {
    if !s.PcOf(u).Idle? && !s.PcOf(u).Wants? {
      FarEntry(s, t, a, s.PcOf(u).e, u);
      if s.entries[s.PcOf(u).e].mu != 0 { FarHolder(s, t, a, s.PcOf(u).e); }
    }
  }

  lemma TargetKept(s: State, t: Gid, a: Action)
    requires Enabled(s, t, a) && Around(s, t, a) && !a.Call?
    ensures EntryOk(Do(s, t, a), Target(s, t, a))
  {
    if a.Release? || a.Delete? || a.Leave? { LeftKept(s, t, a); } else { EnteredKept(s, t, a); }
  }

  lemma LeftKept(s: State, t: Gid, a: Action)
    requires Enabled(s, t, a) && Around(s, t, a) && (a.Release? || a.Delete? || a.Leave?)
    ensures EntryOk(Do(s, t, a), Target(s, t, a))
  {
  }

  lemma EnteredKept(s: State, t: Gid, a: Action)
    requires Enabled(s, t, a) && Around(s, t, a) && !a.Release? && !a.Delete? && !a.Leave? && !a.Call?
    ensures EntryOk(Do(s, t, a), Target(s, t, a))
  {
  }

  lemma FarEntryKept(s: State, t: Gid, a: Action, e: nat)
    requires Enabled(s, t, a) && Around(s, t, a) && EntryOk(s, e) && (a.Call? || e != Target(s, t, a))
    ensures EntryOk(Do(s, t, a), e)
  {
    if e in s.entries {
      FarEntry(s, t, a, e, s.entries[e].owner);
      if s.entries[e].mu != 0 { FarHolder(s, t, a, e); }
    }
  }

  lemma TokenKept(s: State, t: Gid, a: Action, token: Token)
    requires Enabled(s, t, a) && Around(s, t, a) && TokenOk(s, token)
    ensures TokenOk(Do(s, t, a), token)
  {
  }

  // ---- Counting waiters ----

  lemma OthersWait(s: State, t: Gid, a: Action, u: Gid, e: nat)
    requires Enabled(s, t, a) && u != t
    ensures u in Do(s, t, a).pcs <==> u in s.pcs
    ensures Waits(Do(s, t, a).PcOf(u), e) <==> Waits(s.PcOf(u), e)
  {
  }

  lemma WaitersAfter(s: State, t: Gid, a: Action, e: nat)
    requires Enabled(s, t, a)
    ensures WaitersOf(Do(s, t, a), e) ==
            if Waits(Do(s, t, a).PcOf(t), e) then WaitersOf(s, e) + {t} else WaitersOf(s, e) - {t}
  {
    var s' := Do(s, t, a);
    forall u | u != t ensures u in WaitersOf(s', e) <==> u in WaitersOf(s, e) { OthersWait(s, t, a, u, e); }
  }

  /** How the count in the entry moves: up when a goroutine goes to sleep, down when it takes the gate. */
  lemma CountMoves(s: State, t: Gid, a: Action, e: nat)
    requires Enabled(s, t, a) && Around(s, t, a) && e in s.entries
    ensures var s' := Do(s, t, a);
            e in s'.entries && s'.entries[e].waiters == s.entries[e].waiters +
              (if Waits(s'.PcOf(t), e) then 1 else 0) - (if Waits(s.PcOf(t), e) then 1 else 0)
  {
    if IsFar(s, t, a, e) {
      FarEntry(s, t, a, e, 0);
      FarSteps(s, t, a, e);
    }
  }

  lemma FarSteps(s: State, t: Gid, a: Action, e: nat)
    requires Enabled(s, t, a) && Around(s, t, a) && IsFar(s, t, a, e)
    ensures !Waits(s.PcOf(t), e) && !Waits(Do(s, t, a).PcOf(t), e)
  {
  }

  lemma CountKept(s: State, t: Gid, a: Action, e: nat)
    requires Enabled(s, t, a) && Around(s, t, a) && CountOk(s, e) && forall u :: ThreadOk(s, u)
    ensures CountOk(Do(s, t, a), e)
  {
    WaitersAfter(s, t, a, e);
    assert t in WaitersOf(s, e) <==> Waits(s.PcOf(t), e);
    if e in s.entries {
      CountMoves(s, t, a, e);
    } else {
      forall u ensures u !in WaitersOf(s, e) { assert ThreadOk(s, u); }
      assert WaitersOf(s, e) == {};
      NewUnwaited(s, t, a, e);
    }
  }

  lemma NewUnwaited(s: State, t: Gid, a: Action, e: nat)
    requires Enabled(s, t, a) && ThreadOk(s, t) && e !in s.entries && (a.Lookup? ==> GateOk(s, s.PcOf(t).key))
    ensures !Waits(Do(s, t, a).PcOf(t), e)
    ensures e in Do(s, t, a).entries ==> Do(s, t, a).entries[e].waiters == 0
  {
  }

  lemma AroundHolds(s: State, t: Gid, a: Action)
    requires Inv(s) && Enabled(s, t, a)
    ensures Around(s, t, a)
  {
    var e := Target(s, t, a);
    assert ThreadOk(s, t) && EntryOk(s, e) && TokenOk(s, Token(t, e));
    if a.Release? { assert TokenOk(s, a.token); }
    if a.Lookup? { assert GateOk(s, s.PcOf(t).key); }
    if a.Recheck? {
      assert CountOk(s, e);
      assert t in WaitersOf(s, e);
    }
  }

  // ---- The table ----

  /** An entry other than the one the step works on is needed for the reason it was needed before. */
  lemma FarGateKept(s: State, t: Gid, a: Action, k: Id)
    requires Enabled(s, t, a) && Around(s, t, a) && k in s.gates && GateOk(s, k) && IsFar(s, t, a, s.gates[k])
    ensures GateOk(Do(s, t, a), k)
  {
    var e, s' := s.gates[k], Do(s, t, a);
    FarEntry(s, t, a, e, 0);
    if k in s'.gates && k != NO_ID && s.entries[e].owner == 0 && s.entries[e].waiters == 0 {
      var u :| Approaches(s.PcOf(u), e);
      assert Approaches(s'.PcOf(u), e);
    }
  }

  lemma NearGateKept(s: State, t: Gid, a: Action, k: Id)
    requires Enabled(s, t, a) && Around(s, t, a) && !a.Call? && !a.Lookup?
    requires k in s.gates && GateOk(s, k) && s.gates[k] == Target(s, t, a) && CountOk(s, s.gates[k])
    ensures GateOk(Do(s, t, a), k)
  {
    var e, s' := s.gates[k], Do(s, t, a);
    assert Waits(s.PcOf(t), e) ==> t in WaitersOf(s, e);
    if Approaches(s'.PcOf(t), e) {
    } else if a.Leave? {
      if k != NO_ID && s.entries[e].owner == 0 && s.entries[e].waiters == 0 {
        var u :| Approaches(s.PcOf(u), e);
        assert Approaches(s'.PcOf(u), e);
      }
    }
  }

  lemma GateKept(s: State, t: Gid, a: Action, k: Id)
    requires Inv(s) && Enabled(s, t, a)
    ensures GateOk(Do(s, t, a), k)
  {
    AroundHolds(s, t, a);
    assert GateOk(s, k);
    if k in s.gates {
      assert CountOk(s, s.gates[k]);
      if IsFar(s, t, a, s.gates[k]) { FarGateKept(s, t, a, k); } else { NearGateKept(s, t, a, k); }
    } else if a.Lookup? && k == s.PcOf(t).key {
      assert Approaches(Do(s, t, a).PcOf(t), a.unused);
    }
  }

  // ---- Held gates ----

  lemma HeldKept(s: State, t: Gid, a: Action, u: Gid, token: Token)
    requires Enabled(s, t, a) && Around(s, t, a) && HeldOk(s, u, token) && TokenOk(s, token)
    requires EntryOk(s, token.e) && ThreadOk(s, u)
    ensures HeldOk(Do(s, t, a), u, token)
  {
    if u == t { OwnHeldKept(s, t, a, token); } else { OtherHeldKept(s, t, a, u, token); }
  }

  lemma OwnHeldKept(s: State, t: Gid, a: Action, token: Token)
    requires Enabled(s, t, a) && Around(s, t, a) && HeldOk(s, t, token) && TokenOk(s, token)
    requires EntryOk(s, token.e) && ThreadOk(s, t)
    ensures HeldOk(Do(s, t, a), t, token)
  {
    if token in s.tokens && IsAcquiring(Do(s, t, a).PcOf(t)) && !a.Call? {
      KeysKept(s, t, a, token.e);
      if !a.Lookup? { KeysKept(s, t, a, Target(s, t, a)); }
    }
  }

  lemma OtherHeldKept(s: State, t: Gid, a: Action, u: Gid, token: Token)
    requires Enabled(s, t, a) && Around(s, t, a) && HeldOk(s, u, token) && TokenOk(s, token)
    requires EntryOk(s, token.e) && ThreadOk(s, u) && u != t
    ensures HeldOk(Do(s, t, a), u, token)
  {
    if token in Do(s, t, a).tokens && token.gid == u && IsAcquiring(Do(s, t, a).PcOf(u)) {
      OtherPlace(s, t, a, u);
      TokensKept(s, t, a, token);
      KeysKept(s, t, a, token.e);
      KeysKept(s, t, a, s.PcOf(u).e);
    }
  }

  lemma KeysKept(s: State, t: Gid, a: Action, e: nat)
    requires Enabled(s, t, a) && Around(s, t, a) && e in s.entries
    ensures e in Do(s, t, a).entries && Do(s, t, a).entries[e].key == s.entries[e].key
  {
    if IsFar(s, t, a, e) { FarEntry(s, t, a, e, 0); }
  }

  /** A new release function goes to the goroutine that steps, which then is done. */
  lemma TokensKept(s: State, t: Gid, a: Action, token: Token)
    requires Enabled(s, t, a) && token in Do(s, t, a).tokens
    ensures token in s.tokens || (token.gid == t && Do(s, t, a).PcOf(t).Idle?)
  {
  }

  lemma OtherPlace(s: State, t: Gid, a: Action, u: Gid)
    requires Enabled(s, t, a) && u != t && IsAcquiring(Do(s, t, a).PcOf(u))
    ensures IsAcquiring(s.PcOf(u)) && Do(s, t, a).PcOf(u).e == s.PcOf(u).e
  {
  }

  lemma InvKept(s: State, t: Gid, a: Action)
    requires Inv(s) && Enabled(s, t, a)
    ensures Inv(Do(s, t, a))
  {
    var s' := Do(s, t, a);
    AroundHolds(s, t, a);
    forall u ensures ThreadOk(s', u) { ThreadKept(s, t, a, u); }
    forall e ensures EntryOk(s', e) && CountOk(s', e) { EntryKept(s, t, a, e); }
    forall token ensures TokenOk(s', token) { assert TokenOk(s, token); TokenKept(s, t, a, token); }
    forall k ensures GateOk(s', k) { GateKept(s, t, a, k); }
    forall u, token ensures HeldOk(s', u, token) {
      assert HeldOk(s, u, token) && TokenOk(s, token) && EntryOk(s, token.e) && ThreadOk(s, u);
      HeldKept(s, t, a, u, token);
    }
  }

  lemma ThreadKept(s: State, t: Gid, a: Action, u: Gid)
    requires Inv(s) && Enabled(s, t, a)
    ensures ThreadOk(Do(s, t, a), u)
  {
    AroundHolds(s, t, a);
    assert ThreadOk(s, u);
    if u == t {
    } else if a.Call? || !PointsTo(s, u, Target(s, t, a)) {
      if !s.PcOf(u).Idle? && !s.PcOf(u).Wants? { assert EntryOk(s, s.PcOf(u).e); }
      FarKept(s, t, a, u);
    } else { NearKept(s, t, a, u); }
  }

  lemma EntryKept(s: State, t: Gid, a: Action, e: nat)
    requires Inv(s) && Enabled(s, t, a)
    ensures EntryOk(Do(s, t, a), e) && CountOk(Do(s, t, a), e)
  {
    AroundHolds(s, t, a);
    assert EntryOk(s, e) && CountOk(s, e);
    if a.Call? || e != Target(s, t, a) { FarEntryKept(s, t, a, e); } else { TargetKept(s, t, a); }
    CountKept(s, t, a, e);
  }

  lemma InitialInv()
    ensures Inv(INITIAL)
  {
    forall e ensures CountOk(INITIAL, e) { }
  }

  // ---- Who is through a gate ----

  /** t was let through the gate of this key and has not given it back. */
  ghost predicate Through(s: State, t: Gid, key: Id) {
    exists token :: token in s.tokens && token.gid == t && token.e in s.entries && s.entries[token.e].key == key
  }

  lemma OneThrough(s: State, t: Gid, u: Gid, key: Id)
    requires Inv(s) && Through(s, t, key) && Through(s, u, key)
    ensures t == u
  {
    var a :| a in s.tokens && a.gid == t && a.e in s.entries && s.entries[a.e].key == key;
    var b :| b in s.tokens && b.gid == u && b.e in s.entries && s.entries[b.e].key == key;
    assert TokenOk(s, a) && TokenOk(s, b) && EntryOk(s, a.e) && EntryOk(s, b.e);
  }

  /** Owning the entry that was looked up is being through its gate. */
  lemma OwnerIsThrough(s: State, t: Gid)
    requires Inv(s) && s.PcOf(t).Inside?
    ensures s.PcOf(t).e in s.entries
    ensures s.entries[s.PcOf(t).e].owner == t <==> Through(s, t, s.entries[s.PcOf(t).e].key)
  {
    var e := s.PcOf(t).e;
    assert ThreadOk(s, t) && EntryOk(s, e);
    if s.entries[e].owner == t { assert Token(t, e) in s.tokens; }
    if Through(s, t, s.entries[e].key) {
      var token :| token in s.tokens && token.gid == t && token.e in s.entries && s.entries[token.e].key == s.entries[e].key;
      assert HeldOk(s, t, token) && TokenOk(s, token);
    }
  }

  /** The owner of the entry that was looked up is through the gate; a current entry without one has nobody through. */
  lemma SomeoneIsThrough(s: State, t: Gid)
    requires Inv(s) && s.PcOf(t).Inside?
    ensures var e := s.PcOf(t).e;
            e in s.entries && (s.entries[e].owner != 0 ==> Through(s, s.entries[e].owner, s.entries[e].key))
            && (s.entries[e].owner != 0 ==> s.Current(e))
            && (s.entries[e].owner == 0 && s.Current(e) ==> forall u :: !Through(s, u, s.entries[e].key))
  {
    var e := s.PcOf(t).e;
    assert ThreadOk(s, t) && EntryOk(s, e);
    if s.entries[e].owner != 0 { assert Token(s.entries[e].owner, e) in s.tokens; }
    forall token | token in s.tokens && token.e in s.entries && s.entries[token.e].key == s.entries[e].key
      ensures s.entries[e].owner == 0 ==> !s.Current(e)
    {
      assert TokenOk(s, token) && EntryOk(s, token.e);
    }
  }

  /** Past the orphan check nobody is through the gate. */
  lemma FreeHasNobody(s: State, t: Gid)
    requires Inv(s) && s.PcOf(t).Checked?
    ensures s.PcOf(t).e in s.entries && forall u :: !Through(s, u, s.entries[s.PcOf(t).e].key)
  {
    assert ThreadOk(s, t);
    forall token | token in s.tokens && token.e in s.entries ensures s.entries[token.e].key != s.entries[s.PcOf(t).e].key {
      assert TokenOk(s, token) && EntryOk(s, token.e);
    }
  }
}
