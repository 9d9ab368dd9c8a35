/** Strings as the engine uses them: identifiers ordered byte by byte, and the trimming of white space. */
module Text {

  /** Node, instance and task identifiers. The empty name stands for "none". */
  datatype Id = Id(name: string)

  const NO_ID := Id("")

  /** Lexicographic order on identifiers: the order `sort.Strings` sorts by. */
  predicate Less(a: string, b: string)
    decreases |a|
  {
    if b == "" then false
    else if a == "" then true
    else if a[0] != b[0] then a[0] < b[0]
    else Less(a[1..], b[1..])
  }

  lemma {:induction false} LessIrreflexive(a: string)
    ensures !Less(a, a)
    decreases |a|
  {
    if a != "" { LessIrreflexive(a[1..]); }
  }

  lemma {:induction false} LessTransitive(a: string, b: string, c: string)
    requires Less(a, b) && Less(b, c)
    ensures Less(a, c)
    decreases |a|
  {
    if a != "" && a[0] == b[0] && b[0] == c[0] { LessTransitive(a[1..], b[1..], c[1..]); }
  }

  lemma {:induction false} LessTotal(a: string, b: string)
    ensures a == b || Less(a, b) || Less(b, a)
    decreases |a|
  {
    if a != "" && b != "" && a[0] == b[0] {
      LessTotal(a[1..], b[1..]);
      if a[1..] == b[1..] { assert a == [a[0]] + a[1..] == [b[0]] + b[1..] == b; }
    }
  }

  /** At the first place where they differ, a has the smaller character or has ended. */
  lemma {:induction false} LessIs(a: string, b: string)
    ensures Less(a, b) <==> exists k: nat :: FirstLess(a, b, k)
    decreases |a|
  {
    forall k: nat | FirstLess(a, b, k) && k > 0 ensures a != "" && b != "" && a[0] == b[0] { assert a[..k][0] == b[..k][0]; }
    if a != "" && b != "" && a[0] == b[0] {
      LessIs(a[1..], b[1..]);
      if k: nat :| FirstLess(a[1..], b[1..], k) {
        assert a[..k + 1] == [a[0]] + a[1..][..k] && b[..k + 1] == [b[0]] + b[1..][..k];
        assert FirstLess(a, b, k + 1);
      }
      if k: nat :| FirstLess(a, b, k) {
        if k > 0 {
          assert a[1..][..k - 1] == a[..k][1..] && b[1..][..k - 1] == b[..k][1..];
          assert FirstLess(a[1..], b[1..], k - 1);
        }
      }
    } else if b != "" && (a == "" || a[0] < b[0]) {
      assert FirstLess(a, b, 0);
    }
  }

  predicate FirstLess(a: string, b: string, k: nat) {
    k <= |a| && k < |b| && a[..k] == b[..k] && (k == |a| || a[k] < b[k])
  }

  lemma LessAsymmetric(a: string, b: string)
    requires Less(a, b)
    ensures !Less(b, a)
  {
    if Less(b, a) { LessTransitive(a, b, a); LessIrreflexive(a); }
  }

  /** Identifiers are ordered by name. */
  predicate Before(a: Id, b: Id) {
    Less(a.name, b.name)
  }

  lemma BeforeTransitive(a: Id, b: Id, c: Id)
    requires Before(a, b) && Before(b, c)
    ensures Before(a, c)
  {
    LessTransitive(a.name, b.name, c.name);
  }

  lemma BeforeTotal(a: Id, b: Id)
    ensures a == b || Before(a, b) || Before(b, a)
  {
    LessTotal(a.name, b.name);
  }

  lemma BeforeAsymmetric(a: Id, b: Id)
    requires Before(a, b)
    ensures !Before(b, a) && a != b
  {
    LessAsymmetric(a.name, b.name);
    LessIrreflexive(a.name);
  }

  ghost predicate IsLeast(m: Id, s: set<Id>) {
    m in s && forall x | x in s && x != m :: Before(m, x)
  }

  ghost predicate Ascending(keys: seq<Id>) {
    forall i, j | 0 <= i < j < |keys| :: Before(keys[i], keys[j])
  }

  ghost predicate ListsKeys(keys: seq<Id>, s: set<Id>) {
    Ascending(keys) && forall x :: x in keys <==> x in s
  }

  /** The keys of a Go set in ascending order. */
  ghost function SortedKeys(s: set<Id>): (keys: seq<Id>)
    ensures ListsKeys(keys, s)
  {
    SortedExists(s);
    var keys :| ListsKeys(keys, s);
    keys
  }

  lemma {:induction false} LeastExists(s: set<Id>) returns (m: Id)
    requires s != {}
    ensures IsLeast(m, s)
    decreases |s|
  {
    var x :| x in s;
    if s == {x} {
      m := x;
    } else {
      var n := LeastExists(s - {x});
      BeforeTotal(x, n);
      m := if Before(x, n) then x else n;
      forall y | y in s && y != m ensures Before(m, y) {
        if y != x && y != n && m == x { BeforeTransitive(x, n, y); }
      }
    }
  }

  lemma {:induction false} SortedExists(s: set<Id>)
    ensures exists keys :: ListsKeys(keys, s)
    decreases |s|
  {
    if s == {} {
      assert ListsKeys([], s);
    } else {
      var m := LeastExists(s);
      SortedExists(s - {m});
      var rest :| ListsKeys(rest, s - {m});
      assert forall i | 0 <= i < |rest| :: rest[i] in rest;
      assert ListsKeys([m] + rest, s);
    }
  }

  lemma HasMember(s: seq<Id>)
    requires s != []
    ensures exists x :: x in s
  {
    assert s[0] in s;
  }

  /** Ascending sequences with the same elements are equal, so `SortedKeys` is determined by its contract. */
  lemma {:induction false} SortedUnique(a: seq<Id>, b: seq<Id>)
    requires forall x :: x in a <==> x in b
    requires Ascending(a) && Ascending(b)
    ensures a == b
    decreases |a|
  {
    if a == [] {
      if b != [] { HasMember(b); assert false; }
    } else {
      assert a[0] in b;
      assert b[0] in a;
      var i :| 0 <= i < |b| && b[i] == a[0];
      var j :| 0 <= j < |a| && a[j] == b[0];
      if i > 0 && j > 0 { BeforeAsymmetric(a[0], a[j]); assert false; }
      forall x ensures x in a[1..] <==> x in b[1..] {
        assert forall i | 0 < i < |a| :: a[i] != a[0] by {
          forall i | 0 < i < |a| ensures a[i] != a[0] { BeforeAsymmetric(a[0], a[i]); }
        }
        assert forall i | 0 < i < |b| :: b[i] != b[0] by {
          forall i | 0 < i < |b| ensures b[i] != b[0] { BeforeAsymmetric(b[0], b[i]); }
        }
        assert x in a <==> x == a[0] || x in a[1..];
        assert x in b <==> x == b[0] || x in b[1..];
      }
      SortedUnique(a[1..], b[1..]);
    }
  }

  /** `sortedKeys`: list the keys and sort them, here by inserting each key at its place. */
  method SortKeys(s: set<Id>) returns (keys: seq<Id>)
    ensures keys == SortedKeys(s)
  {
    keys := [];
    var rest := s;
    while rest != {}
      invariant rest <= s && ListsKeys(keys, s - rest)
      decreases rest
    {
      var x :| x in rest;
      InsertKeepsOrder(keys, x);
      keys := Insert(keys, x);
      rest := rest - {x};
      assert ListsKeys(keys, s - rest);
    }
    SortedUnique(keys, SortedKeys(s));
  }

  function Insert(keys: seq<Id>, x: Id): seq<Id> {
    if keys == [] then [x]
    else if Before(keys[0], x) then [keys[0]] + Insert(keys[1..], x)
    else [x] + keys
  }

  lemma {:induction false} InsertKeepsOrder(keys: seq<Id>, x: Id)
    requires Ascending(keys) && x !in keys
    ensures Ascending(Insert(keys, x))
    ensures forall y :: y in Insert(keys, x) <==> y in keys || y == x
  {
    if keys != [] {
      assert forall i | 0 <= i < |keys[1..]| :: keys[1..][i] == keys[i + 1];
      var k := keys[0];
      if Before(k, x) {
        InsertKeepsOrder(keys[1..], x);
        var r := Insert(keys[1..], x);
        forall i | 0 <= i < |r| ensures Before(k, r[i]) {
          assert r[i] in r;
          if r[i] != x { var j :| 0 <= j < |keys[1..]| && keys[1..][j] == r[i]; }
        }
      } else {
        BeforeTotal(k, x);
        forall i | 0 <= i < |keys| ensures Before(x, keys[i]) {
          if i > 0 { BeforeTransitive(x, k, keys[i]); }
        }
      }
    }
  }

  /** White space as `strings.TrimSpace` sees it (Unicode property White_Space). */
  predicate IsSpace(c: char) {
    c in {'\t', '\n', '\U{000B}', '\U{000C}', '\r', ' ', '\U{0085}', '\U{00A0}', '\U{1680}',
          '\U{2028}', '\U{2029}', '\U{202F}', '\U{205F}', '\U{3000}'}
    || '\U{2000}' <= c <= '\U{200A}'
  }

  function TrimLeft(s: string): string {
    if s != "" && IsSpace(s[0]) then TrimLeft(s[1..]) else s
  }

  function TrimRight(s: string): string {
    if s != "" && IsSpace(s[|s| - 1]) then TrimRight(s[..|s| - 1]) else s
  }

  function TrimSpace(s: string): string {
    TrimRight(TrimLeft(s))
  }

  // ---- Decimal numbers ----

  function Digit(d: nat): char
    requires d < 10
  {
    "0123456789"[d]
  }

  function Decimal(n: nat): string {
    if n < 10 then [Digit(n)] else Decimal(n / 10) + [Digit(n % 10)]
  }

  lemma {:induction false} DecimalInjective(m: nat, n: nat)
    requires Decimal(m) == Decimal(n)
    ensures m == n
  {
    var a, b := Decimal(m), Decimal(n);
    assert Digit(m % 10) == a[|a| - 1] == b[|b| - 1] == Digit(n % 10);
    if m >= 10 && n >= 10 {
      assert Decimal(m / 10) == a[..|a| - 1] == b[..|b| - 1] == Decimal(n / 10);
      DecimalInjective(m / 10, n / 10);
    }
  }
}
