/** Finding a JSON object in free text (`ExtractJSONObject` in `components/output_merge.go`). */
module JsonExtract {
  import opened Text
  import opened Definitions

  // ---- The scanner ----

  /** State of the scan: open braces, inside a string literal, after a backslash. */
  datatype Scan = Scan(depth: int, inStr: bool, esc: bool)

  const BEGIN := Scan(0, false, false)

  function Step(st: Scan, c: char): Scan {
    if st.inStr then
      if st.esc then st.(esc := false)
      else if c == '\\' then st.(esc := true)
      else if c == '"' then st.(inStr := false)
      else st
    else if c == '"' then st.(inStr := true)
    else if c == '{' then st.(depth := st.depth + 1)
    else if c == '}' then st.(depth := st.depth - 1)
    else st
  }

  /** c is the brace that closes the outermost object. */
  predicate Closes(st: Scan, c: char) {
    !st.inStr && c == '}' && st.depth == 1
  }

  /** How many characters the scan reads up to the brace that closes the outermost object. */
  function Close(st: Scan, s: string): Option<nat>
    decreases |s|
  {
    if s == "" then None
    else if Closes(st, s[0]) then Some(1)
    else Later(Close(Step(st, s[0]), s[1..]), 1)
  }

  function Later(n: Option<nat>, more: nat): Option<nat> {
    if n.Some? then Some(n.value + more) else None
  }

  function After(st: Scan, s: string): Scan
    decreases |s|
  {
    if s == "" then st else After(Step(st, s[0]), s[1..])
  }

  /** Reading s from st never closes the outermost object. */
  predicate Quiet(st: Scan, s: string)
    decreases |s|
  {
    s == "" || (!Closes(st, s[0]) && Quiet(Step(st, s[0]), s[1..]))
  }

  lemma {:induction false} AfterJoin(st: Scan, a: string, b: string)
    ensures After(st, a + b) == After(After(st, a), b)
    ensures Quiet(st, a + b) <==> Quiet(st, a) && Quiet(After(st, a), b)
    decreases |a|
  {
    if a == "" { assert a + b == b; } else {
      assert (a + b)[1..] == a[1..] + b;
      AfterJoin(Step(st, a[0]), a[1..], b);
    }
  }

  lemma {:induction false} CloseBehind(st: Scan, a: string, b: string)
    requires Quiet(st, a)
    ensures Close(st, a + b) == Later(Close(After(st, a), b), |a|)
    decreases |a|
  {
    if a == "" { assert a + b == b; } else {
      assert (a + b)[1..] == a[1..] + b;
      CloseBehind(Step(st, a[0]), a[1..], b);
    }
  }

  lemma {:induction false} CloseFits(st: Scan, s: string)
    ensures Close(st, s).Some? ==> 0 < Close(st, s).value <= |s| && s[Close(st, s).value - 1] == '}'
    decreases |s|
  {
    if s != "" { CloseFits(Step(st, s[0]), s[1..]); }
  }

  /** `matchJSONObject`: the index of the brace that matches the one at `start`. */
  method MatchJsonObject(s: string, start: nat) returns (end: nat, ok: bool)
    requires start < |s| && s[start] == '{'
    ensures ok <==> Close(BEGIN, s[start..]).Some?
    ensures ok ==> end + 1 == start + Close(BEGIN, s[start..]).value && start <= end < |s|
  {
    CloseFits(BEGIN, s[start..]);
    var depth, inStr, esc := 0, false, false;
    for i := start to |s|
      invariant Close(BEGIN, s[start..]) == Later(Close(Scan(depth, inStr, esc), s[i..]), i - start)
    {
      var c := s[i];
      ghost var st := Scan(depth, inStr, esc);
      assert s[i..][1..] == s[i + 1..];
      if inStr {
        if esc {
          esc := false;
        } else if c == '\\' {
          esc := true;
        } else if c == '"' {
          inStr := false;
        }
        assert Scan(depth, inStr, esc) == Step(st, c);
        continue;
      }
      if c == '"' {
        inStr := true;
      } else if c == '{' {
        depth := depth + 1;
      } else if c == '}' {
        depth := depth - 1;
        if depth == 0 { return i, true; }
      }
      assert Scan(depth, inStr, esc) == Step(st, c);
    }
    return 0, false;
  }

  // ---- Extraction ----

  /** The text from an opening brace to its matching one. */
  function Candidate(s: string, p: nat): Option<string>
    requires p < |s|
  {
    CloseFits(BEGIN, s[p..]);
    if s[p] == '{' && Close(BEGIN, s[p..]).Some? then Some(s[p..p + Close(BEGIN, s[p..]).value]) else None
  }

  predicate IsObjectAt(s: string, p: nat, valid: string -> bool)
    requires p < |s|
  {
    Candidate(s, p).Some? && valid(Candidate(s, p).value)
  }

  /** The answer is the candidate at the first brace whose candidate is valid, if there is one. */
  ghost predicate Extracts(s: string, valid: string -> bool, r: Option<string>) {
    if r.None? then forall p: nat | p < |s| :: !IsObjectAt(s, p, valid)
    else exists p: nat :: p < |s| && IsObjectAt(s, p, valid) && Candidate(s, p) == r
                          && forall q: nat | q < p :: !IsObjectAt(s, q, valid)
  }

  /** `strings.IndexByte(s[from:], '{')`, as an index into s. */
  method NextBrace(s: string, from: nat) returns (p: nat)
    requires from <= |s|
    ensures from <= p <= |s| && (p < |s| ==> s[p] == '{') && forall k | from <= k < p :: s[k] != '{'
  {
    p := from;
    while p < |s| && s[p] != '{'
      invariant from <= p <= |s| && forall k | from <= k < p :: s[k] != '{'
    {
      p := p + 1;
    }
  }

  /** `ExtractJSONObject`, where `valid` tells which candidates the JSON library accepts. */
  method ExtractJsonObject(b: string, valid: string -> bool) returns (r: Option<string>)
    ensures Extracts(TrimSpace(b), valid, r)
  {
    var s := TrimSpace(b);
    if s == "" { return None; }
    var start := NextBrace(s, 0);
    while start < |s|
      invariant start <= |s| && (start < |s| ==> s[start] == '{')
      invariant forall q: nat | q < start :: !IsObjectAt(s, q, valid)
    {
      var end, ok := MatchJsonObject(s, start);
      if ok {
        var cand := s[start..end + 1];
        assert Candidate(s, start) == Some(cand);
        if valid(cand) { return Some(cand); }
      }
      start := NextBrace(s, start + 1);
    }
    return None;
  }

  /** The search as a function of the text: the valid candidate at or behind p, if any. */
  function FindObject(s: string, p: nat, valid: string -> bool): Option<string>
    decreases |s| - p
  {
    if p >= |s| then None else if IsObjectAt(s, p, valid) then Candidate(s, p) else FindObject(s, p + 1, valid)
  }

  lemma {:induction false} FindObjectExtracts(s: string, p: nat, valid: string -> bool)
    requires forall q: nat | q < p && q < |s| :: !IsObjectAt(s, q, valid)
    ensures Extracts(s, valid, FindObject(s, p, valid))
    decreases |s| - p
  {
    if p < |s| && !IsObjectAt(s, p, valid) { FindObjectExtracts(s, p + 1, valid); }
  }

  /** The answer is determined. */
  lemma ExtractsUnique(s: string, valid: string -> bool, r: Option<string>, r': Option<string>)
    requires Extracts(s, valid, r) && Extracts(s, valid, r')
    ensures r == r'
  {
    if r.Some? && r'.Some? {
      var p: nat :| p < |s| && IsObjectAt(s, p, valid) && Candidate(s, p) == r && forall q: nat | q < p :: !IsObjectAt(s, q, valid);
      var q: nat :| q < |s| && IsObjectAt(s, q, valid) && Candidate(s, q) == r' && forall k: nat | k < q :: !IsObjectAt(s, k, valid);
    }
  }

  // ---- JSON texts ----

  /** One character of a string literal: itself, or behind a backslash (section 7 of RFC 8259). */
  datatype Piece = Plain(c: char) | Escaped(c: char) | Hex(code: string)

  /** A JSON text by its grammar (RFC 8259): any white space, any escapes. Atoms are numbers and literal names. */
  datatype Value =
    | Atom(text: string)
    | Quoted(body: seq<Piece>)
    | Array(space: string, items: Items)
    | Object(space: string, members: Members)

  /** Items of an array: a value and what follows it, white space before and behind the comma included. */
  datatype Items = NoItem | Item(head: Value, gap: string, more: bool, space: string, tail: Items)

  /** Members of an object: a key, the colon with its white space, a value, and what follows it. */
  datatype Members =
    | NoMember
    | Member(key: seq<Piece>, colon: string, head: Value, gap: string, more: bool, space: string, tail: Members)

  predicate IsJsonSpace(s: string) {
    forall c | c in s :: c == ' ' || c == '\t' || c == '\n' || c == '\r'
  }

  predicate IsPlainText(s: string) {
    forall c | c in s :: c != '"' && c != '{' && c != '}'
  }

  predicate ValidPiece(p: Piece) {
    match p
    case Plain(c) => c != '"' && c != '\\' && ' ' <= c
    case Escaped(c) => c in {'"', '\\', '/', 'b', 'f', 'n', 'r', 't'}
    case Hex(code) => |code| == 4 && forall c | c in code :: '0' <= c <= '9' || 'a' <= c <= 'f' || 'A' <= c <= 'F'
  }

  predicate ValidPieces(ps: seq<Piece>) {
    forall p | p in ps :: ValidPiece(p)
  }

  predicate Valid(v: Value) {
    match v
    case Atom(text) => IsPlainText(text)
    case Quoted(body) => ValidPieces(body)
    case Array(space, items) => IsJsonSpace(space) && ValidItems(items)
    case Object(space, members) => IsJsonSpace(space) && ValidMembers(members)
  }

  predicate ValidItems(items: Items) {
    items.Item? ==> Valid(items.head) && IsJsonSpace(items.gap) && IsJsonSpace(items.space) && ValidItems(items.tail)
  }

  predicate ValidMembers(ms: Members) {
    ms.Member? ==>
      && ValidPieces(ms.key) && IsPlainText(ms.colon) && Valid(ms.head)
      && IsJsonSpace(ms.gap) && IsJsonSpace(ms.space) && ValidMembers(ms.tail)
  }

  function ShowPiece(p: Piece): string {
    match p
    case Plain(c) => [c]
    case Escaped(c) => ['\\', c]
    case Hex(code) => ['\\', 'u'] + code
  }

  function ShowPieces(ps: seq<Piece>): string {
    if ps == [] then "" else ShowPiece(ps[0]) + ShowPieces(ps[1..])
  }

  function ShowString(ps: seq<Piece>): string {
    ['"'] + (ShowPieces(ps) + ['"'])
  }

  function Show(v: Value): string
    decreases v, 1
  {
    match v
    case Atom(text) => text
    case Quoted(body) => ShowString(body)
    case Array(space, items) => ['['] + (space + (ShowItems(items) + [']']))
    case Object(space, members) => ['{'] + (ShowBody(space, members) + ['}'])
  }

  /** What stands between the braces of an object. */
  function ShowBody(space: string, members: Members): string
    decreases members, 1
  {
    space + ShowMembers(members)
  }

  function ShowItems(items: Items): string
    decreases items, 0
  {
    match items
    case NoItem => ""
    case Item(head, gap, more, space, tail) => Show(head) + Follows(gap, more, space, ShowItems(tail))
  }

  /** What follows an item or a value: perhaps a comma, with white space around it, and the rest. */
  function Follows(gap: string, more: bool, space: string, rest: string): string {
    gap + ((if more then [','] else []) + (space + rest))
  }

  function ShowMembers(ms: Members): string
    decreases ms, 0
  {
    match ms
    case NoMember => ""
    case Member(key, colon, head, gap, more, space, tail) =>
      ShowString(key) + (colon + (Show(head) + Follows(gap, more, space, ShowMembers(tail))))
  }

  // ---- Scanning a JSON text ----

  /** Reading s at any depth inside an object ends where it began and closes nothing. */
  ghost predicate Passes(s: string) {
    forall d | d >= 1 :: Quiet(Scan(d, false, false), s) && After(Scan(d, false, false), s) == Scan(d, false, false)
  }

  lemma PassesJoin(a: string, b: string)
    requires Passes(a) && Passes(b)
    ensures Passes(a + b)
  {
    forall d | d >= 1
      ensures Quiet(Scan(d, false, false), a + b) && After(Scan(d, false, false), a + b) == Scan(d, false, false)
    {
      AfterJoin(Scan(d, false, false), a, b);
    }
  }

  lemma {:induction false} PlainReads(st: Scan, s: string)
    requires IsPlainText(s) && !st.inStr
    ensures Quiet(st, s) && After(st, s) == st
    decreases |s|
  {
    if s != "" {
      assert s[0] in s && forall c | c in s[1..] :: c in s;
      PlainReads(st, s[1..]);
    }
  }

  lemma PlainPasses(s: string)
    requires IsPlainText(s)
    ensures Passes(s)
  {
    forall d | d >= 1 ensures Quiet(Scan(d, false, false), s) && After(Scan(d, false, false), s) == Scan(d, false, false) {
      PlainReads(Scan(d, false, false), s);
    }
  }

  lemma {:induction false} LiteralReads(st: Scan, s: string)
    requires st.inStr && !st.esc && forall c | c in s :: c != '"' && c != '\\'
    ensures Quiet(st, s) && After(st, s) == st
    decreases |s|
  {
    if s != "" {
      assert s[0] in s && forall c | c in s[1..] :: c in s;
      LiteralReads(st, s[1..]);
    }
  }

  lemma PieceReads(st: Scan, p: Piece)
    requires ValidPiece(p) && st.inStr && !st.esc
    ensures Quiet(st, ShowPiece(p)) && After(st, ShowPiece(p)) == st
  {
    match p {
      case Plain(c) => LiteralReads(st, [c]);
      case Escaped(c) => PairReads(st, c);
      case Hex(code) =>
        PairReads(st, 'u');
        LiteralReads(st, code);
        AfterJoin(st, ['\\', 'u'], code);
    }
  }

  /** A backslash and the character behind it. */
  lemma PairReads(st: Scan, c: char)
    requires st.inStr && !st.esc
    ensures Quiet(st, ['\\', c]) && After(st, ['\\', c]) == st
  {
    var mid := st.(esc := true);
    assert Step(st, '\\') == mid && Step(mid, c) == st;
    assert ['\\', c][1..] == [c] && [c][1..] == "";
    assert After(mid, [c]) == After(st, "") == st;
    assert Quiet(mid, [c]);
  }

  lemma {:induction false} PiecesRead(st: Scan, ps: seq<Piece>)
    requires ValidPieces(ps) && st.inStr && !st.esc
    ensures Quiet(st, ShowPieces(ps)) && After(st, ShowPieces(ps)) == st
    decreases |ps|
  {
    if ps != [] {
      assert ps[0] in ps && forall p | p in ps[1..] :: p in ps;
      PieceReads(st, ps[0]);
      PiecesRead(st, ps[1..]);
      AfterJoin(st, ShowPiece(ps[0]), ShowPieces(ps[1..]));
    }
  }

  lemma StringPasses(ps: seq<Piece>)
    requires ValidPieces(ps)
    ensures Passes(ShowString(ps))
  {
    forall d | d >= 1
      ensures Quiet(Scan(d, false, false), ShowString(ps)) && After(Scan(d, false, false), ShowString(ps)) == Scan(d, false, false)
    {
      var out, within := Scan(d, false, false), Scan(d, true, false);
      PiecesRead(within, ps);
      Encloses(out, within, ['"'], ShowPieces(ps), ['"']);
    }
  }

  /** An opening text, a body that changes nothing, and the closing text that leads back. */
  lemma Encloses(out: Scan, within: Scan, open: string, body: string, close: string)
    requires Quiet(out, open) && After(out, open) == within
    requires Quiet(within, body) && After(within, body) == within
    requires Quiet(within, close) && After(within, close) == out
    ensures Quiet(out, open + (body + close)) && After(out, open + (body + close)) == out
  {
    AfterJoin(within, body, close);
    AfterJoin(out, open, body + close);
  }

  /** Every JSON text passes: its braces outside string literals are balanced. */
  lemma {:induction false} ValuePasses(v: Value)
    requires Valid(v)
    ensures Passes(Show(v))
    decreases v, 1
  {
    match v {
      case Atom(text) => PlainPasses(text);
      case Quoted(body) => StringPasses(body);
      case Array(space, items) =>
        PlainPasses(['[']);
        PlainPasses([']']);
        PlainPasses(space);
        ItemsPass(items);
        PassesJoin(ShowItems(items), [']']);
        PassesJoin(space, ShowItems(items) + [']']);
        PassesJoin(['['], space + (ShowItems(items) + [']']));
      case Object(space, members) =>
        BodyPasses(space, members);
        BracesPass(ShowBody(space, members));
    }
  }

  lemma {:induction false} BodyPasses(space: string, members: Members)
    requires IsJsonSpace(space) && ValidMembers(members)
    ensures Passes(ShowBody(space, members))
    decreases members, 2
  {
    PlainPasses(space);
    MembersPass(members);
    PassesJoin(space, ShowMembers(members));
  }

  lemma BracesPass(body: string)
    requires Passes(body)
    ensures Passes(['{'] + (body + ['}']))
  {
    forall d | d >= 1
      ensures var s := ['{'] + (body + ['}']);
              Quiet(Scan(d, false, false), s) && After(Scan(d, false, false), s) == Scan(d, false, false)
    {
      BracesRead(body, d);
    }
  }

  lemma BracesRead(body: string, d: int)
    requires Passes(body) && d >= 1
    ensures var s := ['{'] + (body + ['}']);
            Quiet(Scan(d, false, false), s) && After(Scan(d, false, false), s) == Scan(d, false, false)
  {
    var out, within := Scan(d, false, false), Scan(d + 1, false, false);
    Encloses(out, within, ['{'], body, ['}']);
  }

  lemma {:induction false} ItemsPass(items: Items)
    requires ValidItems(items)
    ensures Passes(ShowItems(items))
    decreases items, 0
  {
    match items {
      case NoItem => PlainPasses("");
      case Item(head, gap, more, space, tail) =>
        ValuePasses(head);
        ItemsPass(tail);
        RestPasses(gap, more, space, ShowItems(tail));
        PassesJoin(Show(head), Follows(gap, more, space, ShowItems(tail)));
    }
  }

  lemma RestPasses(gap: string, more: bool, space: string, rest: string)
    requires IsJsonSpace(gap) && IsJsonSpace(space) && Passes(rest)
    ensures Passes(Follows(gap, more, space, rest))
  {
    var comma := if more then [','] else [];
    PlainPasses(gap);
    PlainPasses(comma);
    PlainPasses(space);
    PassesJoin(space, rest);
    PassesJoin(comma, space + rest);
    PassesJoin(gap, comma + (space + rest));
  }

  lemma {:induction false} MembersPass(ms: Members)
    requires ValidMembers(ms)
    ensures Passes(ShowMembers(ms))
    decreases ms, 0
  {
    match ms {
      case NoMember => PlainPasses("");
      case Member(key, colon, head, gap, more, space, tail) =>
        StringPasses(key);
        PlainPasses(colon);
        ValuePasses(head);
        MembersPass(tail);
        var rest := Follows(gap, more, space, ShowMembers(tail));
        RestPasses(gap, more, space, ShowMembers(tail));
        PassesJoin(Show(head), rest);
        PassesJoin(colon, Show(head) + rest);
        PassesJoin(ShowString(key), colon + (Show(head) + rest));
    }
  }

  /** From an object's opening brace the scan stops at its closing brace, whatever follows. */
  lemma ObjectCloses(v: Value, post: string)
    requires v.Object? && Valid(v)
    ensures Close(BEGIN, Show(v) + post) == Some(|Show(v)|)
  {
    var body := ShowBody(v.space, v.members);
    var within := Scan(1, false, false);
    BodyPasses(v.space, v.members);
    AfterJoin(BEGIN, ['{'], body);
    CloseBehind(BEGIN, ['{'] + body, ['}'] + post);
    assert (['}'] + post)[0] == '}';
    assert Show(v) + post == (['{'] + body) + (['}'] + post);
  }

  // ---- Trimming around the object ----

  lemma {:induction false} TrimLeftStops(pre: string, s: string)
    requires s != "" && !IsSpace(s[0])
    ensures TrimLeft(pre + s) == TrimLeft(pre) + s
    decreases |pre|
  {
    if pre == "" { assert pre + s == s && TrimLeft(pre) + s == s; }
    else if IsSpace(pre[0]) {
      assert (pre + s)[1..] == pre[1..] + s;
      TrimLeftStops(pre[1..], s);
    }
  }

  lemma {:induction false} TrimRightStops(s: string, post: string)
    requires s != "" && !IsSpace(s[|s| - 1])
    ensures TrimRight(s + post) == s + TrimRight(post)
    decreases |post|
  {
    if post == "" { assert s + post == s && s + TrimRight(post) == s; }
    else if IsSpace(post[|post| - 1]) {
      assert (s + post)[..|s + post| - 1] == s + post[..|post| - 1];
      TrimRightStops(s, post[..|post| - 1]);
    }
  }

  lemma {:induction false} TrimLeftPart(s: string)
    ensures forall c | c in TrimLeft(s) :: c in s
    decreases |s|
  {
    if s != "" && IsSpace(s[0]) { TrimLeftPart(s[1..]); }
  }

  lemma Regroup(a: string, b: string, c: string)
    ensures (a + b) + c == a + (b + c)
  {
  }

  lemma TrimAround(pre: string, s: string, post: string)
    requires s != "" && !IsSpace(s[0]) && !IsSpace(s[|s| - 1])
    ensures TrimSpace(pre + s + post) == TrimLeft(pre) + (s + TrimRight(post))
  {
    var lead := TrimLeft(pre);
    Regroup(pre, s, post);
    TrimLeftStops(pre, s + post);
    Regroup(lead, s, post);
    TrimRightStops(lead + s, post);
    Regroup(lead, s, TrimRight(post));
  }

  /**
   Extraction undoes printing: whatever JSON text of an object stands behind text without an opening brace and
   before any other text, exactly that object is extracted.
   */
  lemma ExtractionUndoesPrinting(pre: string, v: Value, post: string, valid: string -> bool, r: Option<string>)
    requires v.Object? && Valid(v) && valid(Show(v)) && '{' !in pre
    requires Extracts(TrimSpace(pre + Show(v) + post), valid, r)
    ensures r == Some(Show(v))
  {
    var t, lead, trail := Show(v), TrimLeft(pre), TrimRight(post);
    TrimAround(pre, t, post);
    TrimLeftPart(pre);
    ObjectCloses(v, trail);
    FirstObject(lead, t, trail, valid);
    ExtractsUnique(lead + (t + trail), valid, r, Some(t));
  }

  lemma FirstObject(lead: string, t: string, trail: string, valid: string -> bool)
    requires '{' !in lead && t != "" && t[0] == '{' && valid(t) && Close(BEGIN, t + trail) == Some(|t|)
    ensures Extracts(lead + (t + trail), valid, Some(t))
  {
    var s, p := lead + (t + trail), |lead|;
    assert s[p..] == t + trail;
    assert s[p..p + |t|] == t;
    assert Candidate(s, p) == Some(t);
    forall q: nat | q < p ensures !IsObjectAt(s, q, valid) { assert s[q] == lead[q] && lead[q] in lead; }
  }
}
