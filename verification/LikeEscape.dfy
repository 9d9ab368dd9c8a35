/** Keywords in LIKE patterns (`dao/like_escape.go`). */
module LikeEscape {

  // ---- LIKE ----

  /**
   '%' stands for any text and '_' for one character. Where the database has an escape character, a backslash takes
   the next character literally; without one, as in SQLite, a backslash is a character like any other.
   */
  predicate Like(s: string, p: string, escapes: bool)
    decreases |s| + |p|
  {
    if p == "" then s == ""
    else if p[0] == '%' then Like(s, p[1..], escapes) || (s != "" && Like(s[1..], p, escapes))
    else if p[0] == '_' then s != "" && Like(s[1..], p[1..], escapes)
    else if escapes && p[0] == '\\' && |p| >= 2 then s != "" && s[0] == p[1] && Like(s[1..], p[2..], escapes)
    else s != "" && s[0] == p[0] && Like(s[1..], p[1..], escapes)
  }

  predicate IsSubstring(w: string, s: string) {
    exists i :: 0 <= i <= |s| && HasAt(s, i, w)
  }

  /** The word w stands at position i of s. */
  predicate HasAt(s: string, i: nat, w: string)
    requires i <= |s|
  {
    i + |w| <= |s| && s[i..i + |w|] == w
  }

  predicate IsSpecial(c: char) {
    c == '\\' || c == '%' || c == '_'
  }

  /** `strings.NewReplacer`: backslash, '%' and '_' get a backslash in front. */
  function EscapeLike(s: string): string {
    if s == "" then "" else (if IsSpecial(s[0]) then ['\\', s[0]] else [s[0]]) + EscapeLike(s[1..])
  }

  /** `likeContains`. */
  function LikeContains(keyword: string): string {
    "%" + (EscapeLike(keyword) + "%")
  }

  /** A final '%' accepts any rest. */
  lemma {:induction false} AnyRest(s: string, escapes: bool)
    ensures Like(s, "%", escapes)
    decreases |s|
  {
    assert "%"[1..] == "";
    if s != "" { AnyRest(s[1..], escapes); }
  }

  /** A leading '%' looks for the rest of the pattern at every place. */
  lemma {:induction false} AnyStart(s: string, p: string, escapes: bool)
    ensures Like(s, "%" + p, escapes) <==> exists i :: 0 <= i <= |s| && Like(s[i..], p, escapes)
    decreases |s|
  {
    var q := "%" + p;
    assert q[1..] == p && s[0..] == s;
    if s != "" {
      AnyStart(s[1..], p, escapes);
      forall i | 0 <= i <= |s[1..]| ensures s[1..][i..] == s[i + 1..] { }
      if i :| 0 < i <= |s| && Like(s[i..], p, escapes) { assert Like(s[1..][i - 1..], p, escapes); }
    }
  }

  /** A pattern whose front part demands exactly the word w finds w anywhere between two '%'. */
  lemma BetweenPercents(s: string, p: string, w: string, escapes: bool)
    requires forall r :: Like(r, p + "%", escapes) <==> w <= r
    ensures Like(s, "%" + (p + "%"), escapes) <==> IsSubstring(w, s)
  {
    AnyStart(s, p + "%", escapes);
    forall i | 0 <= i <= |s| ensures Like(s[i..], p + "%", escapes) <==> HasAt(s, i, w) {
      assert Like(s[i..], p + "%", escapes) <==> w <= s[i..];
      if i + |w| <= |s| { assert s[i..][..|w|] == s[i..i + |w|]; }
    }
  }

  // ---- With backslash as escape character ----

  /** An escaped keyword before '%' matches exactly the strings that start with the keyword. */
  lemma {:induction false} EscapedPrefix(w: string, s: string)
    ensures Like(s, EscapeLike(w) + "%", true) <==> w <= s
    decreases |w|
  {
    if w == "" {
      assert EscapeLike(w) + "%" == "%";
      AnyRest(s, true);
    } else {
      var p, rest := EscapeLike(w) + "%", EscapeLike(w[1..]) + "%";
      if IsSpecial(w[0]) {
        assert p == ['\\', w[0]] + rest && p[2..] == rest;
      } else {
        assert p == [w[0]] + rest && p[1..] == rest;
      }
      if s != "" { EscapedPrefix(w[1..], s[1..]); }
    }
  }

  /** The pattern for a keyword matches exactly the strings that contain the keyword as it stands. */
  lemma ContainsExactly(keyword: string, s: string)
    ensures Like(s, LikeContains(keyword), true) <==> IsSubstring(keyword, s)
  {
    forall r ensures Like(r, EscapeLike(keyword) + "%", true) <==> keyword <= r { EscapedPrefix(keyword, r); }
    BetweenPercents(s, EscapeLike(keyword), keyword, true);
  }

  // ---- Without an escape character ----

  predicate IsOrdinary(w: string) {
    forall c | c in w :: !IsSpecial(c)
  }

  predicate HasWildcard(w: string) {
    '%' in w || '_' in w
  }

  function Backslashes(s: string): nat {
    if s == "" then 0 else (if s[0] == '\\' then 1 else 0) + Backslashes(s[1..])
  }

  /** Each backslash of the pattern has to be found in the string. */
  lemma {:induction false} BackslashesFound(s: string, p: string)
    requires Like(s, p, false)
    ensures Backslashes(p) <= Backslashes(s)
    decreases |s| + |p|
  {
    if p != "" {
      if p[0] == '%' {
        if Like(s, p[1..], false) { BackslashesFound(s, p[1..]); } else { BackslashesFound(s[1..], p); }
      } else {
        BackslashesFound(s[1..], p[1..]);
      }
    }
  }

  lemma {:induction false} BackslashesJoin(a: string, b: string)
    ensures Backslashes(a + b) == Backslashes(a) + Backslashes(b)
  {
    if a == "" { assert a + b == b; } else {
      assert (a + b)[1..] == a[1..] + b;
      BackslashesJoin(a[1..], b);
    }
  }

  /** Escaping adds a backslash for every special character. */
  lemma {:induction false} EscapingAdds(w: string)
    ensures Backslashes(EscapeLike(w)) >= Backslashes(w)
    ensures IsOrdinary(w) ==> EscapeLike(w) == w
    ensures !IsOrdinary(w) ==> Backslashes(EscapeLike(w)) > Backslashes(w)
  {
    if w != "" {
      EscapingAdds(w[1..]);
      assert w == [w[0]] + w[1..];
      assert forall c :: c in w <==> c == w[0] || c in w[1..];
      if IsSpecial(w[0]) {
        assert ['\\', w[0]][1..] == [w[0]] && [w[0]][1..] == "";
        BackslashesJoin(['\\', w[0]], EscapeLike(w[1..]));
      } else {
        BackslashesJoin([w[0]], EscapeLike(w[1..]));
      }
    }
  }

  /** A text without wildcards before '%' matches exactly the strings that start with it. */
  lemma {:induction false} PlainPrefix(w: string, s: string)
    requires !HasWildcard(w)
    ensures Like(s, w + "%", false) <==> w <= s
    decreases |w|
  {
    if w == "" {
      assert w + "%" == "%";
      AnyRest(s, false);
    } else {
      assert w[0] in w && (forall c | c in w[1..] :: c in w) && (w + "%")[1..] == w[1..] + "%";
      if s != "" { PlainPrefix(w[1..], s[1..]); }
    }
  }

  lemma {:induction false} EscapeWildcards(w: string)
    requires !HasWildcard(w)
    ensures !HasWildcard(EscapeLike(w))
  {
    if w != "" {
      assert w[0] in w && forall c | c in w[1..] :: c in w;
      EscapeWildcards(w[1..]);
    }
  }

  /** A keyword without wildcards is looked for with its backslashes doubled. */
  lemma DoubledIsFound(keyword: string, s: string)
    requires !HasWildcard(keyword)
    ensures Like(s, LikeContains(keyword), false) <==> IsSubstring(EscapeLike(keyword), s)
  {
    var p := EscapeLike(keyword);
    EscapeWildcards(keyword);
    forall r ensures Like(r, p + "%", false) <==> p <= r { PlainPrefix(p, r); }
    BetweenPercents(s, p, p, false);
  }

  /** A string the escaped keyword accepts, with nothing but backslashes in the place of special characters. */
  function Blanked(w: string): string {
    if w == "" then ""
    else (if w[0] == '%' then ['\\'] else if IsSpecial(w[0]) then ['\\', '\\'] else [w[0]]) + Blanked(w[1..])
  }

  lemma {:induction false} BlankedMatches(w: string)
    ensures Like(Blanked(w), EscapeLike(w) + "%", false) && !HasWildcard(Blanked(w))
  {
    if w == "" {
      assert EscapeLike(w) + "%" == "%";
      AnyRest("", false);
    } else {
      var s, p := Blanked(w[1..]), EscapeLike(w[1..]) + "%";
      BlankedMatches(w[1..]);
      if w[0] == '%' {
        assert EscapeLike(w) + "%" == ['\\', '%'] + p && Blanked(w) == ['\\'] + s;
        BlankStep('\\', s, ['%'] + p);
        assert (['%'] + p)[1..] == p;
      } else if IsSpecial(w[0]) {
        assert EscapeLike(w) + "%" == ['\\'] + ([w[0]] + p) && Blanked(w) == ['\\'] + (['\\'] + s);
        SpecialStep(w[0], s, p);
      } else {
        assert EscapeLike(w) + "%" == [w[0]] + p && Blanked(w) == [w[0]] + s;
        BlankStep(w[0], s, p);
      }
    }
  }

  /** A character that stands for itself in front of string and pattern. */
  lemma BlankStep(c: char, s: string, p: string)
    requires c != '%' && c != '_'
    ensures Like([c] + s, [c] + p, false) <==> Like(s, p, false)
  {
    assert ([c] + s)[1..] == s && ([c] + p)[1..] == p;
  }

  /** An escaped backslash or underscore against two backslashes. */
  lemma SpecialStep(c: char, s: string, p: string)
    requires (c == '\\' || c == '_') && Like(s, p, false)
    ensures Like(['\\'] + (['\\'] + s), ['\\'] + ([c] + p), false)
  {
    assert (['\\'] + s)[1..] == s && ([c] + p)[1..] == p;
    BlankStep('\\', ['\\'] + s, [c] + p);
  }

  lemma SubstringTransitive(a: string, b: string, c: string)
    requires IsSubstring(a, b) && IsSubstring(b, c)
    ensures IsSubstring(a, c)
  {
    var i :| 0 <= i <= |b| && HasAt(b, i, a);
    var j :| 0 <= j <= |c| && HasAt(c, j, b);
    forall k | 0 <= k < |a| ensures c[j + i + k] == a[k] { assert a[k] == b[i..i + |a|][k] && b[i + k] == c[j..j + |b|][i + k]; }
    assert c[j + i..j + i + |a|] == a;
    assert HasAt(c, j + i, a);
  }

  lemma SubstringMembers(w: string, s: string, c: char)
    requires IsSubstring(w, s) && c in w
    ensures c in s
  {
    var i :| 0 <= i <= |s| && HasAt(s, i, w);
    assert c in s[i..i + |w|];
  }

  lemma SubstringOfItself(w: string)
    ensures IsSubstring(w, w)
  {
    assert HasAt(w, 0, w);
  }

  /** A keyword with a special character does not even find itself. */
  lemma MissesItself(w: string)
    requires !IsOrdinary(w)
    ensures !Like(w, LikeContains(w), false)
  {
    var p := EscapeLike(w);
    EscapingAdds(w);
    BackslashesJoin(p, "%");
    BackslashesJoin("%", p + "%");
    if Like(w, LikeContains(w), false) { BackslashesFound(w, LikeContains(w)); }
  }

  /** A string the pattern finds although it does not contain the keyword, for the keywords that have one. */
  function FoundByMistake(w: string): string {
    if HasWildcard(w) then Blanked(w) else EscapeLike(w)
  }

  lemma MistakeFound(w: string)
    requires HasWildcard(w) || !IsSubstring(w, EscapeLike(w))
    ensures Like(FoundByMistake(w), LikeContains(w), false) && !IsSubstring(w, FoundByMistake(w))
  {
    var p, s := EscapeLike(w), FoundByMistake(w);
    if HasWildcard(w) {
      BlankedMatches(w);
      AnyStart(s, p + "%", false);
      assert s[0..] == s;
      if IsSubstring(w, s) {
        SubstringMembers(w, s, if '%' in w then '%' else '_');
        assert false;
      }
    } else {
      DoubledIsFound(w, p);
      SubstringOfItself(p);
    }
  }

  // ---- SQLite: no escape character, and letters in either case ----

  /** ASCII letters in lower case. */
  function Lower(c: char): char {
    if 'A' <= c <= 'Z' then (c as int + 32) as char else c
  }

  function Fold(s: string): (r: string)
    ensures |r| == |s| && forall i | 0 <= i < |s| :: r[i] == Lower(s[i])
  {
    if s == "" then "" else [Lower(s[0])] + Fold(s[1..])
  }

  predicate SqliteLike(s: string, p: string) {
    Like(Fold(s), Fold(p), false)
  }

  /** What the keyword should find: strings that contain it up to the case of letters. */
  predicate Contains(s: string, keyword: string) {
    IsSubstring(Fold(keyword), Fold(s))
  }

  /** The keyword finds a string that does not contain it. */
  ghost predicate Overmatches(keyword: string) {
    exists s :: SqliteLike(s, LikeContains(keyword)) && !Contains(s, keyword)
  }

  /** The keyword misses a string that contains it. */
  ghost predicate Undermatches(keyword: string) {
    exists s :: !SqliteLike(s, LikeContains(keyword)) && Contains(s, keyword)
  }

  lemma FoldTwice(s: string)
    ensures Fold(Fold(s)) == Fold(s)
  {
  }

  lemma FoldJoin(a: string, b: string)
    ensures Fold(a + b) == Fold(a) + Fold(b)
  {
  }

  /** Special characters are no letters. */
  lemma FoldSpecial(w: string)
    ensures IsOrdinary(Fold(w)) <==> IsOrdinary(w)
    ensures HasWildcard(Fold(w)) <==> HasWildcard(w)
  {
    var f := Fold(w);
    forall c | IsSpecial(c) ensures c in f <==> c in w {
      if c in w { var i :| 0 <= i < |w| && w[i] == c; assert f[i] == c; }
      if c in f { var i :| 0 <= i < |f| && f[i] == c; assert w[i] == c; }
    }
    assert IsSpecial('%') && IsSpecial('_');
  }

  lemma {:induction false} FoldEscape(w: string)
    ensures Fold(EscapeLike(w)) == EscapeLike(Fold(w)) && Fold(Blanked(w)) == Blanked(Fold(w))
  {
    if w != "" {
      FoldEscape(w[1..]);
      assert Fold(w)[1..] == Fold(w[1..]);
      FoldJoin(if IsSpecial(w[0]) then ['\\', w[0]] else [w[0]], EscapeLike(w[1..]));
      FoldJoin(if w[0] == '%' then ['\\'] else if IsSpecial(w[0]) then ['\\', '\\'] else [w[0]], Blanked(w[1..]));
    }
  }

  lemma FoldPattern(w: string)
    ensures Fold(LikeContains(w)) == LikeContains(Fold(w))
  {
    FoldEscape(w);
    FoldJoin(EscapeLike(w), "%");
    FoldJoin("%", EscapeLike(w) + "%");
    assert Fold("%") == "%";
  }

  /** A keyword with a special character misses a string that contains it, and every other keyword finds them all. */
  lemma UndermatchesExactly(keyword: string)
    ensures Undermatches(keyword) <==> !IsOrdinary(keyword)
  {
    var w := Fold(keyword);
    FoldPattern(keyword);
    FoldSpecial(keyword);
    if IsOrdinary(keyword) {
      EscapingAdds(w);
      forall s ensures SqliteLike(s, LikeContains(keyword)) <==> Contains(s, keyword) { DoubledIsFound(w, Fold(s)); }
    } else {
      MissesItself(w);
      SubstringOfItself(w);
      assert Contains(keyword, keyword);
    }
  }

  /**
   The keywords that match too much: those with '%' or '_', and of the others those that are not found any more
   where their backslashes are doubled.
   */
  lemma OvermatchesExactly(keyword: string)
    ensures Overmatches(keyword) <==> HasWildcard(keyword) || !IsSubstring(Fold(keyword), EscapeLike(Fold(keyword)))
  {
    var w := Fold(keyword);
    FoldPattern(keyword);
    FoldSpecial(keyword);
    if HasWildcard(w) || !IsSubstring(w, EscapeLike(w)) {
      var s := FoundByMistake(w);
      MistakeFound(w);
      FoldTwice(keyword);
      FoldEscape(w);
      assert Fold(s) == s;
      assert SqliteLike(s, LikeContains(keyword)) && !Contains(s, keyword);
    } else {
      forall s | SqliteLike(s, LikeContains(keyword)) ensures Contains(s, keyword) {
        DoubledIsFound(w, Fold(s));
        SubstringTransitive(w, EscapeLike(w), Fold(s));
      }
    }
  }

  /** Exactly the keywords free of special characters match what they should. */
  lemma ExactOnSqlite(keyword: string)
    ensures (forall s :: SqliteLike(s, LikeContains(keyword)) <==> Contains(s, keyword)) <==> IsOrdinary(keyword)
  {
    UndermatchesExactly(keyword);
    if IsOrdinary(keyword) {
      OvermatchesExactly(keyword);
      FoldSpecial(keyword);
      EscapingAdds(Fold(keyword));
      SubstringOfItself(Fold(keyword));
    }
  }

  lemma DoubledBetweenLetters()
    ensures Fold("a\\b") == "a\\b" && EscapeLike("a\\b") == "a\\\\b" && !HasWildcard("a\\b")
  {
    assert EscapeLike("b") == "b" by { assert "b"[1..] == ""; }
    assert EscapeLike("\\b") == "\\\\b" by { assert "\\b"[1..] == "b"; }
    assert "a\\b"[1..] == "\\b";
  }

  lemma LoneBackslash()
    ensures !Overmatches("\\")
  {
    OvermatchesExactly("\\");
    assert "\\"[1..] == "" && EscapeLike("\\") == "\\\\" && Fold("\\") == "\\";
    assert HasAt("\\\\", 0, "\\");
  }

  /** Both ways of matching too much: "%" finds a lone backslash, and a backslash between letters finds two of them. */
  lemma OvermatchingKeywords()
    ensures Overmatches("%") && Overmatches("a\\b") && !Overmatches("\\")
  {
    OvermatchesExactly("%");
    DoubledBetweenLetters();
    OvermatchesExactly("a\\b");
    LoneBackslash();
  }
}
