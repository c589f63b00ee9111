/** The answer canonicaliser `normalize` of script.js: it turns free text into a
    comparison key that is case-, punctuation- and spacing-insensitive. */
module TextKey {
  import opened Wrappers

  // ---------------------------------------------------------------------------
  // Character classes
  // ---------------------------------------------------------------------------

  /** JavaScript's regular-expression class `\s`, which is also the set that
      `String.prototype.trim` removes: the ECMAScript WhiteSpace code points
      (TAB, VT, FF, SPACE, NBSP, ZWNBSP and the Zs category) and the
      LineTerminator code points (LF, CR, LS, PS). */
  predicate IsWhitespace(c: char) {
    c == '\t' || c == '\n' || c == '\U{000B}' || c == '\U{000C}' || c == '\r'
    || c == ' ' || c == '\U{00A0}' || c == '\U{1680}'
    || ('\U{2000}' <= c <= '\U{200A}')
    || c == '\U{2028}' || c == '\U{2029}' || c == '\U{202F}' || c == '\U{205F}'
    || c == '\U{3000}' || c == '\U{FEFF}'
  }

  /** The character class `[.,\/#!$%\^&\*;:{}=\-_`~()"]` whose members are deleted.
      The apostrophe, `?`, `[` and `]` are not in it. */
  predicate IsPunctuation(c: char) {
    c in ".,/#!$%^&*;:{}=-_`~()\""
  }

  /** The upper-case letters whose lower-case mapping the model covers:
      ASCII `A`-`Z` and the Latin-1 letters U+00C0-U+00D6, U+00D8-U+00DE. */
  predicate IsUpper(c: char) {
    ('A' <= c <= 'Z') || ('\U{00C0}' <= c <= '\U{00D6}') || ('\U{00D8}' <= c <= '\U{00DE}')
  }

  /** `toLowerCase` on one character. */
  function ToLower(c: char): (d: char)
    ensures !IsUpper(d)
    ensures !IsUpper(c) ==> d == c
    ensures IsWhitespace(d) == IsWhitespace(c) && IsPunctuation(d) == IsPunctuation(c)
  {
    if IsUpper(c) then (c as int + 32) as char else c
  }

  // ---------------------------------------------------------------------------
  // Properties of a canonical key
  // ---------------------------------------------------------------------------

  predicate NoPunctuation(s: string) {
    forall i :: 0 <= i < |s| ==> !IsPunctuation(s[i])
  }

  predicate NoUpper(s: string) {
    forall i :: 0 <= i < |s| ==> !IsUpper(s[i])
  }

  /** The only whitespace character left is the plain space. */
  predicate OnlySpaces(s: string) {
    forall i :: 0 <= i < |s| && IsWhitespace(s[i]) ==> s[i] == ' '
  }

  /** No two consecutive whitespace characters. */
  ghost predicate NoAdjacentWhitespace(s: string) {
    forall i, j :: 0 <= i < j < |s| && j == i + 1 ==> !IsWhitespace(s[i]) || !IsWhitespace(s[j])
  }

  /** No leading and no trailing whitespace. */
  predicate IsTrimmed(s: string) {
    s == [] || (!IsWhitespace(s[0]) && !IsWhitespace(s[|s| - 1]))
  }

  /** What every result of `Normalize` looks like. */
  ghost predicate IsCanonical(s: string) {
    NoPunctuation(s) && NoUpper(s) && OnlySpaces(s) && NoAdjacentWhitespace(s) && IsTrimmed(s)
  }

  // ---------------------------------------------------------------------------
  // The pipeline stages
  // ---------------------------------------------------------------------------

  /** The length of the leading whitespace run. */
  function LeadingWhitespace(s: string): (n: nat)
    ensures n <= |s|
    ensures forall i :: 0 <= i < n ==> IsWhitespace(s[i])
    ensures n < |s| ==> !IsWhitespace(s[n])
  {
    if s != [] && IsWhitespace(s[0]) then 1 + LeadingWhitespace(s[1..]) else 0
  }

  /** The length of the trailing whitespace run. */
  function TrailingWhitespace(s: string): (n: nat)
    ensures n <= |s|
    ensures forall i :: |s| - n <= i < |s| ==> IsWhitespace(s[i])
    ensures n < |s| ==> !IsWhitespace(s[|s| - n - 1])
  {
    if s != [] && IsWhitespace(s[|s| - 1]) then 1 + TrailingWhitespace(s[..|s| - 1]) else 0
  }

  /** `s` without its leading whitespace run. */
  function TrimStart(s: string): string {
    s[LeadingWhitespace(s)..]
  }

  /** `s` without its trailing whitespace run. */
  function TrimEnd(s: string): string {
    s[..|s| - TrailingWhitespace(s)]
  }

  /** `String.prototype.trim`: a contiguous piece of `s` without outer whitespace,
      so every slice-closed property of `s` carries over. */
  function Trim(s: string): (r: string)
    ensures IsTrimmed(r)
    ensures NoPunctuation(s) ==> NoPunctuation(r)
    ensures NoUpper(s) ==> NoUpper(r)
    ensures OnlySpaces(s) ==> OnlySpaces(r)
    ensures NoAdjacentWhitespace(s) ==> NoAdjacentWhitespace(r)
    ensures IsTrimmed(s) ==> r == s
  {
    TrimEnd(TrimStart(s))
  }

  /** `toLowerCase` on a string: no capital is left, text without capitals is
      unchanged, and every position keeps its whitespace and punctuation class. */
  function LowerCase(s: string): (r: string)
    ensures |r| == |s| && NoUpper(r)
    ensures NoUpper(s) ==> r == s
    ensures forall i :: 0 <= i < |s| ==> IsWhitespace(r[i]) == IsWhitespace(s[i]) && IsPunctuation(r[i]) == IsPunctuation(s[i])
  {
    seq(|s|, i requires 0 <= i < |s| => ToLower(s[i]))
  }

  /** `.replace(/[...]/g, "")`: deletes every punctuation character and keeps the rest. */
  function StripPunctuation(s: string): (r: string)
    ensures |r| <= |s|
    ensures forall i :: 0 <= i < |r| ==> !IsPunctuation(r[i]) && r[i] in s
    ensures forall i :: 0 <= i < |s| && !IsPunctuation(s[i]) ==> s[i] in r
  {
    if s == [] then []
    else if IsPunctuation(s[0]) then StripPunctuation(s[1..])
    else [s[0]] + StripPunctuation(s[1..])
  }

  /** `.replace(/\s+/g, ' ')`: every maximal whitespace run becomes one space. */
  function CollapseWhitespace(s: string): (r: string)
    ensures OnlySpaces(r) && NoAdjacentWhitespace(r)
    ensures forall i :: 0 <= i < |r| && !IsWhitespace(r[i]) ==> r[i] in s
    ensures r == [] <==> s == []
    ensures r != [] ==> (IsWhitespace(r[0]) <==> IsWhitespace(s[0]))
    decreases |s|
  {
    if s == [] then []
    else if IsWhitespace(s[0]) then [' '] + CollapseWhitespace(TrimStart(s))
    else [s[0]] + CollapseWhitespace(s[1..])
  }

  // ---------------------------------------------------------------------------
  // normalize
  // ---------------------------------------------------------------------------

  /** `normalize` on a string: trim, then rewrite. Whatever the input, the key is canonical.
      The stages sit behind `Sealed`, whose single unrolling stops short of them:
      callers in other modules work with keys through this contract and the
      lemmas below, and `NormalizeStages` opens the definition where a proof needs it. */
  function Normalize(s: string): (r: string)
    ensures IsCanonical(r)
  {
    Sealed(s, 1)
  }

  /** The stages of `normalize` behind `n` levels of unrolling. */
  function Sealed(s: string, n: nat): (r: string)
    ensures IsCanonical(r)
  {
    if n == 0 then Rewrite(Trim(s)) else Sealed(s, n - 1)
  }

  lemma NormalizeStages(s: string)
    ensures Normalize(s) == Rewrite(Trim(s))
  {
    assert Sealed(s, 1) == Sealed(s, 0);
  }

  /** The stages after the first trim: lower-case, delete punctuation,
      collapse whitespace runs, trim again. */
  function Rewrite(t: string): (r: string)
    ensures IsCanonical(r)
  {
    var lowered := LowerCase(t);
    var stripped := StripPunctuation(lowered);
    StrippedIsClean(lowered);
    CollapseKeepsClean(stripped);
    Trim(CollapseWhitespace(stripped))
  }

  lemma StrippedIsClean(s: string)
    requires NoUpper(s)
    ensures NoPunctuation(StripPunctuation(s)) && NoUpper(StripPunctuation(s))
  {
    var r := StripPunctuation(s);
    forall i | 0 <= i < |r| ensures !IsUpper(r[i]) {
      assert r[i] in s;
    }
  }

  lemma CollapseKeepsClean(s: string)
    requires NoPunctuation(s) && NoUpper(s)
    ensures NoPunctuation(CollapseWhitespace(s)) && NoUpper(CollapseWhitespace(s))
  {
    var r := CollapseWhitespace(s);
    forall i | 0 <= i < |r| ensures !IsPunctuation(r[i]) && !IsUpper(r[i]) {
      if IsWhitespace(r[i]) {
        assert r[i] == ' ';
      } else {
        assert r[i] in s;
      }
    }
  }

  /** `normalize` on any value the callers pass: `(s || '')` turns `null`,
      `undefined` and the empty string into the empty key. */
  function NormalizeValue(v: Option<string>): (r: string)
    ensures IsCanonical(r)
    ensures v.None? || v == Some("") ==> r == ""
    ensures v.Some? ==> r == Normalize(v.value)
  {
    match v
    case None => ""
    case Some(s) => Normalize(s)
  }

  // ---------------------------------------------------------------------------
  // Canonical keys are exactly the fixpoints; hence idempotence
  // ---------------------------------------------------------------------------

  lemma {:induction false} StripPunctuationFixes(s: string)
    requires NoPunctuation(s)
    ensures StripPunctuation(s) == s
  {
    if s != [] {
      StripPunctuationFixes(s[1..]);
    }
  }

  lemma {:induction false} CollapseWhitespaceFixes(s: string)
    requires OnlySpaces(s) && NoAdjacentWhitespace(s)
    ensures CollapseWhitespace(s) == s
  {
    if s != [] {
      var t := s[1..];
      assert OnlySpaces(t) && NoAdjacentWhitespace(t) by {
        forall i, j | 0 <= i < j < |t| && j == i + 1 ensures !IsWhitespace(t[i]) || !IsWhitespace(t[j]) {
          assert t[i] == s[i + 1] && t[j] == s[j + 1];
        }
      }
      CollapseWhitespaceFixes(t);
      if IsWhitespace(s[0]) {
        assert t == [] || !IsWhitespace(t[0]) by {
          if t != [] { assert t[0] == s[1]; }
        }
        assert TrimStart(s) == TrimStart(t) == t;
      }
    }
  }

  /** A canonical string is its own key. */
  lemma NormalizeFixesCanonical(s: string)
    requires IsCanonical(s)
    ensures Normalize(s) == s
  {
    NormalizeStages(s);
    assert Trim(s) == s;
    assert LowerCase(s) == s;
    StripPunctuationFixes(s);
    CollapseWhitespaceFixes(s);
  }

  /** The fixpoints of `Normalize` are exactly the canonical strings. */
  lemma NormalizeFixpoints(s: string)
    ensures Normalize(s) == s <==> IsCanonical(s)
  {
    if IsCanonical(s) {
      NormalizeFixesCanonical(s);
    }
  }

  /** `normalize(normalize(s)) == normalize(s)`. */
  lemma NormalizeIdempotent(s: string)
    ensures Normalize(Normalize(s)) == Normalize(s)
  {
    NormalizeFixesCanonical(Normalize(s));
  }

  // ---------------------------------------------------------------------------
  // Case-insensitivity
  // ---------------------------------------------------------------------------

  /** The outer whitespace runs depend only on which positions hold whitespace. */
  lemma {:induction false} SameWhitespaceSameRuns(s: string, t: string)
    requires |s| == |t| && forall i :: 0 <= i < |s| ==> IsWhitespace(s[i]) == IsWhitespace(t[i])
    ensures LeadingWhitespace(s) == LeadingWhitespace(t)
    ensures TrailingWhitespace(s) == TrailingWhitespace(t)
  {
    if s != [] {
      SameWhitespaceSameRuns(s[1..], t[1..]);
      SameWhitespaceSameRuns(s[..|s| - 1], t[..|t| - 1]);
    }
  }

  lemma LowerCaseDrop(s: string, k: nat)
    requires k <= |s|
    ensures LowerCase(s[k..]) == LowerCase(s)[k..]
  {
    var l, r := LowerCase(s[k..]), LowerCase(s)[k..];
    forall i | 0 <= i < |l| ensures l[i] == r[i] {
      assert s[k..][i] == s[k + i];
    }
  }

  lemma LowerCaseTake(s: string, k: nat)
    requires k <= |s|
    ensures LowerCase(s[..k]) == LowerCase(s)[..k]
  {
    var l, r := LowerCase(s[..k]), LowerCase(s)[..k];
    forall i | 0 <= i < |l| ensures l[i] == r[i] {
      assert s[..k][i] == s[i];
    }
  }

  lemma LowerCaseKeepsWhitespace(s: string)
    ensures |LowerCase(s)| == |s|
    ensures forall i :: 0 <= i < |s| ==> IsWhitespace(LowerCase(s)[i]) == IsWhitespace(s[i])
  {
  }

  lemma TrimStartLowerCase(s: string)
    ensures TrimStart(LowerCase(s)) == LowerCase(TrimStart(s))
  {
    LowerCaseKeepsWhitespace(s);
    SameWhitespaceSameRuns(LowerCase(s), s);
    LowerCaseDrop(s, LeadingWhitespace(s));
  }

  lemma TrimEndLowerCase(s: string)
    ensures TrimEnd(LowerCase(s)) == LowerCase(TrimEnd(s))
  {
    LowerCaseKeepsWhitespace(s);
    SameWhitespaceSameRuns(LowerCase(s), s);
    LowerCaseTake(s, |s| - TrailingWhitespace(s));
  }

  lemma TrimLowerCase(s: string)
    ensures Trim(LowerCase(s)) == LowerCase(Trim(s))
  {
    TrimStartLowerCase(s);
    TrimEndLowerCase(TrimStart(s));
  }

  lemma LowerCaseIdempotent(s: string)
    ensures LowerCase(LowerCase(s)) == LowerCase(s)
  {
  }

  /** Input that differs only in letter case has the same key. */
  lemma NormalizeIgnoresCase(s: string)
    ensures Normalize(LowerCase(s)) == Normalize(s)
  {
    NormalizeStages(s);
    NormalizeStages(LowerCase(s));
    TrimLowerCase(s);
    var t := Trim(s);
    LowerCaseIdempotent(t);
    assert Rewrite(LowerCase(t)) == Rewrite(t);
  }

  // ---------------------------------------------------------------------------
  // Outer whitespace and punctuation do not matter
  // ---------------------------------------------------------------------------

  predicate AllWhitespace(s: string) {
    forall i :: 0 <= i < |s| ==> IsWhitespace(s[i])
  }

  lemma {:induction false} TrimStartConcat(a: string, b: string)
    ensures TrimStart(a + b) == if TrimStart(a) == [] then TrimStart(b) else TrimStart(a) + b
  {
    if a == [] {
      assert a + b == b;
    } else if IsWhitespace(a[0]) {
      assert (a + b)[0] == a[0] && (a + b)[1..] == a[1..] + b;
      calc {
        TrimStart(a + b);
        TrimStart(a[1..] + b);
        { TrimStartConcat(a[1..], b); }
        if TrimStart(a[1..]) == [] then TrimStart(b) else TrimStart(a[1..]) + b;
      }
    } else {
      assert (a + b)[0] == a[0];
    }
  }

  lemma {:induction false} LowerCaseConcat(a: string, b: string)
    ensures LowerCase(a + b) == LowerCase(a) + LowerCase(b)
  {
  }

  lemma LowerCaseWhitespace(a: string)
    requires AllWhitespace(a)
    ensures LowerCase(a) == a
  {
  }

  lemma {:induction false} StripPunctuationConcat(a: string, b: string)
    ensures StripPunctuation(a + b) == StripPunctuation(a) + StripPunctuation(b)
  {
    if a == [] {
      assert a + b == b;
    } else {
      assert (a + b)[0] == a[0] && (a + b)[1..] == a[1..] + b;
      StripPunctuationConcat(a[1..], b);
    }
  }

  /** Collapsing stops at a leading whitespace run: after the first space the
      rest is the collapse of what follows the run. */
  lemma CollapseLeading(a: string, x: string)
    requires a != [] && AllWhitespace(a)
    ensures CollapseWhitespace(a + x) == [' '] + CollapseWhitespace(TrimStart(x))
  {
    TrimStartConcat(a, x);
    assert (a + x)[0] == a[0];
  }

  /** Collapsing `x` followed by a whitespace run adds one space unless `x`
      already ends with whitespace. */
  lemma {:induction false} CollapseTrailing(x: string, b: string)
    requires b != [] && AllWhitespace(b)
    ensures CollapseWhitespace(x + b) == CollapseWhitespace(x) + Tail(x)
    decreases |x|
  {
    if x == [] {
      assert x + b == b;
      assert TrimStart(b) == [];
    } else if !IsWhitespace(x[0]) {
      var y := x[1..];
      CollapseTrailing(y, b);
      CollapseTrailingWord(x, b);
    } else {
      var t := TrimStart(x);
      if t == [] {
        CollapseTrailingBlank(x, b);
      } else {
        CollapseTrailing(t, b);
        CollapseTrailingRun(x, b);
      }
    }
  }

  lemma CollapseTrailingWord(x: string, b: string)
    requires b != [] && x != [] && !IsWhitespace(x[0])
    requires CollapseWhitespace(x[1..] + b) == CollapseWhitespace(x[1..]) + Tail(x[1..])
    ensures CollapseWhitespace(x + b) == CollapseWhitespace(x) + Tail(x)
  {
    var y := x[1..];
    assert (x + b)[0] == x[0] && (x + b)[1..] == y + b;
    CollapseUnfoldNonWhitespace(x + b);
    CollapseUnfoldNonWhitespace(x);
    TailOfRest(x);
    calc {
      CollapseWhitespace(x + b);
      [x[0]] + CollapseWhitespace(y + b);
      [x[0]] + (CollapseWhitespace(y) + Tail(y));
      { ConsAssociates(x[0], CollapseWhitespace(y), Tail(y)); }
      ([x[0]] + CollapseWhitespace(y)) + Tail(y);
      CollapseWhitespace(x) + Tail(x);
    }
  }

  lemma ConsAssociates(c: char, u: string, v: string)
    ensures [c] + (u + v) == ([c] + u) + v
  {
  }

  lemma CollapseUnfoldNonWhitespace(s: string)
    requires s != [] && !IsWhitespace(s[0])
    ensures CollapseWhitespace(s) == [s[0]] + CollapseWhitespace(s[1..])
  {
  }

  lemma TailOfRest(x: string)
    requires x != [] && !IsWhitespace(x[0])
    ensures Tail(x[1..]) == Tail(x)
  {
    var y := x[1..];
    if y != [] {
      assert y[|y| - 1] == x[|x| - 1];
    }
  }

  lemma CollapseTrailingBlank(x: string, b: string)
    requires b != [] && AllWhitespace(b) && x != [] && IsWhitespace(x[0]) && TrimStart(x) == []
    ensures CollapseWhitespace(x + b) == CollapseWhitespace(x) + Tail(x)
  {
    TrimStartConcat(x, b);
    assert (x + b)[0] == x[0];
    assert TrimStart(b) == [];
    assert IsWhitespace(x[|x| - 1]);
  }

  lemma CollapseTrailingRun(x: string, b: string)
    requires b != [] && AllWhitespace(b) && x != [] && IsWhitespace(x[0]) && TrimStart(x) != []
    requires CollapseWhitespace(TrimStart(x) + b)
          == CollapseWhitespace(TrimStart(x)) + Tail(TrimStart(x))
    ensures CollapseWhitespace(x + b) == CollapseWhitespace(x) + Tail(x)
  {
    var t := TrimStart(x);
    TrimStartConcat(x, b);
    assert (x + b)[0] == x[0];
    CollapseUnfoldWhitespace(x + b);
    CollapseUnfoldWhitespace(x);
    assert Tail(t) == Tail(x) by {
      assert t[|t| - 1] == x[|x| - 1];
    }
    ConsAssociates(' ', CollapseWhitespace(t), Tail(t));
  }

  lemma CollapseUnfoldWhitespace(s: string)
    requires s != [] && IsWhitespace(s[0])
    ensures CollapseWhitespace(s) == [' '] + CollapseWhitespace(TrimStart(s))
  {
  }

  /** The space a trailing whitespace run adds after `x`. */
  function Tail(x: string): string {
    if x != [] && IsWhitespace(x[|x| - 1]) then [] else [' ']
  }

  lemma TrimLeadingSpace(y: string)
    ensures Trim([' '] + y) == Trim(y)
  {
    var sy := [' '] + y;
    assert sy[1..] == y;
    assert LeadingWhitespace(sy) == 1 + LeadingWhitespace(y);
    assert sy[1 + LeadingWhitespace(y)..] == y[LeadingWhitespace(y)..];
  }

  lemma TrimTrailingSpace(y: string)
    ensures Trim(y + [' ']) == Trim(y)
  {
    TrimStartConcat(y, [' ']);
    var z := TrimStart(y);
    if z == [] {
      assert TrimStart([' ']) == [];
    } else {
      TrimEndSpace(z);
    }
  }

  lemma TrimEndSpace(z: string)
    ensures TrimEnd(z + [' ']) == TrimEnd(z)
  {
    var zs := z + [' '];
    assert zs[..|z|] == z;
    assert TrailingWhitespace(zs) == 1 + TrailingWhitespace(z);
    assert zs[..|zs| - TrailingWhitespace(zs)] == z[..|z| - TrailingWhitespace(z)];
  }

  lemma TrimCollapseToTrimStart(x: string)
    ensures Trim(CollapseWhitespace(x)) == Trim(CollapseWhitespace(TrimStart(x)))
  {
    if x != [] && IsWhitespace(x[0]) {
      TrimLeadingSpace(CollapseWhitespace(TrimStart(x)));
    }
  }

  /** Whitespace runs around the text vanish under collapse-then-trim. */
  lemma TrimCollapseOuter(a: string, x: string, b: string)
    requires AllWhitespace(a) && AllWhitespace(b)
    ensures Trim(CollapseWhitespace(a + x + b)) == Trim(CollapseWhitespace(x))
  {
    var y := x + b;
    assert a + x + b == a + y;
    if a != [] {
      CollapseLeading(a, y);
      TrimLeadingSpace(CollapseWhitespace(TrimStart(y)));
      TrimCollapseToTrimStart(y);
    } else {
      assert a + y == y;
    }
    if b != [] {
      CollapseTrailing(x, b);
      if Tail(x) == [' '] {
        TrimTrailingSpace(CollapseWhitespace(x));
      } else {
        assert CollapseWhitespace(x) + [] == CollapseWhitespace(x);
      }
    } else {
      assert y == x;
    }
  }

  lemma LowerCaseOuter(a: string, x: string, b: string)
    requires AllWhitespace(a) && AllWhitespace(b)
    ensures LowerCase(a + x + b) == a + LowerCase(x) + b
  {
  }

  lemma StripPunctuationOuter(a: string, y: string, b: string)
    requires AllWhitespace(a) && AllWhitespace(b)
    ensures StripPunctuation(a + y + b) == a + StripPunctuation(y) + b
  {
    StripPunctuationConcat(a + y, b);
    StripPunctuationConcat(a, y);
    WhitespaceIsNotPunctuation(a);
    WhitespaceIsNotPunctuation(b);
    StripPunctuationFixes(a);
    StripPunctuationFixes(b);
  }

  lemma WhitespaceIsNotPunctuation(a: string)
    requires AllWhitespace(a)
    ensures NoPunctuation(a)
  {
    forall i | 0 <= i < |a| ensures !IsPunctuation(a[i]) {
      var c := a[i];
      assert IsWhitespace(c);
    }
  }

  /** The rewrite stages do not see whitespace runs around the text. */
  lemma RewriteIgnoresOuterWhitespace(a: string, x: string, b: string)
    requires AllWhitespace(a) && AllWhitespace(b)
    ensures Rewrite(a + x + b) == Rewrite(x)
  {
    LowerCaseOuter(a, x, b);
    var lx := LowerCase(x);
    StripPunctuationOuter(a, lx, b);
    TrimCollapseOuter(a, StripPunctuation(lx), b);
  }

  /** The first trim of `normalize` is redundant: the final collapse-and-trim
      already removes the outer whitespace. */
  lemma NormalizeIsRewrite(s: string)
    ensures Normalize(s) == Rewrite(s)
  {
    var ts := TrimStart(s);
    var m := TrimEnd(ts);
    var a := s[..|s| - |ts|];
    var b := ts[|m|..];
    assert AllWhitespace(a) by {
      assert |a| == LeadingWhitespace(s);
    }
    assert AllWhitespace(b) by {
      assert |b| == TrailingWhitespace(ts);
      forall i | 0 <= i < |b| ensures IsWhitespace(b[i]) {
        assert b[i] == ts[|m| + i];
      }
    }
    assert ts == m + b;
    assert s == a + m + b;
    RewriteIgnoresOuterWhitespace(a, m, b);
    NormalizeStages(s);
  }

  /** Whitespace around the answer does not change its key. */
  lemma NormalizeIgnoresOuterWhitespace(a: string, s: string, b: string)
    requires AllWhitespace(a) && AllWhitespace(b)
    ensures Normalize(a + s + b) == Normalize(s)
  {
    NormalizeIsRewrite(a + s + b);
    NormalizeIsRewrite(s);
    RewriteIgnoresOuterWhitespace(a, s, b);
  }

  lemma {:induction false} LowerCaseStripCommute(s: string)
    ensures LowerCase(StripPunctuation(s)) == StripPunctuation(LowerCase(s))
  {
    if s != [] {
      var ls := LowerCase(s);
      LowerCaseDrop(s, 1);
      assert ls[0] == ToLower(s[0]) && ls[1..] == LowerCase(s[1..]);
      var head := if IsPunctuation(s[0]) then [] else [s[0]];
      assert StripPunctuation(s) == head + StripPunctuation(s[1..]);
      LowerCaseConcat(head, StripPunctuation(s[1..]));
      LowerCaseStripCommute(s[1..]);
      assert LowerCase(head) == if IsPunctuation(ls[0]) then [] else [ls[0]];
    }
  }

  /** Deleting the punctuation beforehand does not change the key. */
  lemma NormalizeIgnoresPunctuation(s: string)
    ensures Normalize(StripPunctuation(s)) == Normalize(s)
  {
    NormalizeIsRewrite(s);
    NormalizeIsRewrite(StripPunctuation(s));
    LowerCaseStripCommute(s);
    StripPunctuationFixes(StripPunctuation(LowerCase(s)));
  }
}
