/** The answer matchers of script.js: membership of the normalized answer among
    the normalized variants (open cloze, word formation), and the word-count gate
    with the lenient either-way substring rule (sentence transformation). */
module Matching {
  import opened TextKey

  /** `list.map(x => normalize(x))`. */
  function NormalizeAll(xs: seq<string>): seq<string> {
    seq(|xs|, k requires 0 <= k < |xs| => Normalize(xs[k]))
  }

  // ---------------------------------------------------------------------------
  // Open cloze and word formation
  // ---------------------------------------------------------------------------

  /** The answer is right when its key equals the key of some accepted variant. */
  predicate Accepts(variants: seq<string>, raw: string) {
    exists k :: 0 <= k < |variants| && Normalize(variants[k]) == Normalize(raw)
  }

  /** `valids.includes(user)` decides `Accepts`. */
  lemma AcceptsIsMembership(variants: seq<string>, raw: string)
    ensures Accepts(variants, raw) <==> Normalize(raw) in NormalizeAll(variants)
  {
    var valids := NormalizeAll(variants);
    var user := Normalize(raw);
    if user in valids {
      var k :| 0 <= k < |valids| && valids[k] == user;
      assert Normalize(variants[k]) == user;
    }
    if Accepts(variants, raw) {
      var k :| 0 <= k < |variants| && Normalize(variants[k]) == user;
      assert valids[k] == user;
    }
  }

  /** Case and punctuation do not change the verdict. */
  lemma AcceptsIgnoresCaseAndPunctuation(variants: seq<string>, raw: string)
    ensures Accepts(variants, LowerCase(raw)) == Accepts(variants, raw)
    ensures Accepts(variants, StripPunctuation(raw)) == Accepts(variants, raw)
  {
    NormalizeIgnoresCase(raw);
    NormalizeIgnoresPunctuation(raw);
  }

  // ---------------------------------------------------------------------------
  // Words: `user.split(' ').filter(Boolean)`
  // ---------------------------------------------------------------------------

  /** `s.split(' ')`: the pieces between the spaces, at least one. */
  function Split(s: string): (r: seq<string>)
    ensures |r| >= 1
  {
    if s == [] then [[]]
    else
      var rest := Split(s[1..]);
      if s[0] == ' ' then [[]] + rest else [[s[0]] + rest[0]] + rest[1..]
  }

  /** `xs.join(sep)`. */
  function Join(xs: seq<string>, sep: string): string {
    if xs == [] then []
    else if |xs| == 1 then xs[0]
    else xs[0] + sep + Join(xs[1..], sep)
  }

  /** Every piece appears in the joined text: the `correct` column of a record
      lists each accepted variant. */
  lemma {:induction false} JoinShowsEveryPiece(xs: seq<string>, sep: string)
    ensures forall k :: 0 <= k < |xs| ==> Includes(Join(xs, sep), xs[k])
  {
    if |xs| == 1 {
      assert OccursAt(Join(xs, sep), xs[0], 0);
      IncludesOccurs(Join(xs, sep), xs[0]);
    } else if |xs| > 1 {
      var rest := xs[1..];
      JoinShowsEveryPiece(rest, sep);
      var r := Join(xs, sep);
      var offset := |xs[0]| + |sep|;
      assert r == xs[0] + sep + Join(rest, sep);
      forall k | 0 <= k < |xs| ensures Includes(r, xs[k]) {
        if k == 0 {
          assert r[..|xs[0]|] == xs[0];
          assert OccursAt(r, xs[0], 0);
        } else {
          assert xs[k] == rest[k - 1];
          IncludesOccurs(Join(rest, sep), rest[k - 1]);
          var j :| OccursAt(Join(rest, sep), rest[k - 1], j);
          assert r[offset + j..offset + j + |xs[k]|] == Join(rest, sep)[j..j + |xs[k]|];
          assert OccursAt(r, xs[k], offset + j);
        }
        IncludesOccurs(r, xs[k]);
      }
    }
  }

  /** Splitting loses nothing: joining the pieces with spaces gives back the text. */
  lemma {:induction false} JoinSplit(s: string)
    ensures Join(Split(s), " ") == s
  {
    if s != [] {
      var rest := Split(s[1..]);
      JoinSplit(s[1..]);
      if s[0] == ' ' {
        assert ([[]] + rest)[1..] == rest;
      } else if |rest| > 1 {
        var r := Split(s);
        assert r[0] == [s[0]] + rest[0] && r[1..] == rest[1..];
        assert Join(rest, " ") == rest[0] + " " + Join(rest[1..], " ");
      }
    }
  }

  /** `.filter(Boolean)`: the non-empty pieces, in order. */
  function NonEmptyPieces(xs: seq<string>): (r: seq<string>)
    ensures |r| <= |xs|
  {
    if xs == [] then []
    else (if xs[0] == [] then [] else [xs[0]]) + NonEmptyPieces(xs[1..])
  }

  /** No piece of a split contains the separator. */
  lemma {:induction false} SplitPiecesHaveNoSpace(s: string)
    ensures forall k :: 0 <= k < |Split(s)| ==> ' ' !in Split(s)[k]
  {
    if s != [] {
      SplitPiecesHaveNoSpace(s[1..]);
    }
  }

  /** The filter keeps exactly the non-empty pieces. */
  lemma {:induction false} NonEmptyPiecesAreNonEmpty(xs: seq<string>)
    ensures forall k :: 0 <= k < |NonEmptyPieces(xs)| ==> NonEmptyPieces(xs)[k] != []
    ensures (forall k :: 0 <= k < |xs| ==> xs[k] != []) ==> NonEmptyPieces(xs) == xs
  {
    if xs != [] {
      NonEmptyPiecesAreNonEmpty(xs[1..]);
    }
  }

  function Words(s: string): seq<string> {
    NonEmptyPieces(Split(s))
  }

  /** Text with single spaces between non-space runs and none at either end. */
  ghost predicate SpaceSeparated(s: string) {
    s != [] && s[0] != ' ' && s[|s| - 1] != ' '
    && forall i, j :: 0 <= i < j < |s| && j == i + 1 ==> s[i] != ' ' || s[j] != ' '
  }

  lemma {:induction false} SplitPiecesNonEmpty(s: string)
    requires SpaceSeparated(s)
    ensures forall k :: 0 <= k < |Split(s)| ==> Split(s)[k] != []
  {
    var t := s[1..];
    var rest := Split(t);
    if t != [] {
      if t[0] == ' ' {
        var u := t[1..];
        assert u != [] by {
          assert |s| >= 2 && s[1] == ' ';
        }
        assert SpaceSeparated(u) by {
          assert u[0] == s[2] && u[|u| - 1] == s[|s| - 1];
          forall i, j | 0 <= i < j < |u| && j == i + 1 ensures u[i] != ' ' || u[j] != ' ' {
            assert u[i] == s[i + 2] && u[j] == s[j + 2];
          }
        }
        SplitPiecesNonEmpty(u);
        assert rest == [[]] + Split(u);
      } else {
        assert SpaceSeparated(t) by {
          assert t[|t| - 1] == s[|s| - 1];
          forall i, j | 0 <= i < j < |t| && j == i + 1 ensures t[i] != ' ' || t[j] != ' ' {
            assert t[i] == s[i + 1] && t[j] == s[j + 1];
          }
        }
        SplitPiecesNonEmpty(t);
      }
    }
  }

  /** On a non-empty key the empty-piece filter removes nothing: the words are
      exactly the pieces between single spaces. */
  lemma WordsOfKey(raw: string)
    requires Normalize(raw) != []
    ensures Words(Normalize(raw)) == Split(Normalize(raw))
  {
    var s := Normalize(raw);
    assert SpaceSeparated(s) by {
      assert s[0] != ' ' && s[|s| - 1] != ' ';
      forall i, j | 0 <= i < j < |s| && j == i + 1 ensures s[i] != ' ' || s[j] != ' ' {
        assert !IsWhitespace(s[i]) || !IsWhitespace(s[j]);
      }
    }
    SplitPiecesNonEmpty(s);
    NonEmptyPiecesAreNonEmpty(Split(s));
  }

  /** The empty answer has no words. */
  lemma NoWordsInEmptyKey()
    ensures Words(Normalize("")) == []
  {
    assert Split("") == [[]];
  }

  // ---------------------------------------------------------------------------
  // Sentence transformation
  // ---------------------------------------------------------------------------

  /** `needle` occurs in `hay` starting at position `i`. */
  predicate OccursAt(hay: string, needle: string, i: int) {
    0 <= i <= |hay| - |needle| && hay[i..i + |needle|] == needle
  }

  /** `hay.includes(needle)`. */
  function Includes(hay: string, needle: string): bool {
    if |needle| > |hay| then false
    else if hay[..|needle|] == needle then true
    else if |needle| == |hay| then false
    else Includes(hay[1..], needle)
  }

  /** `Includes` finds exactly the occurrences. */
  lemma {:induction false} IncludesOccurs(hay: string, needle: string)
    ensures Includes(hay, needle) <==> exists i :: OccursAt(hay, needle, i)
  {
    IncludesShift(hay, needle);
    if |needle| < |hay| && hay[..|needle|] != needle {
      IncludesOccurs(hay[1..], needle);
    }
  }

  /** An occurrence is at the front or in the rest. */
  lemma IncludesShift(hay: string, needle: string)
    ensures (exists i :: OccursAt(hay, needle, i))
        <==> |needle| <= |hay|
             && (hay[..|needle|] == needle
                 || (|needle| < |hay| && exists i :: OccursAt(hay[1..], needle, i)))
  {
    var n := |needle|;
    if exists i :: OccursAt(hay, needle, i) {
      var i :| OccursAt(hay, needle, i);
      if i == 0 {
        assert hay[..n] == hay[0..n];
      } else {
        OccursLater(hay, needle, i - 1);
      }
    }
    if n < |hay| && exists i :: OccursAt(hay[1..], needle, i) {
      var i :| OccursAt(hay[1..], needle, i);
      OccursLater(hay, needle, i);
    }
    if n <= |hay| && hay[..n] == needle {
      assert hay[0..n] == hay[..n];
      assert OccursAt(hay, needle, 0);
    }
  }

  lemma OccursLater(hay: string, needle: string, i: int)
    requires 0 <= i && i + 1 + |needle| <= |hay|
    ensures OccursAt(hay, needle, i + 1) <==> OccursAt(hay[1..], needle, i)
  {
    assert hay[i + 1..i + 1 + |needle|] == hay[1..][i..i + |needle|];
  }

  /** `v && (user === v || user.includes(v) || v.includes(user))`. */
  predicate KeyMatches(user: string, v: string) {
    v != [] && (user == v || Includes(user, v) || Includes(v, user))
  }

  /** `valids.some(v => ...)`. */
  function AnyKeyMatches(user: string, valids: seq<string>): bool {
    if valids == [] then false
    else KeyMatches(user, valids[0]) || AnyKeyMatches(user, valids[1..])
  }

  /** `some` finds a matching key exactly when there is one. */
  lemma {:induction false} AnyKeyMatchesSome(user: string, valids: seq<string>)
    ensures AnyKeyMatches(user, valids) <==> exists k :: 0 <= k < |valids| && KeyMatches(user, valids[k])
  {
    if valids != [] {
      AnyKeyMatchesSome(user, valids[1..]);
      if exists k :: 0 <= k < |valids| && KeyMatches(user, valids[k]) {
        var k :| 0 <= k < |valids| && KeyMatches(user, valids[k]);
        if k > 0 {
          assert valids[1..][k - 1] == valids[k];
        }
      }
      if exists k :: 0 <= k < |valids| - 1 && KeyMatches(user, valids[1..][k]) {
        var k :| 0 <= k < |valids| - 1 && KeyMatches(user, valids[1..][k]);
        assert valids[k + 1] == valids[1..][k];
      }
    }
  }

  /** The sentence-transformation verdict: the key of the answer has 3 to 5 words,
      and some non-empty key equals it, occurs in it, or contains it. */
  predicate TransformAccepts(keys: seq<string>, raw: string) {
    var user := Normalize(raw);
    3 <= |Words(user)| <= 5 && exists k :: 0 <= k < |keys| && KeyMatches(user, Normalize(keys[k]))
  }

  /** The word-count gate overrides every substring match. */
  lemma WordGate(keys: seq<string>, raw: string)
    requires |Words(Normalize(raw))| < 3 || |Words(Normalize(raw))| > 5
    ensures !TransformAccepts(keys, raw)
  {
  }

  /** In particular the empty answer is never right, whatever the keys. */
  lemma EmptyTransformRejected(keys: seq<string>)
    ensures !TransformAccepts(keys, "")
  {
    NoWordsInEmptyKey();
  }

  /** The leniency: an answer of 3 to 5 words that merely contains an accepted
      key (or is contained in one) is accepted. */
  lemma EmbeddedKeyAccepted(keys: seq<string>, raw: string, k: nat)
    requires k < |keys| && Normalize(keys[k]) != []
    requires 3 <= |Words(Normalize(raw))| <= 5
    requires Includes(Normalize(raw), Normalize(keys[k])) || Includes(Normalize(keys[k]), Normalize(raw))
    ensures TransformAccepts(keys, raw)
  {
    assert KeyMatches(Normalize(raw), Normalize(keys[k]));
  }
}
