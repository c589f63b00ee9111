/** The HTML escaper `escapeHtml` of script.js, and the entity decoding that
    undoes it. */
module Html {
  import opened Wrappers

  /** The characters that must not reach the page as they are. */
  predicate IsMarkup(c: char) {
    c == '<' || c == '>' || c == '"' || c == '\'' || c == '`'
  }

  /** The replacement for one character: the six characters `& < > " ' \``
      become their entities, everything else stays. */
  function Entity(c: char): (r: string)
    ensures (IsMarkup(c) || c == '&') <==> r != [c]
    ensures (IsMarkup(c) || c == '&') ==> StartsWithEntity(r)
    ensures forall i :: 0 <= i < |r| ==> !IsMarkup(r[i])
  {
    match c
    case '&' => "&amp;"
    case '<' => "&lt;"
    case '>' => "&gt;"
    case '"' => "&quot;"
    case '\'' => "&#39;"
    case '`' => "&#96;"
    case _ => [c]
  }

  predicate IsPrefix(p: string, t: string) {
    |p| <= |t| && t[..|p|] == p
  }

  /** `t` begins with one of the six entities. */
  predicate StartsWithEntity(t: string) {
    IsPrefix("&amp;", t) || IsPrefix("&lt;", t) || IsPrefix("&gt;", t)
    || IsPrefix("&quot;", t) || IsPrefix("&#39;", t) || IsPrefix("&#96;", t)
  }

  /** `String(s).replace(/[&<>"'`]/g, ...)`: every character replaced by its entity. */
  function Escape(s: string): (r: string)
    ensures forall i :: 0 <= i < |r| ==> !IsMarkup(r[i])
  {
    if s == [] then [] else Entity(s[0]) + Escape(s[1..])
  }

  /** `escapeHtml`: falsy input (`null`, `undefined`, the empty string) gives
      the empty string; otherwise the escaped text, which decodes back to the input. */
  function EscapeHtml(v: Option<string>): (r: string)
    ensures v.None? || v == Some("") ==> r == ""
    ensures forall i :: 0 <= i < |r| ==> !IsMarkup(r[i])
    ensures Unescape(r) == if v.Some? then v.value else ""
  {
    match v
    case None => ""
    case Some(s) =>
      EscapeRoundTrip(s);
      if s == "" then "" else Escape(s)
  }

  /** Decodes the six entities, scanning from the left; any other character,
      including an `&` that starts no entity, is kept. */
  function Unescape(t: string): string
    decreases |t|
  {
    if t == [] then []
    else if IsPrefix("&amp;", t) then "&" + Unescape(t[5..])
    else if IsPrefix("&lt;", t) then "<" + Unescape(t[4..])
    else if IsPrefix("&gt;", t) then ">" + Unescape(t[4..])
    else if IsPrefix("&quot;", t) then "\"" + Unescape(t[6..])
    else if IsPrefix("&#39;", t) then "'" + Unescape(t[5..])
    else if IsPrefix("&#96;", t) then "`" + Unescape(t[5..])
    else [t[0]] + Unescape(t[1..])
  }

  lemma PrefixDiffers(p: string, t: string, k: nat)
    requires k < |p| && k < |t| && t[k] != p[k]
    ensures !IsPrefix(p, t)
  {
    if |p| <= |t| {
      assert t[..|p|][k] == t[k];
    }
  }

  lemma PrefixOfConcat(p: string, rest: string)
    ensures IsPrefix(p, p + rest) && (p + rest)[|p|..] == rest
  {
    assert (p + rest)[..|p|] == p;
  }

  /** Decoding an entity (or a plain character) in front of `rest`. */
  lemma UnescapeEntity(c: char, rest: string)
    ensures Unescape(Entity(c) + rest) == [c] + Unescape(rest)
  {
    var e := Entity(c);
    var t := e + rest;
    PrefixOfConcat(e, rest);
    assert t[0] == e[0];
    if c == '&' {
    } else if c == '<' {
      assert t[1] == 'l';
      PrefixDiffers("&amp;", t, 1);
    } else if c == '>' {
      assert t[1] == 'g';
      PrefixDiffers("&amp;", t, 1);
      PrefixDiffers("&lt;", t, 1);
    } else if c == '"' {
      assert t[1] == 'q';
      PrefixDiffers("&amp;", t, 1);
      PrefixDiffers("&lt;", t, 1);
      PrefixDiffers("&gt;", t, 1);
    } else if c == '\'' {
      assert t[1] == '#';
      PrefixDiffers("&amp;", t, 1);
      PrefixDiffers("&lt;", t, 1);
      PrefixDiffers("&gt;", t, 1);
      PrefixDiffers("&quot;", t, 1);
    } else if c == '`' {
      assert t[1] == '#' && t[2] == '9';
      PrefixDiffers("&amp;", t, 1);
      PrefixDiffers("&lt;", t, 1);
      PrefixDiffers("&gt;", t, 1);
      PrefixDiffers("&quot;", t, 1);
      PrefixDiffers("&#39;", t, 2);
    } else {
      assert e == [c] && t[0] == c && t[1..] == rest;
      PrefixDiffers("&amp;", t, 0);
      PrefixDiffers("&lt;", t, 0);
      PrefixDiffers("&gt;", t, 0);
      PrefixDiffers("&quot;", t, 0);
      PrefixDiffers("&#39;", t, 0);
      PrefixDiffers("&#96;", t, 0);
    }
  }

  /** Decoding recovers the input exactly. */
  lemma {:induction false} EscapeRoundTrip(s: string)
    ensures Unescape(Escape(s)) == s
  {
    if s != [] {
      UnescapeEntity(s[0], Escape(s[1..]));
      EscapeRoundTrip(s[1..]);
    }
  }

  /** Different texts never escape to the same markup. */
  lemma EscapeInjective(a: string, b: string)
    requires Escape(a) == Escape(b)
    ensures a == b
  {
    EscapeRoundTrip(a);
    EscapeRoundTrip(b);
  }

  /** Every `&` in the output begins one of the six entities. */
  lemma {:induction false} EscapeAmpersands(s: string)
    ensures forall i :: 0 <= i < |Escape(s)| && Escape(s)[i] == '&' ==> StartsWithEntity(Escape(s)[i..])
  {
    if s != [] {
      var e, rest := Entity(s[0]), Escape(s[1..]);
      var r := Escape(s);
      assert r == e + rest;
      EscapeAmpersands(s[1..]);
      forall i | 0 <= i < |r| && r[i] == '&' ensures StartsWithEntity(r[i..]) {
        if i < |e| {
          assert e[i] == '&';
          assert i == 0 && r[..|e|] == e;
        } else {
          assert r[i..] == rest[i - |e|..];
          assert rest[i - |e|] == '&';
        }
      }
    }
  }
}
