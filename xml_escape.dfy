/**
 * `escapeXml`: the five characters that have predefined entities in section 4.6
 * of XML 1.0 are replaced by those entities, `&` first.  The function is modelled
 * as the chain of five global single-character replacements it is written as,
 * and then proved equal to a per-character substitution, from which the
 * properties (no markup left, every `&` starts an entity, round trip through a
 * decoder, identity on plain text) follow.
 */
module XmlEscape {
  import opened JsValues

  /** The characters that may not appear literally in escaped text. */
  predicate IsReserved(c: char) {
    c == '<' || c == '>' || c == '"' || c == '\''
  }

  /** The five characters `escapeXml` rewrites. */
  predicate IsSpecial(c: char) {
    c == '&' || IsReserved(c)
  }

  predicate StartsWith(s: string, prefix: string) {
    |prefix| <= |s| && s[..|prefix|] == prefix
  }

  /** `s.replace(/c/g, rep)`: every occurrence of the character `c` replaced by `rep`. */
  function ReplaceAll(s: string, c: char, rep: string): (r: string)
    ensures c !in rep ==> c !in r
    ensures forall d :: d != c && d !in rep ==> (d in r <==> d in s)
  {
    if s == [] then []
    else (if s[0] == c then rep else [s[0]]) + ReplaceAll(s[1..], c, rep)
  }

  /** `escapeXml` on a string: the source's chain of five replacements, `&` first. */
  function Escape(s: string): string {
    ReplaceAll(ReplaceAll(ReplaceAll(ReplaceAll(ReplaceAll(
      s, '&', "&amp;"), '<', "&lt;"), '>', "&gt;"), '"', "&quot;"), '\'', "&apos;")
  }

  /** `escapeXml(value)`: `String(value ?? "")`, then escaped. */
  function EscapeXml(v: Value): (r: string)
    ensures IsNullish(v) ==> r == ""
  {
    Escape(ToText(v))
  }

  /** The text one character becomes. */
  function EntityFor(c: char): string {
    if c == '&' then "&amp;"
    else if c == '<' then "&lt;"
    else if c == '>' then "&gt;"
    else if c == '"' then "&quot;"
    else if c == '\'' then "&apos;"
    else [c]
  }

  /** Reference definition: every character replaced independently by its entity. */
  function EscapeEach(s: string): string {
    if s == [] then [] else EntityFor(s[0]) + EscapeEach(s[1..])
  }

  lemma {:induction false} ReplaceAllConcat(a: string, b: string, c: char, rep: string)
    ensures ReplaceAll(a + b, c, rep) == ReplaceAll(a, c, rep) + ReplaceAll(b, c, rep)
  {
    if a == [] {
      assert a + b == b;
    } else {
      assert (a + b)[1..] == a[1..] + b;
      ReplaceAllConcat(a[1..], b, c, rep);
    }
  }

  lemma ReplaceAllAbsent(s: string, c: char, rep: string)
    requires c !in s
    ensures ReplaceAll(s, c, rep) == s
  {
  }

  lemma ReplaceAllSingle(c: char, d: char, rep: string)
    ensures ReplaceAll([c], d, rep) == if c == d then rep else [c]
  {
    assert [c][1..] == [];
  }

  lemma EscapeOne(c: char)
    ensures Escape([c]) == EntityFor(c)
  {
    ReplaceAllSingle(c, '&', "&amp;");
    if c == '&' {
      AfterFirstReplacement("&amp;");
    } else if c == '<' {
      ReplaceAllSingle(c, '<', "&lt;");
      AfterFirstReplacement("&lt;");
    } else if c == '>' {
      ReplaceAllAbsent([c], '<', "&lt;");
      ReplaceAllSingle(c, '>', "&gt;");
      AfterFirstReplacement("&gt;");
    } else if c == '"' {
      ReplaceAllAbsent([c], '<', "&lt;");
      ReplaceAllAbsent([c], '>', "&gt;");
      ReplaceAllSingle(c, '"', "&quot;");
      AfterFirstReplacement("&quot;");
    } else if c == '\'' {
      ReplaceAllAbsent([c], '<', "&lt;");
      ReplaceAllAbsent([c], '>', "&gt;");
      ReplaceAllAbsent([c], '"', "&quot;");
      ReplaceAllSingle(c, '\'', "&apos;");
    } else {
      AfterFirstReplacement([c]);
    }
  }

  /** Text without reserved characters, such as an entity just produced, passes the later replacements unchanged. */
  lemma AfterFirstReplacement(e: string)
    requires forall d :: d in e ==> !IsReserved(d)
    ensures ReplaceAll(e, '<', "&lt;") == e
    ensures ReplaceAll(e, '>', "&gt;") == e
    ensures ReplaceAll(e, '"', "&quot;") == e
    ensures ReplaceAll(e, '\'', "&apos;") == e
  {
    ReplaceAllAbsent(e, '<', "&lt;");
    ReplaceAllAbsent(e, '>', "&gt;");
    ReplaceAllAbsent(e, '"', "&quot;");
    ReplaceAllAbsent(e, '\'', "&apos;");
  }

  /** Replacing `&` first makes the chain of replacements a per-character substitution:
      no entity produced by a later replacement is rewritten again. */
  lemma {:induction false} EscapeIsPerCharacter(s: string)
    ensures Escape(s) == EscapeEach(s)
  {
    if s != [] {
      var c, t := s[0], s[1..];
      assert s == [c] + t;
      ReplaceAllConcat([c], t, '&', "&amp;");
      ReplaceAllConcat(ReplaceAll([c], '&', "&amp;"), ReplaceAll(t, '&', "&amp;"), '<', "&lt;");
      var a2, b2 := ReplaceAll(ReplaceAll([c], '&', "&amp;"), '<', "&lt;"),
                    ReplaceAll(ReplaceAll(t, '&', "&amp;"), '<', "&lt;");
      ReplaceAllConcat(a2, b2, '>', "&gt;");
      var a3, b3 := ReplaceAll(a2, '>', "&gt;"), ReplaceAll(b2, '>', "&gt;");
      ReplaceAllConcat(a3, b3, '"', "&quot;");
      var a4, b4 := ReplaceAll(a3, '"', "&quot;"), ReplaceAll(b3, '"', "&quot;");
      ReplaceAllConcat(a4, b4, '\'', "&apos;");
      EscapeOne(c);
      EscapeIsPerCharacter(t);
    }
  }

  /** An entity reference begins `t`. */
  predicate IsEntityStart(t: string) {
    StartsWith(t, "&amp;") || StartsWith(t, "&lt;") || StartsWith(t, "&gt;")
    || StartsWith(t, "&quot;") || StartsWith(t, "&apos;")
  }

  /** Escaped text: no reserved character, and every `&` begins an entity reference. */
  predicate IsEscapedText(r: string) {
    && (forall i :: 0 <= i < |r| ==> !IsReserved(r[i]))
    && (forall i :: 0 <= i < |r| && r[i] == '&' ==> IsEntityStart(r[i..]))
  }

  /** The decoder an XML reader applies to character data: a single left-to-right
      pass that resolves the five predefined entity references. */
  function Unescape(r: string): string
    decreases |r|
  {
    if r == [] then []
    else if StartsWith(r, "&amp;") then "&" + Unescape(r[5..])
    else if StartsWith(r, "&lt;") then "<" + Unescape(r[4..])
    else if StartsWith(r, "&gt;") then ">" + Unescape(r[4..])
    else if StartsWith(r, "&quot;") then "\"" + Unescape(r[6..])
    else if StartsWith(r, "&apos;") then "'" + Unescape(r[6..])
    else [r[0]] + Unescape(r[1..])
  }

  lemma StartsWithConcat(e: string, rest: string)
    ensures StartsWith(e + rest, e) && (e + rest)[|e|..] == rest
  {
    assert (e + rest)[..|e|] == e;
  }

  lemma DiffersAt(s: string, p: string, j: nat)
    requires j < |p| && j < |s| && s[j] != p[j]
    ensures !StartsWith(s, p)
  {
    if |p| <= |s| {
      assert s[..|p|][j] == s[j];
    }
  }

  /** Two different entities: neither text starts with the other. */
  lemma EntitiesDiffer(c: char, d: char, rest: string)
    requires IsSpecial(c) && IsSpecial(d) && c != d
    ensures !StartsWith(EntityFor(c) + rest, EntityFor(d))
  {
    var e, p := EntityFor(c), EntityFor(d);
    var j := if (c == '&' && d == '\'') || (c == '\'' && d == '&') then 2 else 1;
    assert e[j] != p[j];
    assert (e + rest)[j] == e[j];
    DiffersAt(e + rest, p, j);
  }

  /** The text of `c` followed by anything begins with no entity but its own. */
  lemma OnlyOwnEntity(c: char, rest: string)
    ensures c != '&' ==> !StartsWith(EntityFor(c) + rest, "&amp;")
    ensures c != '<' ==> !StartsWith(EntityFor(c) + rest, "&lt;")
    ensures c != '>' ==> !StartsWith(EntityFor(c) + rest, "&gt;")
    ensures c != '"' ==> !StartsWith(EntityFor(c) + rest, "&quot;")
    ensures c != '\'' ==> !StartsWith(EntityFor(c) + rest, "&apos;")
  {
    var r := EntityFor(c) + rest;
    if IsSpecial(c) {
      if c != '&' { EntitiesDiffer(c, '&', rest); }
      if c != '<' { EntitiesDiffer(c, '<', rest); }
      if c != '>' { EntitiesDiffer(c, '>', rest); }
      if c != '"' { EntitiesDiffer(c, '"', rest); }
      if c != '\'' { EntitiesDiffer(c, '\'', rest); }
    } else {
      assert r[0] == c;
      DiffersAt(r, "&amp;", 0);
      DiffersAt(r, "&lt;", 0);
      DiffersAt(r, "&gt;", 0);
      DiffersAt(r, "&quot;", 0);
      DiffersAt(r, "&apos;", 0);
    }
  }

  lemma UnescapeStep(c: char, rest: string)
    ensures Unescape(EntityFor(c) + rest) == [c] + Unescape(rest)
  {
    var e := EntityFor(c);
    StartsWithConcat(e, rest);
    OnlyOwnEntity(c, rest);
    if !IsSpecial(c) {
      assert (e + rest)[1..] == rest;
    }
  }

  /** Decoding undoes escaping: `&` is replaced first, so no entity is escaped twice. */
  lemma {:induction false} EscapeRoundTrip(s: string)
    ensures Unescape(Escape(s)) == s
  {
    EscapeIsPerCharacter(s);
    EscapeEachRoundTrip(s);
  }

  lemma {:induction false} EscapeEachRoundTrip(s: string)
    ensures Unescape(EscapeEach(s)) == s
  {
    if s != [] {
      UnescapeStep(s[0], EscapeEach(s[1..]));
      EscapeEachRoundTrip(s[1..]);
    }
  }

  /** Escaping never produces two equal outputs from different inputs. */
  lemma EscapeInjective(s: string, t: string)
    requires Escape(s) == Escape(t)
    ensures s == t
  {
    EscapeRoundTrip(s);
    EscapeRoundTrip(t);
  }

  lemma EntityForShape(c: char)
    ensures forall i :: 0 <= i < |EntityFor(c)| ==> !IsReserved(EntityFor(c)[i])
    ensures forall i :: 0 < i < |EntityFor(c)| ==> EntityFor(c)[i] != '&'
    ensures EntityFor(c)[0] == '&' <==> IsSpecial(c)
  {
  }

  lemma EntityForStartsEntity(c: char, rest: string)
    requires IsSpecial(c)
    ensures IsEntityStart(EntityFor(c) + rest)
  {
    StartsWithConcat(EntityFor(c), rest);
  }

  lemma {:induction false} EscapeEachIsEscaped(s: string)
    ensures IsEscapedText(EscapeEach(s))
  {
    if s != [] {
      var e, rest := EntityFor(s[0]), EscapeEach(s[1..]);
      var r := e + rest;
      EscapeEachIsEscaped(s[1..]);
      EntityForShape(s[0]);
      forall i | 0 <= i < |r| && r[i] == '&'
        ensures IsEntityStart(r[i..])
      {
        if i >= |e| {
          assert r[i..] == rest[i - |e|..];
        } else {
          assert i == 0 && e[0] == '&';
          EntityForStartsEntity(s[0], rest);
          assert r[i..] == r;
        }
      }
    }
  }

  /** The output of `escapeXml` holds no `<`, `>`, `"` or `'`, and every `&` in it
      begins one of the five entity references. */
  lemma {:induction false} EscapeIsEscapedText(s: string)
    ensures IsEscapedText(Escape(s))
  {
    EscapeIsPerCharacter(s);
    EscapeEachIsEscaped(s);
  }

  /** On text with none of the five special characters, `escapeXml` changes nothing. */
  lemma {:induction false} EscapePlainText(s: string)
    requires forall i :: 0 <= i < |s| ==> !IsSpecial(s[i])
    ensures Escape(s) == s
  {
    EscapeIsPerCharacter(s);
    EscapeEachPlain(s);
  }

  lemma {:induction false} EscapeEachPlain(s: string)
    requires forall i :: 0 <= i < |s| ==> !IsSpecial(s[i])
    ensures EscapeEach(s) == s
  {
    if s != [] {
      EscapeEachPlain(s[1..]);
      assert s == [s[0]] + s[1..];
    }
  }
}
