/**
 * Decoding by a chain of global replacements, the mirror of `escapeXml`:
 * `&lt;`, `&gt;`, `&quot;` and `&apos;` first, `&amp;` last.  Because `escapeXml`
 * replaces `&` first, decoding its output this way gives back the input; the
 * proof follows the string through the five stages, one character's text at a time.
 */
module EntityDecoding {
  import opened XmlEscape

  /** `s.replace(/pat/g, rep)` for a literal pattern: occurrences are found left
      to right and do not overlap. */
  function ReplaceText(s: string, pat: string, rep: string): string
    requires pat != []
    decreases |s|
  {
    if s == [] then []
    else if StartsWith(s, pat) then rep + ReplaceText(s[|pat|..], pat, rep)
    else [s[0]] + ReplaceText(s[1..], pat, rep)
  }

  /** The character decoded by stage `k` (1 to 5) of the chain. */
  function StageChar(k: nat): char
    requires 1 <= k <= 5
  {
    if k == 1 then '<' else if k == 2 then '>' else if k == 3 then '"' else if k == 4 then '\'' else '&'
  }

  /** Decoding stage `k`: the entity of `StageChar(k)` replaced by that character. */
  function Stage(s: string, k: nat): string
    requires 1 <= k <= 5
  {
    ReplaceText(s, EntityFor(StageChar(k)), [StageChar(k)])
  }

  /** The five predefined entities decoded, `&amp;` last. */
  function DecodeEntities(r: string): string {
    Stage(Stage(Stage(Stage(Stage(r, 1), 2), 3), 4), 5)
  }

  // ---------------------------------------------------------------------------

  /** The text character `c` stands as after `k` decoding stages. */
  function Partly(c: char, k: nat): string {
    if (c == '<' && k >= 1) || (c == '>' && k >= 2) || (c == '"' && k >= 3)
       || (c == '\'' && k >= 4) || (c == '&' && k >= 5)
    then [c]
    else EntityFor(c)
  }

  /** The escaped text of `s` after `k` decoding stages. */
  function PartlyDecoded(s: string, k: nat): string {
    if s == [] then [] else Partly(s[0], k) + PartlyDecoded(s[1..], k)
  }

  lemma {:induction false} PartlyDecodedEnds(s: string)
    ensures PartlyDecoded(s, 0) == EscapeEach(s)
    ensures PartlyDecoded(s, 5) == s
  {
    if s != [] {
      PartlyDecodedEnds(s[1..]);
      assert s == [s[0]] + s[1..];
    }
  }

  /** Text without `&` passes any replacement of an entity unchanged. */
  lemma {:induction false} NoAmpersandPasses(u: string, rest: string, pat: string, rep: string)
    requires pat != [] && pat[0] == '&'
    requires '&' !in u
    ensures ReplaceText(u + rest, pat, rep) == u + ReplaceText(rest, pat, rep)
  {
    if u == [] {
      assert u + rest == rest;
    } else {
      var s := u + rest;
      assert s[0] == u[0] != '&';
      assert s[1..] == u[1..] + rest;
      NoAmpersandPasses(u[1..], rest, pat, rep);
      assert u == [u[0]] + u[1..];
    }
  }

  /** One stage acts on one character's text and leaves the rest to itself. */
  lemma StagePiece(c: char, k: nat, rest: string)
    requires 1 <= k <= 5
    ensures Stage(Partly(c, k - 1) + rest, k) == Partly(c, k) + Stage(rest, k)
  {
    var e := Partly(c, k - 1);
    if c == StageChar(k) {
      assert e == EntityFor(StageChar(k));
      StartsWithConcat(e, rest);
    } else if e == [c] {
      assert c != '&';
      NoAmpersandPasses(e, rest, EntityFor(StageChar(k)), [StageChar(k)]);
    } else {
      OtherEntityPasses(c, StageChar(k), rest);
    }
  }

  /** The entity of another character passes a stage unchanged. */
  lemma OtherEntityPasses(c: char, d: char, rest: string)
    requires IsSpecial(c) && IsSpecial(d) && c != d
    ensures ReplaceText(EntityFor(c) + rest, EntityFor(d), [d])
            == EntityFor(c) + ReplaceText(rest, EntityFor(d), [d])
  {
    EntitiesDiffer(c, d, rest);
    EntityForShape(c);
    UnmatchedEntityPasses(EntityFor(c), rest, EntityFor(d), [d]);
  }

  lemma UnmatchedEntityPasses(e: string, rest: string, pat: string, rep: string)
    requires pat != [] && pat[0] == '&'
    requires e != [] && forall i :: 0 < i < |e| ==> e[i] != '&'
    requires !StartsWith(e + rest, pat)
    ensures ReplaceText(e + rest, pat, rep) == e + ReplaceText(rest, pat, rep)
  {
    var tail := e[1..];
    assert (e + rest)[1..] == tail + rest;
    assert '&' !in tail by {
      assert forall i :: 0 <= i < |tail| ==> tail[i] == e[i + 1];
    }
    NoAmpersandPasses(tail, rest, pat, rep);
    assert e == [e[0]] + tail;
  }

  lemma {:induction false} StageStep(s: string, k: nat)
    requires 1 <= k <= 5
    ensures Stage(PartlyDecoded(s, k - 1), k) == PartlyDecoded(s, k)
  {
    if s != [] {
      StagePiece(s[0], k, PartlyDecoded(s[1..], k - 1));
      StageStep(s[1..], k);
    }
  }

  /** Decoding the five entities, `&amp;` last, undoes `escapeXml`. */
  lemma DecodeEscape(s: string)
    ensures DecodeEntities(Escape(s)) == s
  {
    EscapeIsPerCharacter(s);
    PartlyDecodedEnds(s);
    StageStep(s, 1);
    StageStep(s, 2);
    StageStep(s, 3);
    StageStep(s, 4);
    StageStep(s, 5);
  }
}
