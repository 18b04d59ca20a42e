/**
 * Writing and reading one `<TAG>text</TAG>` element.  The writer is what each
 * `<TAG>${escapeXml(value)}</TAG>` line of the envelope template produces; the
 * reader is an independent definition of how such an element is read back, by
 * scanning character data up to the next `<` and resolving entity references.
 */
module XmlReader {
  import opened Results
  import opened XmlEscape

  function OpenTag(tag: string): string { "<" + tag + ">" }

  function CloseTag(tag: string): string { "</" + tag + ">" }

  /** `<TAG>text</TAG>` */
  function Element(tag: string, text: string): string {
    OpenTag(tag) + text + CloseTag(tag)
  }

  /** What a reading step produced, and the input left after it. */
  datatype Read<+T> = Read(value: T, rest: string)

  /** Consumes the literal `lit` at the front of `s`. */
  function Expect(lit: string, s: string): (r: Option<string>)
    ensures r.Some? <==> StartsWith(s, lit)
    ensures r.Some? ==> s == lit + r.value
  {
    if StartsWith(s, lit) then Some(s[|lit|..]) else None
  }

  /** Character data: the longest prefix of `s` without `<`. */
  function ReadText(s: string): (r: Read<string>)
    ensures r.value + r.rest == s
    ensures '<' !in r.value
    ensures r.rest == [] || r.rest[0] == '<'
  {
    if s == [] || s[0] == '<' then Read([], s)
    else
      var t := ReadText(s[1..]);
      assert [s[0]] + t.value + t.rest == s;
      Read([s[0]] + t.value, t.rest)
  }

  /** Reads `<TAG>text</TAG>` at the front of `s`, decoding the text. */
  function ReadElement(tag: string, s: string): (r: Option<Read<string>>)
    ensures r.Some? ==> |r.value.rest| < |s|
  {
    match Expect(OpenTag(tag), s)
    case None => None
    case Some(afterOpen) =>
      var text := ReadText(afterOpen);
      match Expect(CloseTag(tag), text.rest)
      case None => None
      case Some(afterClose) => Some(Read(Unescape(text.value), afterClose))
  }

  /** Character data is split exactly where the first `<` stands. */
  lemma {:induction false} ReadTextOf(v: string, rest: string)
    requires '<' !in v
    requires rest == [] || rest[0] == '<'
    ensures ReadText(v + rest) == Read(v, rest)
  {
    if v == [] {
      assert v + rest == rest;
    } else {
      assert (v + rest)[0] == v[0] != '<';
      assert (v + rest)[1..] == v[1..] + rest;
      ReadTextOf(v[1..], rest);
      assert [v[0]] + v[1..] == v;
    }
  }

  /** Reading back an element written with escaped text gives the original text. */
  lemma {:induction false} ReadElementOf(tag: string, value: string, rest: string)
    ensures ReadElement(tag, Element(tag, Escape(value)) + rest) == Some(Read(value, rest))
  {
    var text := Escape(value);
    EscapeIsEscapedText(value);
    assert forall i :: 0 <= i < |text| ==> text[i] != '<';
    var s := Element(tag, text) + rest;
    assert s == OpenTag(tag) + (text + (CloseTag(tag) + rest));
    StartsWithConcat(OpenTag(tag), text + (CloseTag(tag) + rest));
    ReadTextOf(text, CloseTag(tag) + rest);
    StartsWithConcat(CloseTag(tag), rest);
    EscapeRoundTrip(value);
  }
}
