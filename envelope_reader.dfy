/**
 * An independent reader for the envelope `buildSalesOrderEnvelope` writes: it
 * walks the fixed template, reads each `<TAG>text</TAG>` element and each
 * `<item>` element, and gives back the field values it finds.  The round-trip
 * theorem says that reading a built envelope gives back exactly the header values
 * in declared order and, for every input item in input order, its values: each
 * field appears once, in its place, and escaping loses nothing.
 */
module EnvelopeReader {
  import opened Results
  import opened JsValues
  import opened XmlEscape
  import opened XmlReader
  import opened SoapEnvelope

  /** What the reader recovers: the header values, then the values of each item. */
  datatype Order = Order(header: seq<string>, items: seq<seq<string>>)

  /** The value of each of `keys` in `obj`, as `escapeXml` stringifies it. */
  function Values(obj: Object, keys: seq<string>): (r: seq<string>)
    ensures |r| == |keys|
    ensures forall i :: 0 <= i < |keys| && Get(obj, keys[i]).Str? ==> r[i] == Get(obj, keys[i]).s
  {
    seq(|keys|, i requires 0 <= i < |keys| => ToText(Get(obj, keys[i])))
  }

  /** The items of `payload.items`; a non-array has none. */
  function ItemList(items: Items): seq<Object> {
    match items
    case NotArray => []
    case Array(xs) => xs
  }

  /** Reads one template line per slot. */
  function ReadLines(slots: seq<Slot>, s: string): (r: Option<Read<seq<string>>>)
    ensures r.Some? ==> |r.value.rest| <= |s|
  {
    if slots == [] then Some(Read([], s))
    else
      var afterIndent :- Expect(Indent10, s);
      var element :- ReadElement(slots[0].tag, afterIndent);
      var more :- ReadLines(slots[1..], element.rest);
      Some(Read([element.value] + more.value, more.rest))
  }

  /** Reads one `<item>` element. */
  function ReadItem(s: string): (r: Option<Read<seq<string>>>)
    ensures r.Some? ==> |r.value.rest| < |s|
  {
    var afterOpen :- Expect("<item>", s);
    var lines :- ReadLines(ItemSlots, afterOpen);
    var afterClose :- Expect(Indent8 + "</item>", lines.rest);
    Some(Read(lines.value, afterClose))
  }

  /** Reads `<item>` elements for as long as one follows. */
  function ReadItems(s: string): Option<Read<seq<seq<string>>>>
    decreases |s|
  {
    if !StartsWith(s, "<item>") then Some(Read([], s))
    else
      var item :- ReadItem(s);
      var more :- ReadItems(item.rest);
      Some(Read([item.value] + more.value, more.rest))
  }

  /** Reads `<IT_SO_ITEM>`, the items, and `</IT_SO_ITEM>`. */
  function ReadItemsBlock(s: string): Option<Read<seq<seq<string>>>> {
    var afterOpen :- Expect(Indent10 + "<IT_SO_ITEM>", s);
    var items :- ReadItems(afterOpen);
    var afterClose :- Expect("</IT_SO_ITEM>", items.rest);
    Some(Read(items.value, afterClose))
  }

  /** Reads the content of `<urn:ZBAPI_SALESORDER_CREATE>` and what follows it. */
  function ReadOperation(s: string): Option<Order> {
    var before :- ReadLines(SlotsBeforeItems, s);
    var items :- ReadItemsBlock(before.rest);
    var after :- ReadLines(SlotsAfterItems, items.rest);
    if after.rest == EnvelopeClose then Some(Order(before.value + after.value, items.value)) else None
  }

  /** Reads a whole envelope; `None` when the text does not follow the template. */
  function ParseEnvelope(s: string): Option<Order> {
    var body :- Expect(EnvelopeOpen, s);
    ReadOperation(body)
  }

  // ---------------------------------------------------------------------------

  function Keys(slots: seq<Slot>): seq<string> {
    seq(|slots|, i requires 0 <= i < |slots| => slots[i].key)
  }

  lemma {:induction false} ReadLinesOf(slots: seq<Slot>, obj: Object, rest: string)
    ensures ReadLines(slots, Lines(slots, obj) + rest) == Some(Read(Values(obj, Keys(slots)), rest))
  {
    if slots == [] {
      assert Lines(slots, obj) + rest == rest;
    } else {
      var v := Get(obj, slots[0].key);
      var element := Element(slots[0].tag, EscapeXml(v));
      var tail := Lines(slots[1..], obj) + rest;
      var s := Lines(slots, obj) + rest;
      assert s == Indent10 + (element + tail);
      StartsWithConcat(Indent10, element + tail);
      assert Expect(Indent10, s) == Some(element + tail);
      ReadElementOf(slots[0].tag, ToText(v), tail);
      ReadLinesOf(slots[1..], obj, rest);
      ValuesCons(obj, slots);
    }
  }

  lemma ValuesCons(obj: Object, slots: seq<Slot>)
    requires slots != []
    ensures Values(obj, Keys(slots)) == [ToText(Get(obj, slots[0].key))] + Values(obj, Keys(slots[1..]))
  {
    assert Keys(slots) == [slots[0].key] + Keys(slots[1..]);
  }

  lemma ItemKeys()
    ensures Keys(ItemSlots) == ItemRequired
  {
  }

  lemma ReadItemOf(item: Object, rest: string)
    ensures ReadItem(ItemXml(item) + rest) == Some(Read(Values(item, ItemRequired), rest))
  {
    var lines := Lines(ItemSlots, item);
    var close := Indent8 + "</item>";
    assert ItemXml(item) + rest == "<item>" + (lines + (close + rest));
    StartsWithConcat("<item>", lines + (close + rest));
    ReadLinesOf(ItemSlots, item, close + rest);
    ItemKeys();
    StartsWithConcat(close, rest);
  }

  /** The text after the items block does not begin another item. */
  predicate NotAnItem(s: string) {
    !StartsWith(s, "<item>")
  }

  /** The values of each item, in list order. */
  function ItemValues(xs: seq<Object>): (r: seq<seq<string>>)
    ensures |r| == |xs|
    ensures forall i :: 0 <= i < |xs| ==> r[i] == Values(xs[i], ItemRequired)
  {
    seq(|xs|, i requires 0 <= i < |xs| => Values(xs[i], ItemRequired))
  }

  lemma ItemXmlStartsWithItem(item: Object, rest: string)
    ensures StartsWith(ItemXml(item) + rest, "<item>")
  {
    var body := Lines(ItemSlots, item) + Indent8 + "</item>";
    assert ItemXml(item) + rest == "<item>" + (body + rest);
    StartsWithConcat("<item>", body + rest);
  }

  lemma {:induction false} ReadItemsOf(xs: seq<Object>, rest: string)
    requires NotAnItem(rest)
    ensures ReadItems(ItemsXml(xs) + rest) == Some(Read(ItemValues(xs), rest))
  {
    if xs == [] {
      assert ItemsXml(xs) + rest == rest;
    } else {
      var tail := ItemsXml(xs[1..]) + rest;
      assert ItemsXml(xs) + rest == ItemXml(xs[0]) + tail;
      ItemXmlStartsWithItem(xs[0], tail);
      ReadItemOf(xs[0], tail);
      ReadItemsOf(xs[1..], rest);
      assert ItemValues(xs) == [Values(xs[0], ItemRequired)] + ItemValues(xs[1..]);
    }
  }

  lemma HeaderKeys()
    ensures Keys(SlotsBeforeItems) + Keys(SlotsAfterItems) == HeaderRequired
  {
  }

  lemma ValuesConcat(obj: Object, a: seq<string>, b: seq<string>)
    ensures Values(obj, a) + Values(obj, b) == Values(obj, a + b)
  {
  }

  /** The envelope text, split where the reader takes it apart. */
  lemma EnvelopeXmlParts(fields: Object, itemsXml: string)
    ensures EnvelopeXml(fields, itemsXml)
            == EnvelopeOpen + (Lines(SlotsBeforeItems, fields) + ((Indent10 + "<IT_SO_ITEM>")
               + (itemsXml + ("</IT_SO_ITEM>" + (Lines(SlotsAfterItems, fields) + EnvelopeClose)))))
  {
    Regroup(EnvelopeOpen, Lines(SlotsBeforeItems, fields), Indent10, "<IT_SO_ITEM>",
            itemsXml, "</IT_SO_ITEM>", Lines(SlotsAfterItems, fields) + EnvelopeClose);
  }

  lemma Regroup(o: string, b: string, i: string, open: string, x: string, close: string, t: string)
    ensures (o + b + i) + open + x + close + t == o + (b + ((i + open) + (x + (close + t))))
  {
  }

  lemma ClosingTagIsNotAnItem(rest: string)
    ensures NotAnItem("</IT_SO_ITEM>" + rest)
  {
    var s := "</IT_SO_ITEM>" + rest;
    assert s[..6] != "<item>" by {
      assert s[..6][1] == '/' != "<item>"[1];
    }
  }

  lemma ReadItemsBlockOf(xs: seq<Object>, rest: string)
    ensures ReadItemsBlock(Indent10 + "<IT_SO_ITEM>" + (ItemsXml(xs) + ("</IT_SO_ITEM>" + rest)))
            == Some(Read(ItemValues(xs), rest))
  {
    var afterItems := "</IT_SO_ITEM>" + rest;
    StartsWithConcat(Indent10 + "<IT_SO_ITEM>", ItemsXml(xs) + afterItems);
    ClosingTagIsNotAnItem(rest);
    ReadItemsOf(xs, afterItems);
    StartsWithConcat("</IT_SO_ITEM>", rest);
  }

  lemma ReadOperationOf(fields: Object, xs: seq<Object>)
    ensures ReadOperation(Lines(SlotsBeforeItems, fields) + ((Indent10 + "<IT_SO_ITEM>")
              + (ItemsXml(xs) + ("</IT_SO_ITEM>" + (Lines(SlotsAfterItems, fields) + EnvelopeClose)))))
            == Some(Order(Values(fields, HeaderRequired), ItemValues(xs)))
  {
    var tail := Lines(SlotsAfterItems, fields) + EnvelopeClose;
    ReadLinesOf(SlotsBeforeItems, fields, (Indent10 + "<IT_SO_ITEM>") + (ItemsXml(xs) + ("</IT_SO_ITEM>" + tail)));
    ReadItemsBlockOf(xs, tail);
    ReadLinesOf(SlotsAfterItems, fields, EnvelopeClose);
    HeaderKeys();
    ValuesConcat(fields, Keys(SlotsBeforeItems), Keys(SlotsAfterItems));
  }

  /** Reading any filled-in envelope template gives back what was filled in. */
  lemma ParseEnvelopeXml(fields: Object, xs: seq<Object>)
    ensures ParseEnvelope(EnvelopeXml(fields, ItemsXml(xs)))
            == Some(Order(Values(fields, HeaderRequired), ItemValues(xs)))
  {
    var body := Lines(SlotsBeforeItems, fields) + ((Indent10 + "<IT_SO_ITEM>")
              + (ItemsXml(xs) + ("</IT_SO_ITEM>" + (Lines(SlotsAfterItems, fields) + EnvelopeClose))));
    EnvelopeXmlParts(fields, ItemsXml(xs));
    StartsWithConcat(EnvelopeOpen, body);
    ReadOperationOf(fields, xs);
  }

  /** Reading a built envelope back gives the eight header values in declared
      order and, for each input item in input order, its eight values. */
  lemma EnvelopeRoundTrip(p: Payload)
    requires BuildSalesOrderEnvelope(p).Ok?
    ensures ParseEnvelope(BuildSalesOrderEnvelope(p).value)
            == Some(Order(Values(p.fields, HeaderRequired), ItemValues(ItemList(p.items))))
  {
    BuildItemsXmlSpec(p.items);
    assert BuildItemsXml(p.items).value == ItemsXml(ItemList(p.items));
    ParseEnvelopeXml(p.fields, ItemList(p.items));
  }

  /** The items block of a built envelope holds exactly one `<item>` element per
      input item. */
  lemma ItemElementCount(p: Payload)
    requires BuildSalesOrderEnvelope(p).Ok?
    ensures ParseEnvelope(BuildSalesOrderEnvelope(p).value).Some?
    ensures |ParseEnvelope(BuildSalesOrderEnvelope(p).value).value.items| == |ItemList(p.items)|
  {
    EnvelopeRoundTrip(p);
  }
}
