/**
 * `buildItemsXml` and `buildSalesOrderEnvelope`: presence checks on the order
 * header and on each item, then the fixed SOAP 1.1 envelope of the
 * ZBAPI_SALESORDER_CREATE operation with every field value escaped.
 * Throwing an `Error` is modelled as an `Err` result.
 */
module SoapEnvelope {
  import opened Results
  import opened JsValues
  import opened XmlEscape
  import opened XmlReader

  /** The header properties `buildSalesOrderEnvelope` requires, in declared order. */
  const HeaderRequired: seq<string> := [
    "custPo", "custPoDate", "orderType", "salesChannel",
    "salesDivision", "salesOrg", "shipToParty", "soldToParty"
  ]

  /** The properties `buildItemsXml` requires of every item, in declared order. */
  const ItemRequired: seq<string> := [
    "materialNo", "material", "unit", "qty",
    "custMaterial", "plant", "shippingPoint", "deliveryDate"
  ]

  /** `payload.items`: an array of item objects, or anything that is not an array. */
  datatype Items = NotArray | Array(elems: seq<Object>)

  /** The payload object: its header properties, and its `items` property. */
  datatype Payload = Payload(fields: Object, items: Items)

  /** What `buildSalesOrderEnvelope` throws. */
  datatype BuildError =
    | MissingFields(keys: seq<string>)      // a header property is undefined or null
    | ItemMissingFields(keys: seq<string>)  // a property of an item is undefined or null

  /** `obj[key] === undefined || obj[key] === null` */
  predicate IsMissing(obj: Object, key: string) {
    IsNullish(Get(obj, key))
  }

  /** `keys.filter(key => obj[key] === undefined || obj[key] === null)` */
  function Missing(obj: Object, keys: seq<string>): (r: seq<string>)
    ensures forall k :: k in r <==> k in keys && IsMissing(obj, k)
    ensures |r| <= |keys|
  {
    if keys == [] then []
    else (if IsMissing(obj, keys[0]) then [keys[0]] else []) + Missing(obj, keys[1..])
  }

  /** `keys.join(sep)` */
  function Join(keys: seq<string>, sep: string): string {
    if keys == [] then ""
    else if |keys| == 1 then keys[0]
    else keys[0] + sep + Join(keys[1..], sep)
  }

  /** The text before the key list in the message of `e`. */
  function MessagePrefix(e: BuildError): string {
    if e.MissingFields? then "Missing required fields: " else "Item is missing required fields: "
  }

  /** The message of the thrown `Error`. */
  function Message(e: BuildError): (r: string)
    ensures StartsWith(r, MessagePrefix(e))
  {
    StartsWithConcat(MessagePrefix(e), Join(e.keys, ", "));
    match e
    case MissingFields(keys) => "Missing required fields: " + Join(keys, ", ")
    case ItemMissingFields(keys) => "Item is missing required fields: " + Join(keys, ", ")
  }

  // ---------------------------------------------------------------------------
  // The template text.  Both templates are trimmed, so the text starts at the
  // first tag and ends at the last; each line break is followed by the
  // indentation of the next line.

  const Indent4: string := "\n    "
  const Indent6: string := "\n      "
  const Indent8: string := "\n        "
  const Indent10: string := "\n          "

  /** One `<TAG>${escapeXml(obj.key)}</TAG>` line of a template. */
  datatype Slot = Slot(tag: string, key: string)

  const ItemSlots: seq<Slot> := [
    Slot("MATERIAL_NO", "materialNo"), Slot("MATERIAL", "material"),
    Slot("UNIT", "unit"), Slot("QTY", "qty"),
    Slot("CUST_MATERIAL", "custMaterial"), Slot("PLANT", "plant"),
    Slot("SHIPPING_POINT", "shippingPoint"), Slot("DELIVERY_DATE", "deliveryDate")
  ]

  /** The header lines above `<IT_SO_ITEM>` ... */
  const SlotsBeforeItems: seq<Slot> := [Slot("CUST_PO", "custPo"), Slot("CUST_PO_DATE", "custPoDate")]

  /** ... and below it. */
  const SlotsAfterItems: seq<Slot> := [
    Slot("ORDER_TYPE", "orderType"), Slot("SALES_CHANNEL", "salesChannel"),
    Slot("SALES_DIVISION", "salesDivision"), Slot("SALES_ORG", "salesOrg"),
    Slot("SHIP_TO_PARTY", "shipToParty"), Slot("SOLD_TO_PARTY", "soldToParty")
  ]

  const EnvelopeTagOpen: string := "<soapenv:Envelope"
  const EnvelopeTagClose: string := "</soapenv:Envelope>"

  const EnvelopeOpen: string :=
    EnvelopeTagOpen + " xmlns:soapenv=\"http://schemas.xmlsoap.org/soap/envelope/\""
    + " xmlns:urn=\"urn:sap-com:document:sap:rfc:functions\">"
    + Indent6 + "<soapenv:Header/>"
    + Indent6 + "<soapenv:Body>"
    + Indent8 + "<urn:ZBAPI_SALESORDER_CREATE>"

  const EnvelopeClose: string :=
    Indent8 + "</urn:ZBAPI_SALESORDER_CREATE>"
    + Indent6 + "</soapenv:Body>"
    + Indent4 + EnvelopeTagClose

  /** The template lines for `slots`, each on its own line at the field indentation. */
  function Lines(slots: seq<Slot>, obj: Object): string {
    if slots == [] then ""
    else Indent10 + Element(slots[0].tag, EscapeXml(Get(obj, slots[0].key))) + Lines(slots[1..], obj)
  }

  /** The trimmed `<item>` template of one item. */
  function ItemXml(item: Object): string {
    "<item>" + Lines(ItemSlots, item) + Indent8 + "</item>"
  }

  /** `items.map(itemTemplate).join("")` */
  function ItemsXml(xs: seq<Object>): string {
    if xs == [] then "" else ItemXml(xs[0]) + ItemsXml(xs[1..])
  }

  /** The missing keys of the first item, in list order, that lacks any: the
      `.map` callback throws for that item, before later items are looked at. */
  function FirstIncomplete(xs: seq<Object>): (r: Option<seq<string>>)
    ensures r.Some? ==> r.value != []
  {
    if xs == [] then None
    else
      var missing := Missing(xs[0], ItemRequired);
      if missing != [] then Some(missing) else FirstIncomplete(xs[1..])
  }

  /** `buildItemsXml(items)`: a non-array or an empty array gives "". */
  function BuildItemsXml(items: Items): Result<string, seq<string>> {
    match items
    case NotArray => Ok("")
    case Array(xs) =>
      if |xs| == 0 then Ok("")
      else
        match FirstIncomplete(xs)
        case Some(missing) => Err(missing)
        case None => Ok(ItemsXml(xs))
  }

  /** The envelope text up to the `<IT_SO_ITEM>` tag. */
  function EnvelopeHead(fields: Object): string {
    EnvelopeOpen + Lines(SlotsBeforeItems, fields) + Indent10
  }

  /** The envelope text after the `</IT_SO_ITEM>` tag. */
  function EnvelopeTail(fields: Object): string {
    Lines(SlotsAfterItems, fields) + EnvelopeClose
  }

  /** The trimmed envelope template, filled in. */
  function EnvelopeXml(fields: Object, itemsXml: string): string {
    EnvelopeHead(fields) + "<IT_SO_ITEM>" + itemsXml + "</IT_SO_ITEM>" + EnvelopeTail(fields)
  }

  /** `buildSalesOrderEnvelope(payload)`: the header is checked before the items are. */
  function BuildSalesOrderEnvelope(p: Payload): Result<string, BuildError> {
    var missing := Missing(p.fields, HeaderRequired);
    if missing != [] then Err(MissingFields(missing))
    else
      match BuildItemsXml(p.items)
      case Err(itemMissing) => Err(ItemMissingFields(itemMissing))
      case Ok(itemsXml) => Ok(EnvelopeXml(p.fields, itemsXml))
  }

  // ---------------------------------------------------------------------------
  // Properties of the checks

  /** `filter` keeps the declared order: the missing keys of a concatenation are
      the missing keys of each part, one after the other. */
  lemma {:induction false} MissingConcat(obj: Object, a: seq<string>, b: seq<string>)
    ensures Missing(obj, a + b) == Missing(obj, a) + Missing(obj, b)
  {
    if a == [] {
      assert a + b == b;
    } else {
      assert (a + b)[1..] == a[1..] + b;
      MissingConcat(obj, a[1..], b);
    }
  }

  /** Present means anything but `undefined` and `null`: the empty string is present. */
  lemma EmptyStringIsPresent(obj: Object, key: string)
    requires key in obj && obj[key] == Str("")
    ensures !IsMissing(obj, key)
  {
  }

  /** The envelope fails on the header exactly when one of the eight header keys is
      `undefined` or `null`, and it then lists exactly those keys, in declared order. */
  lemma HeaderCheck(p: Payload)
    ensures (BuildSalesOrderEnvelope(p).Err? && BuildSalesOrderEnvelope(p).error.MissingFields?)
            <==> exists k :: k in HeaderRequired && IsMissing(p.fields, k)
    ensures BuildSalesOrderEnvelope(p).Err? && BuildSalesOrderEnvelope(p).error.MissingFields? ==>
              BuildSalesOrderEnvelope(p).error.keys == Missing(p.fields, HeaderRequired)
  {
    var missing := Missing(p.fields, HeaderRequired);
    if missing != [] {
      assert missing[0] in missing;
    }
    if exists k :: k in HeaderRequired && IsMissing(p.fields, k) {
      var k :| k in HeaderRequired && IsMissing(p.fields, k);
      assert k in missing;
    }
  }

  /** The header is checked before any item is looked at: while a header key is
      missing, the items make no difference to the outcome. */
  lemma HeaderCheckedFirst(p: Payload, otherItems: Items)
    requires Missing(p.fields, HeaderRequired) != []
    ensures BuildSalesOrderEnvelope(p) == BuildSalesOrderEnvelope(Payload(p.fields, otherItems))
    ensures BuildSalesOrderEnvelope(p) == Err(MissingFields(Missing(p.fields, HeaderRequired)))
  {
  }

  /** An item is complete when none of its eight keys is `undefined` or `null`. */
  predicate IsComplete(item: Object) {
    Missing(item, ItemRequired) == []
  }

  lemma {:induction false} FirstIncompleteNone(xs: seq<Object>)
    ensures FirstIncomplete(xs).None? <==> forall i :: 0 <= i < |xs| ==> IsComplete(xs[i])
  {
    if xs != [] {
      FirstIncompleteNone(xs[1..]);
      assert forall i :: 0 < i < |xs| ==> xs[i] == xs[1..][i - 1];
    }
  }

  /** When the item check fails, it reports the missing keys of the first
      incomplete item, at index `i`; every item before it is complete. */
  lemma {:induction false} FirstIncompleteAt(xs: seq<Object>) returns (i: nat)
    requires FirstIncomplete(xs).Some?
    ensures i < |xs| && !IsComplete(xs[i])
    ensures FirstIncomplete(xs).value == Missing(xs[i], ItemRequired)
    ensures forall j :: 0 <= j < i ==> IsComplete(xs[j])
  {
    if IsComplete(xs[0]) {
      var k := FirstIncompleteAt(xs[1..]);
      i := k + 1;
      assert forall j :: 0 < j < |xs| ==> xs[j] == xs[1..][j - 1];
    } else {
      i := 0;
    }
  }

  /** Item check: a non-array or an empty array always passes (with no text);
      an array fails exactly when some item is incomplete, with the missing keys
      of the first such item; otherwise the text is one `<item>` per item. */
  lemma BuildItemsXmlSpec(items: Items)
    ensures items.NotArray? || items.elems == [] ==> BuildItemsXml(items) == Ok("")
    ensures items.Array? ==>
              (BuildItemsXml(items).Err? <==> exists i :: 0 <= i < |items.elems| && !IsComplete(items.elems[i]))
    ensures items.Array? && BuildItemsXml(items).Err? ==>
              exists i :: 0 <= i < |items.elems| && !IsComplete(items.elems[i])
                          && BuildItemsXml(items).error == Missing(items.elems[i], ItemRequired)
                          && forall j :: 0 <= j < i ==> IsComplete(items.elems[j])
    ensures BuildItemsXml(items).Ok? && items.Array? ==> BuildItemsXml(items).value == ItemsXml(items.elems)
  {
    if items.Array? {
      FirstIncompleteNone(items.elems);
      if BuildItemsXml(items).Err? {
        var i := FirstIncompleteAt(items.elems);
      }
    }
  }

  /** The envelope is built exactly when the header is complete and every item of
      an items array is complete. */
  lemma BuildSucceeds(p: Payload)
    ensures BuildSalesOrderEnvelope(p).Ok? <==>
              Missing(p.fields, HeaderRequired) == []
              && (p.items.Array? ==> forall i :: 0 <= i < |p.items.elems| ==> IsComplete(p.items.elems[i]))
  {
    BuildItemsXmlSpec(p.items);
  }

  /** With no items (a non-array or an empty array), the envelope holds an empty
      `<IT_SO_ITEM></IT_SO_ITEM>` and nothing else changes. */
  lemma NoItems(p: Payload)
    requires Missing(p.fields, HeaderRequired) == []
    requires p.items.NotArray? || p.items.elems == []
    ensures BuildSalesOrderEnvelope(p)
            == Ok(EnvelopeHead(p.fields) + "<IT_SO_ITEM></IT_SO_ITEM>" + EnvelopeTail(p.fields))
  {
    assert BuildItemsXml(p.items) == Ok("");
    EmptyItemsBlock(p.fields);
  }

  lemma EmptyItemsBlock(fields: Object)
    ensures EnvelopeXml(fields, "") == EnvelopeHead(fields) + "<IT_SO_ITEM></IT_SO_ITEM>" + EnvelopeTail(fields)
  {
    assert "<IT_SO_ITEM>" + "" + "</IT_SO_ITEM>" == "<IT_SO_ITEM></IT_SO_ITEM>";
  }

  /** A built envelope is the whole `soapenv:Envelope` element. */
  lemma EnvelopeBounds(p: Payload)
    requires BuildSalesOrderEnvelope(p).Ok?
    ensures StartsWith(BuildSalesOrderEnvelope(p).value, EnvelopeTagOpen)
    ensures EndsWith(BuildSalesOrderEnvelope(p).value, EnvelopeTagClose)
  {
    var xml := BuildSalesOrderEnvelope(p).value;
    var rest := EnvelopeXml(p.fields, BuildItemsXml(p.items).value)[|EnvelopeTagOpen|..];
    assert xml == EnvelopeTagOpen + rest;
    StartsWithConcat(EnvelopeTagOpen, rest);
    var before := xml[..|xml| - |EnvelopeTagClose|];
    assert xml == before + EnvelopeTagClose;
  }

  predicate EndsWith(s: string, suffix: string) {
    |suffix| <= |s| && s[|s| - |suffix|..] == suffix
  }

  // ---------------------------------------------------------------------------
  // Properties of the error messages

  /** `[k].join(sep)` is `k`. */
  lemma JoinSingle(k: string, sep: string)
    ensures Join([k], sep) == k
  {
  }

  /** `(a.concat(b)).join(sep)` is `a.join(sep) + sep + b.join(sep)` for non-empty `a` and `b`. */
  lemma {:induction false} JoinConcat(a: seq<string>, b: seq<string>, sep: string)
    requires a != [] && b != []
    ensures Join(a + b, sep) == Join(a, sep) + sep + Join(b, sep)
  {
    if |a| == 1 {
      assert (a + b)[1..] == b;
    } else {
      assert (a + b)[1..] == a[1..] + b;
      JoinConcat(a[1..], b, sep);
    }
  }

  /** Every key of the error is spelled out in its message, between `pre` and `post`. */
  lemma {:induction false} KeyInJoin(keys: seq<string>, sep: string, i: nat) returns (pre: string, post: string)
    requires i < |keys|
    ensures Join(keys, sep) == pre + keys[i] + post
  {
    if |keys| == 1 {
      pre, post := "", "";
    } else if i == 0 {
      pre, post := "", sep + Join(keys[1..], sep);
    } else {
      var p, q := KeyInJoin(keys[1..], sep, i - 1);
      pre, post := keys[0] + sep + p, q;
    }
  }

  /** The message names each missing key after the fixed prefix. */
  lemma MessageNamesKey(e: BuildError, i: nat) returns (pre: string, post: string)
    requires i < |e.keys|
    ensures Message(e) == MessagePrefix(e) + pre + e.keys[i] + post
  {
    pre, post := KeyInJoin(e.keys, ", ", i);
  }

  /** The template tags, in the order the envelope and the item elements write them. */
  lemma TemplateTags()
    ensures [SlotsBeforeItems[0].tag, SlotsBeforeItems[1].tag]
            == ["CUST_PO", "CUST_PO_DATE"]
    ensures [SlotsAfterItems[0].tag, SlotsAfterItems[1].tag, SlotsAfterItems[2].tag,
             SlotsAfterItems[3].tag, SlotsAfterItems[4].tag, SlotsAfterItems[5].tag]
            == ["ORDER_TYPE", "SALES_CHANNEL", "SALES_DIVISION", "SALES_ORG", "SHIP_TO_PARTY", "SOLD_TO_PARTY"]
    ensures |SlotsBeforeItems| == 2 && |SlotsAfterItems| == 6 && |ItemSlots| == 8
    ensures [ItemSlots[0].tag, ItemSlots[1].tag, ItemSlots[2].tag, ItemSlots[3].tag,
             ItemSlots[4].tag, ItemSlots[5].tag, ItemSlots[6].tag, ItemSlots[7].tag]
            == ["MATERIAL_NO", "MATERIAL", "UNIT", "QTY", "CUST_MATERIAL", "PLANT", "SHIPPING_POINT", "DELIVERY_DATE"]
  {
  }
}
