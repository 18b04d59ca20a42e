# SAP sales-order SOAP envelope builder, modelled in Dafny

This project models the envelope builder of the `createSalesOrder` tool server (`src/soap.js`). The server turns a sales-order payload into the SOAP 1.1 envelope of the SAP `ZBAPI_SALESORDER_CREATE` operation and posts it to the service. The model covers four parts:

- `escapeXml`: the five characters with predefined entities in section 4.6 of XML 1.0 are replaced, `&` first. `undefined` and `null` become `""`.
- `buildItemsXml`: each order item is checked for its eight required properties. The first incomplete item, in list order, fails the build. Otherwise one `<item>` element per item is written, in input order. A non-array or empty `items` gives no text.
- `buildSalesOrderEnvelope`: the eight header properties are checked first. Then the items block is built. Then the fixed envelope template is filled in, with every value escaped.
- The argument guards of `callSalesOrderService`: a falsy endpoint is refused, then falsy credentials. Both checks run before the envelope is built and before any request exists.

Files and modules:

- `results.dfy` (`Results`): `Option` and `Result`. A thrown `Error` is an `Err`.
- `js_values.dfy` (`JsValues`): a field is `Undefined`, `Null` or `Str(s)`. An object is a map from property name to value, and an absent property reads as `undefined`.
- `xml_escape.dfy` (`XmlEscape`): `escapeXml`, written as the source's chain of five global replacements. It is proved equal to a per-character substitution. A single-pass entity decoder is its inverse.
- `entity_decoding.dfy` (`EntityDecoding`): decoding by five global replacements, `&amp;` last. The round trip is proved through it as well.
- `xml_reader.dfy` (`XmlReader`): writing and reading one `<TAG>text</TAG>` element.
- `soap_envelope.dfy` (`SoapEnvelope`): the required-key lists, the presence checks, the two templates (whitespace reproduced exactly as the trimmed template literals give it), `buildItemsXml` and `buildSalesOrderEnvelope`. The `Message` function gives the text of each thrown error.
- `envelope_reader.dfy` (`EnvelopeReader`): an independent reader of the envelope. The main theorem says that reading a built envelope gives back every header value and every item's values, in order.
- `soap_call.dfy` (`SoapCall`): the endpoint default, the guards, and the request that would be posted.

Equal inputs give equal outputs because every operation is a Dafny function. No lemma is needed for that.

The request schema in src/index.js:32 requires at least one item. `buildItemsXml`, however, accepts an empty or non-array `items` (src/soap.js:16-18) and writes an empty `<IT_SO_ITEM></IT_SO_ITEM>`. `SoapEnvelope.NoItems` states this behaviour. The date formats of that schema are not applied by the builder either.

The reader in `EnvelopeReader` is independent of the writer in how it scans text and resolves entities. It shares the template tables with the writer, though: the slot lists, the indentation and the fixed envelope head and tail. The round trip therefore does not check tag names. `SoapEnvelope.TemplateTags` states the tag lists literally instead.

## Model

| member | source | states |
|---|---|---|
| `XmlEscape.ReplaceAll` | src/soap.js:9-13 | one global replacement removes every occurrence of its character unless the replacement reintroduces it, and keeps every other character that the replacement text does not contain |
| `XmlEscape.EscapeXml` | src/soap.js:7-8 | `undefined` and `null` are escaped to the empty string |
| `XmlEscape.EscapeIsPerCharacter` | src/soap.js:9-13 | the chain of five replacements, `&` first, equals replacing each character independently by its entity: no entity made by a later replacement is escaped again |
| `XmlEscape.EscapeIsEscapedText` | src/soap.js:9-13 | the output contains no `<`, `>`, `"` or `'`, and every `&` in it begins `&amp;`, `&lt;`, `&gt;`, `&quot;` or `&apos;` |
| `XmlEscape.EscapeRoundTrip` | src/soap.js:9-13 | resolving the entity references of the output left to right gives back the input |
| `XmlEscape.EscapeInjective` | src/soap.js:9-13 | two inputs with the same escaped text are equal |
| `XmlEscape.EscapePlainText` | src/soap.js:9-13 | text with none of the five special characters is unchanged |
| `EntityDecoding.DecodeEscape` | src/soap.js:9-13 | decoding the five entities by global replacements, `&amp;` last, gives back the input of `escapeXml` |
| `XmlReader.ReadElementOf` | src/soap.js:45-52 | a `<TAG>${escapeXml(v)}</TAG>` element is read back as exactly `v`, and reading stops at its closing tag |
| `SoapEnvelope.Missing` | src/soap.js:71-73 | a key is reported exactly when it is a required key whose value is `undefined` or `null`, and no more keys are reported than were required |
| `SoapEnvelope.MissingConcat` | src/soap.js:71-73 | the filter keeps declared order: the missing keys of a concatenation of key lists are the missing keys of each list, one after the other |
| `SoapEnvelope.Message` | src/soap.js:37-40 | the message of a header error starts with `Missing required fields: `, and that of an item error with `Item is missing required fields: ` |
| `SoapEnvelope.JoinConcat` | src/soap.js:75 | the key list joins like `Array.prototype.join`: joining two non-empty lists one after the other puts the separator `, ` between their joined texts |
| `SoapEnvelope.JoinSingle` | src/soap.js:75 | a single key joins to itself, with no separator |
| `SoapEnvelope.MessageNamesKey` | src/soap.js:75 | every key the error reports appears in its message after the fixed prefix |
| `SoapEnvelope.TemplateTags` | src/soap.js:85-93 | the header tags are CUST_PO and CUST_PO_DATE before the items block and ORDER_TYPE, SALES_CHANNEL, SALES_DIVISION, SALES_ORG, SHIP_TO_PARTY, SOLD_TO_PARTY after it; the item tags are MATERIAL_NO, MATERIAL, UNIT, QTY, CUST_MATERIAL, PLANT, SHIPPING_POINT, DELIVERY_DATE in that order |
| `SoapEnvelope.EmptyStringIsPresent` | src/soap.js:71-73 | an empty string counts as present |
| `SoapEnvelope.HeaderCheck` | src/soap.js:60-76 | the build fails on the header exactly when one of the eight header keys is `undefined` or `null`, and the error lists exactly those keys in declared order |
| `SoapEnvelope.HeaderCheckedFirst` | src/soap.js:71-78 | while a header key is missing, the outcome is that header error whatever the items are: no item is inspected |
| `SoapEnvelope.FirstIncomplete` | src/soap.js:33-41 | a reported item error always names at least one key |
| `SoapEnvelope.FirstIncompleteNone` | src/soap.js:20-41 | the item check passes exactly when every item has all eight keys |
| `SoapEnvelope.FirstIncompleteAt` | src/soap.js:20-41 | a failing item check reports the missing keys, in declared order, of an incomplete item all of whose predecessors are complete, i.e. the first one |
| `SoapEnvelope.BuildItemsXmlSpec` | src/soap.js:15-57 | a non-array or empty `items` gives `""` and never fails; an array fails exactly when some item is incomplete, with the first incomplete item's missing keys; otherwise the text is the items' `<item>` elements joined in input order |
| `SoapEnvelope.BuildSucceeds` | src/soap.js:59-98 | an envelope is built exactly when the header is complete and every item of an items array is complete |
| `SoapEnvelope.NoItems` | src/soap.js:16-18 | with a complete header and no items, the envelope holds an empty `<IT_SO_ITEM></IT_SO_ITEM>` between the same head and tail text as always |
| `SoapEnvelope.EnvelopeBounds` | src/soap.js:80-97 | a built envelope starts with `<soapenv:Envelope` and ends with `</soapenv:Envelope>` |
| `EnvelopeReader.ReadItemsOf` | src/soap.js:20-56 | reading the joined `<item>` elements gives, for each input item in input order, its eight values |
| `EnvelopeReader.ParseEnvelopeXml` | src/soap.js:80-97 | reading any filled-in envelope template gives back the eight header values in declared order and the values of every item |
| `EnvelopeReader.EnvelopeRoundTrip` | src/soap.js:59-98 | reading a built envelope with the template's element order (header lines, then the items block, then the remaining header lines) reads each element once and gives back the eight header values in declared key order and every item's eight values in input order, unescaped |
| `EnvelopeReader.ItemElementCount` | src/soap.js:20-56 | the items block of a built envelope holds exactly as many `<item>` elements as there are input items |
| `SoapCall.CheckArgumentsSpec` | src/soap.js:107-113 | the guards pass exactly when the endpoint (after its default) and both credentials are truthy; a falsy endpoint is reported before the credentials are looked at; an omitted endpoint means the default address |
| `SoapCall.EndpointGuard` | src/soap.js:100-109 | an omitted (`undefined`) endpoint never fails the endpoint guard, while `null` and `""` always do |
| `SoapCall.GuardsBeforeEnvelope` | src/soap.js:107-119 | when a guard fails, that error is the outcome whatever the payload: the envelope is not built and no request is made |
| `SoapCall.PrepareRequestSpec` | src/soap.js:118-127 | a request exists exactly when the guards pass and the envelope builds; it goes to the resolved endpoint with the envelope as body, the fixed SOAPAction and content type; a payload error surfaces only after the guards passed |

## Left out

- The HTTP request itself (`fetch`), the `AbortController`, the `setTimeout`/`clearTimeout` deadline and the mapping of the response (src/soap.js:115-142). These are network I/O and timer-driven cancellation. The model stops at the request that would be posted, so the `timeoutMs` default is not modelled either.
- The `Authorization` header (src/soap.js:126). It needs Node's `Buffer` base64 encoding of the UTF-8 bytes of `username:password`, which is a foreign library call. The request keeps the two credential strings instead.
- `src/index.js`: tool registration, the stdio transport, the zod request schema and the environment-variable fallbacks. This is library glue and process I/O. The schema's rules (non-empty items, date formats) are not applied by the builder and are not modelled.
- Field values other than `undefined`, `null` and strings. `String(value)` of numbers, booleans or objects is not modelled.
- Items that are not objects (such as `null` in the array, which makes the source throw a `TypeError`), and a payload that is not an object.
- Truthiness of non-string endpoint and credential values (`0`, `false`, objects).
- `.map` then `.join` is modelled as checking every item first and then writing them all. The result is the same, since writing an item has no effect.
- EnvelopeReader.ItemElementCount: counts the `<item>` elements a reader finds in the items block, not raw occurrences of the text `<item>` in the envelope string.
- Strings that JavaScript can hold but Dafny's `string` cannot, such as a lone UTF-16 surrogate from the JSON escape `"\ud800"`, are not modelled. Escaping only looks at five ASCII characters, so such text would pass through unchanged in the source.
