/**
 * The part of `callSalesOrderService` that runs before any request: the
 * endpoint and credential guards, then the envelope.  The HTTP POST itself is
 * described by the request it would send; sending it is not modelled.
 */
module SoapCall {
  import opened Results
  import opened JsValues
  import opened SoapEnvelope

  /** The WSDL binding address used when no endpoint is passed. */
  const DefaultEndpoint: string :=
    "https://vhivcqasci.sap.inventec.com:44300/sap/bc/srt/rfc/sap/zws_bapi_salesorder_create/100/"
    + "zws_bapi_salesorder_create_sev/zws_bapi_salesorder_create_binding"

  const SoapAction: string :=
    "urn:sap-com:document:sap:rfc:functions:ZWS_BAPI_SALESORDER_CREATE:ZBAPI_SALESORDER_CREATERequest"

  const ContentType: string := "text/xml; charset=utf-8"

  /** What `callSalesOrderService` throws before it sends anything. */
  datatype CallError =
    | EndpointRequired           // "SOAP endpoint URL is required"
    | CredentialsRequired        // "SOAP basic auth username/password are required"
    | InvalidPayload(e: BuildError)

  /** The POST that would be sent; the Basic credentials are kept as given. */
  datatype Request = Request(
    url: string, body: string, soapAction: string, contentType: string,
    username: string, password: string)

  /** The `endpoint = DEFAULT_ENDPOINT` default: it applies to `undefined` only. */
  function ResolveEndpoint(endpoint: Value): Value {
    if endpoint.Undefined? then Str(DefaultEndpoint) else endpoint
  }

  /** `if (!endpoint) throw ...; if (!username || !password) throw ...` */
  function CheckArguments(endpoint: Value, username: Value, password: Value): Result<string, CallError> {
    var url := ResolveEndpoint(endpoint);
    if IsFalsy(url) then Err(EndpointRequired)
    else if IsFalsy(username) || IsFalsy(password) then Err(CredentialsRequired)
    else Ok(url.s)
  }

  /** The guards, then the envelope: the request `callSalesOrderService` would send,
      or what it throws first. */
  function PrepareRequest(payload: Payload, endpoint: Value, username: Value, password: Value)
    : Result<Request, CallError>
  {
    match CheckArguments(endpoint, username, password)
    case Err(e) => Err(e)
    case Ok(url) =>
      match BuildSalesOrderEnvelope(payload)
      case Err(e) => Err(InvalidPayload(e))
      case Ok(envelope) => Ok(Request(url, envelope, SoapAction, ContentType, username.s, password.s))
  }

  // ---------------------------------------------------------------------------

  /** The guards pass exactly when the endpoint (after the default) and both
      credentials are truthy; the endpoint is checked first. */
  lemma CheckArgumentsSpec(endpoint: Value, username: Value, password: Value)
    ensures CheckArguments(endpoint, username, password).Ok? <==>
              !IsFalsy(ResolveEndpoint(endpoint)) && !IsFalsy(username) && !IsFalsy(password)
    ensures IsFalsy(ResolveEndpoint(endpoint)) ==>
              CheckArguments(endpoint, username, password) == Err(EndpointRequired)
    ensures !IsFalsy(ResolveEndpoint(endpoint)) && (IsFalsy(username) || IsFalsy(password)) ==>
              CheckArguments(endpoint, username, password) == Err(CredentialsRequired)
    ensures endpoint.Undefined? && CheckArguments(endpoint, username, password).Ok? ==>
              CheckArguments(endpoint, username, password).value == DefaultEndpoint
  {
  }

  /** An omitted endpoint never fails the endpoint guard; `null` and "" do. */
  lemma EndpointGuard(endpoint: Value, username: Value, password: Value)
    ensures endpoint.Undefined? ==> CheckArguments(endpoint, username, password) != Err(EndpointRequired)
    ensures endpoint.Null? || endpoint == Str("") ==>
              CheckArguments(endpoint, username, password) == Err(EndpointRequired)
  {
  }

  /** Both guards run before the envelope is built: when one fails, the payload
      makes no difference, and no request is produced. */
  lemma GuardsBeforeEnvelope(payload: Payload, other: Payload, endpoint: Value, username: Value, password: Value)
    requires CheckArguments(endpoint, username, password).Err?
    ensures PrepareRequest(payload, endpoint, username, password)
            == PrepareRequest(other, endpoint, username, password)
            == Err(CheckArguments(endpoint, username, password).error)
  {
  }

  /** A request is produced exactly when the guards pass and the envelope is built;
      it is posted to the resolved endpoint, with the envelope as its body and the
      fixed SOAPAction and content type.  A payload error surfaces only once the
      guards have passed. */
  lemma PrepareRequestSpec(payload: Payload, endpoint: Value, username: Value, password: Value)
    ensures PrepareRequest(payload, endpoint, username, password).Ok? <==>
              CheckArguments(endpoint, username, password).Ok? && BuildSalesOrderEnvelope(payload).Ok?
    ensures PrepareRequest(payload, endpoint, username, password).Ok? ==>
              var request := PrepareRequest(payload, endpoint, username, password).value;
              && request.url == CheckArguments(endpoint, username, password).value
              && request.body == BuildSalesOrderEnvelope(payload).value
              && request.soapAction == SoapAction
              && request.contentType == ContentType
              && Str(request.username) == username && Str(request.password) == password
    ensures PrepareRequest(payload, endpoint, username, password).Err? &&
            PrepareRequest(payload, endpoint, username, password).error.InvalidPayload? ==>
              CheckArguments(endpoint, username, password).Ok?
              && BuildSalesOrderEnvelope(payload)
                 == Err(PrepareRequest(payload, endpoint, username, password).error.e)
  {
  }
}
