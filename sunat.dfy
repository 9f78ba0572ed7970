/**
 * The sendBill side of the SUNAT client (sunat.go): the classifier of the
 * SOAP answer to sendBill and the guard in front of signing.
 *
 * Bodies are text; the base64 decoder is a parameter, a partial function
 * from text to bytes (section 4 of RFC 4648 is not modelled).
 */
module Sunat {
  import opened Wrappers
  import opened Text

  type Bytes = seq<bv8>

  /** base64.StdEncoding.DecodeString: the bytes, or None when the text is not valid base64. */
  type Base64Decoder = string -> Option<Bytes>

  /** The record parseResponse returns; ApplicationResponse is None where the source leaves it nil. */
  datatype SunatResponse = SunatResponse(
    success: bool,
    message: string,
    responseXml: string,
    applicationResponse: Option<Bytes>)

  const SendBillFaultMarker := "<soap-env:Fault"
  const SendBillMarker := "<br:sendBillResponse"
  const SendBillOk := "Documento enviado exitosamente"
  const Unrecognised := "Respuesta no reconocida de SUNAT"

  /** The only entity the sendBill fault message decodes: `&#243;` becomes `ó`. */
  function DecodeOacute(m: string): string {
    ReplaceAll(m, "&#243;", "\U{F3}")
  }

  /** The fault message: the first faultstring, decoded, or "" when there is none or it is unclosed. */
  function FaultMessage(body: string): string {
    match Extract(body, "faultstring")
    case None => ""
    case Some(m) => DecodeOacute(m)
  }

  /** The application response: the first applicationResponse text when it decodes. */
  function ApplicationResponseOf(body: string, decode: Base64Decoder): Option<Bytes> {
    match Extract(body, "applicationResponse")
    case None => None
    case Some(b) => decode(b)
  }

  /** What parseResponse makes of a sendBill answer: fault first, then success, else unrecognised. */
  function SendBillOutcome(body: string, decode: Base64Decoder): SunatResponse {
    if Contains(body, SendBillFaultMarker) then
      SunatResponse(false, FaultMessage(body), body, None)
    else if Contains(body, SendBillMarker) then
      SunatResponse(true, SendBillOk, body, ApplicationResponseOf(body, decode))
    else
      SunatResponse(false, Unrecognised, body, None)
  }

  /**
   * sunat.go parseResponse: fills the response step by step, locating each
   * field by searching the body, and never fails.
   */
  method ParseResponse(body: string, decode: Base64Decoder) returns (r: SunatResponse)
    ensures r == SendBillOutcome(body, decode)
  {
    r := SunatResponse(false, "", body, None);
    if Contains(body, SendBillFaultMarker) {
      r := r.(success := false);
      var message := FindElement(body, "faultstring");
      if message.Some? {
        r := r.(message := ReplaceAll(message.value, "&#243;", "\U{F3}"));
      }
      return;
    }
    if Contains(body, SendBillMarker) {
      r := r.(success := true, message := SendBillOk);
      var b64 := FindElement(body, "applicationResponse");
      if b64.Some? {
        var decoded := decode(b64.value);
        if decoded.Some? {
          r := r.(applicationResponse := decoded);
        }
      }
      return;
    }
    r := r.(success := false, message := Unrecognised);
  }

  /** The answer is a success exactly when it has the sendBill marker and no fault marker; the raw body is always kept. */
  lemma SendBillSuccessIff(body: string, decode: Base64Decoder)
    ensures SendBillOutcome(body, decode).success
      <==> !Contains(body, SendBillFaultMarker) && Contains(body, SendBillMarker)
    ensures SendBillOutcome(body, decode).responseXml == body
  {
  }

  /** The fault check comes first: a fault wins over a success marker, and a fault carries no application response. */
  lemma SendBillFaultWins(body: string, decode: Base64Decoder)
    requires Contains(body, SendBillFaultMarker) && Contains(body, SendBillMarker)
    ensures !SendBillOutcome(body, decode).success
    ensures SendBillOutcome(body, decode).applicationResponse == None
    ensures SendBillOutcome(body, decode).message == FaultMessage(body)
  {
  }

  /** An application response appears only on a success, and it is the decoded applicationResponse field. */
  lemma SendBillApplicationResponse(body: string, decode: Base64Decoder)
    requires SendBillOutcome(body, decode).applicationResponse.Some?
    ensures SendBillOutcome(body, decode).success
    ensures SendBillOutcome(body, decode).applicationResponse == ApplicationResponseOf(body, decode)
  {
  }

  /**
   * The application response comes from the text between the first
   * `<applicationResponse>` and the first `</applicationResponse>` after it,
   * and only when the decoder accepts that text.
   */
  lemma ApplicationResponseFound(body: string, decode: Base64Decoder)
    requires ApplicationResponseOf(body, decode).Some?
    ensures exists i, j ::
      && FieldAt(body, OpenTag("applicationResponse"), CloseTag("applicationResponse"), i, j)
      && decode(body[i + 21..i + 21 + j]) == ApplicationResponseOf(body, decode)
  {
    var tag := "applicationResponse";
    var i, j := ExtractAt(body, tag);
    assert |tag| + 2 == 21;
  }

  /** Without a closed faultstring, the fault message is empty. */
  lemma SendBillFaultWithoutString(body: string, decode: Base64Decoder)
    requires Contains(body, SendBillFaultMarker) && !Contains(body, "<faultstring>")
    ensures SendBillOutcome(body, decode) == SunatResponse(false, "", body, None)
  {
    FaultStringTags();
    BetweenNoOpen(body, OpenTag("faultstring"), CloseTag("faultstring"));
  }

  lemma FaultStringTags()
    ensures OpenTag("faultstring") == "<faultstring>" && CloseTag("faultstring") == "</faultstring>"
  {
  }

  /** An XML signer: the signed bytes, or an error text. */
  type Signer = Bytes -> Result<Bytes, string>

  const NoCertificate := "certificate not configured - use SetCertificate() first"

  /**
   * sunat.go SignXML: without a configured signer it fails before anything else;
   * then the xmlsec1 availability check (None when available), then signing.
   */
  function SignXml(signer: Option<Signer>, xmlsecCheck: Option<string>, xml: Bytes): (r: Result<Bytes, string>)
    ensures signer.None? ==> r == Failure(NoCertificate)
    ensures r.Success? <==> signer.Some? && xmlsecCheck.None? && signer.value(xml).Success?
    ensures r.Success? ==> r.value == signer.value(xml).value
    ensures signer.Some? && xmlsecCheck.Some? ==> r == Failure(xmlsecCheck.value)
    ensures signer.Some? && xmlsecCheck.None? && signer.value(xml).Failure?
      ==> r == Failure("failed to sign XML: " + signer.value(xml).error)
  {
    match signer
    case None => Failure(NoCertificate)
    case Some(sign) =>
      if xmlsecCheck.Some? then Failure(xmlsecCheck.value)
      else
        match sign(xml)
        case Failure(e) => Failure("failed to sign XML: " + e)
        case Success(signed) => Success(signed)
  }
}
