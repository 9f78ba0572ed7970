/**
 * The document validation client (document_validation.go): the answer of
 * validaCDPcriterios read first by status code, then by fault markers, then
 * through a structured decode with a textual fallback, and the accessors
 * callers use on the result.
 */
module DocumentValidation {
  import opened Wrappers
  import opened Text

  /** The record the client returns; responseXml is always the body it was given. */
  datatype ValidationResponse = ValidationResponse(
    success: bool,
    isValid: bool,
    statusMessage: string,
    errorMessage: string,
    responseXml: string)
  {
    predicate IsDocumentValid() {
      success && isValid
    }

    /** The status message, else the error message, else a fixed text: never empty. */
    function GetStatusDescription(): (d: string)
      ensures d != ""
      ensures statusMessage != "" ==> d == statusMessage
      ensures statusMessage == "" && errorMessage != "" ==> d == errorMessage
    {
      if statusMessage != "" then statusMessage
      else if errorMessage != "" then errorMessage
      else NoStatus
    }

    predicate HasError() {
      !success || errorMessage != ""
    }

    function GetErrorMessage(): string {
      errorMessage
    }
  }

  const NoStatus := "Sin informaci\U{F3}n de estado disponible"
  const LostCommunication := "Se ha perdido la comunicaci\U{F3}n con la SUNAT"
  const ParseError := "Error parsing SUNAT response"
  const NotFound := "Documento no encontrado o inv\U{E1}lido"

  const FaultMarker := "<soap-env:Fault"
  const FaultStringOpen := "<faultstring>"
  const ValidatedOpen := "<cdpvalidado>"

  /** The fields xml.Unmarshal fills in from Envelope/Body. */
  datatype SoapValidation = SoapValidation(
    statusCode: string,
    statusMessage: string,
    cdpValidated: string,
    faultCode: string,
    faultString: string)

  /** xml.Unmarshal into the envelope structure: None when it reports an error. */
  type Unmarshal = string -> Option<SoapValidation>

  /** A field of the body, or "" when the element is absent or unclosed. */
  function FieldOrEmpty(body: string, tag: string): string {
    match Extract(body, tag)
    case None => ""
    case Some(v) => v
  }

  predicate IsFault(body: string) {
    Contains(body, FaultMarker) || Contains(body, FaultStringOpen)
  }

  /** What parseValidationResponse makes of an answer, its HTTP status and the decoder's verdict. */
  function DocumentOutcome(body: string, httpCode: int, unmarshal: Unmarshal): ValidationResponse {
    if httpCode != 200 then ValidationResponse(false, false, "", LostCommunication, body)
    else if IsFault(body) then ValidationResponse(false, false, "", FieldOrEmpty(body, "faultstring"), body)
    else
      match unmarshal(body)
      case None =>
        if Contains(body, ValidatedOpen) then
          ValidationResponse(true, true, FieldOrEmpty(body, "statusMessage"), "", body)
        else ValidationResponse(false, false, "", ParseError, body)
      case Some(soap) =>
        if soap.faultCode != "" then ValidationResponse(false, false, "", soap.faultString, body)
        else if soap.cdpValidated != "" then ValidationResponse(true, true, soap.statusMessage, "", body)
        else ValidationResponse(false, false, "", NotFound, body)
  }

  /**
   * document_validation.go parseValidationResponse: the HTTP status, then the
   * fault markers, then the structured decode, each branch returning early.
   */
  method ParseValidationResponse(body: string, httpCode: int, unmarshal: Unmarshal) returns (r: ValidationResponse)
    ensures r == DocumentOutcome(body, httpCode, unmarshal)
  {
    r := ValidationResponse(false, false, "", "", body);
    if httpCode != 200 {
      r := r.(success := false, errorMessage := LostCommunication);
      return;
    }
    if Contains(body, FaultMarker) || Contains(body, FaultStringOpen) {
      r := r.(success := false);
      var message := FindElement(body, "faultstring");
      if message.Some? {
        r := r.(errorMessage := message.value);
      }
      return;
    }
    var soap := unmarshal(body);
    if soap.None? {
      if Contains(body, ValidatedOpen) {
        r := r.(success := true, isValid := true);
        var message := FindElement(body, "statusMessage");
        if message.Some? {
          r := r.(statusMessage := message.value);
        }
      } else {
        r := r.(success := false, errorMessage := ParseError);
      }
      return;
    }
    if soap.value.faultCode != "" {
      r := r.(success := false, errorMessage := soap.value.faultString);
      return;
    }
    if soap.value.cdpValidated != "" {
      r := r.(success := true, isValid := true, statusMessage := soap.value.statusMessage);
    } else {
      r := r.(success := false, errorMessage := NotFound);
    }
  }

  /** A status other than 200 fails with the fixed message whatever the body says. */
  lemma HttpFailureIgnoresBody(body1: string, body2: string, httpCode: int, unmarshal: Unmarshal)
    requires httpCode != 200
    ensures var r1, r2 := DocumentOutcome(body1, httpCode, unmarshal), DocumentOutcome(body2, httpCode, unmarshal);
      && !r1.success && !r1.isValid && r1.errorMessage == LostCommunication
      && r1.(responseXml := body2) == r2
  {
  }

  /** A fault marker fails before the decoder is consulted. */
  lemma FaultIgnoresDecoder(body: string, unmarshal1: Unmarshal, unmarshal2: Unmarshal)
    requires Contains(body, FaultMarker) || Contains(body, FaultStringOpen)
    ensures var r := DocumentOutcome(body, 200, unmarshal1);
      && !r.success && !r.isValid
      && r == DocumentOutcome(body, 200, unmarshal2)
  {
  }

  /**
   * The error message of a fault is the text of the first faultstring element
   * verbatim, with no entity decoded, or empty when there is none.
   */
  lemma FaultMessageVerbatim(body: string, unmarshal: Unmarshal)
    requires IsFault(body)
    ensures Extract(body, "faultstring").None? ==> DocumentOutcome(body, 200, unmarshal).errorMessage == ""
    ensures Extract(body, "faultstring").Some? ==> exists i, j ::
      && FieldAt(body, OpenTag("faultstring"), CloseTag("faultstring"), i, j)
      && DocumentOutcome(body, 200, unmarshal).errorMessage == body[i + 13..i + 13 + j]
  {
    FaultMessageIsField(body, unmarshal);
    if Extract(body, "faultstring").Some? {
      var tag := "faultstring";
      var i, j := ExtractAt(body, tag);
      assert |tag| + 2 == 13;
    }
  }

  lemma FaultMessageIsField(body: string, unmarshal: Unmarshal)
    requires IsFault(body)
    ensures DocumentOutcome(body, 200, unmarshal).errorMessage == FieldOrEmpty(body, "faultstring")
  {
  }

  /** The fallback when decoding fails: valid exactly when a cdpvalidado element opens, else the parse error. */
  lemma FallbackOnDecodeError(body: string, unmarshal: Unmarshal)
    requires !IsFault(body) && unmarshal(body).None?
    ensures var r := DocumentOutcome(body, 200, unmarshal);
      && (r.success <==> Contains(body, ValidatedOpen))
      && r.isValid == r.success
      && (!r.success ==> r.errorMessage == ParseError)
  {
  }

  /** After a structured decode: a fault code fails, else a cdpvalidado value makes the document valid, else it is not found. */
  lemma StructuredOutcome(body: string, unmarshal: Unmarshal)
    requires !IsFault(body) && unmarshal(body).Some?
    ensures var soap, r := unmarshal(body).value, DocumentOutcome(body, 200, unmarshal);
      && (soap.faultCode != "" ==> !r.success && r.errorMessage == soap.faultString)
      && (soap.faultCode == "" ==> (r.isValid <==> soap.cdpValidated != ""))
      && (soap.faultCode == "" && soap.cdpValidated == "" ==> r.errorMessage == NotFound)
  {
  }

  /**
   * On every path validity implies success, so IsDocumentValid is IsValid; a
   * successful result carries no error message, so HasError is exactly the
   * failure; and the body is kept.
   */
  lemma OutcomeConsistent(body: string, httpCode: int, unmarshal: Unmarshal)
    ensures var r := DocumentOutcome(body, httpCode, unmarshal);
      && (r.isValid ==> r.success)
      && (r.IsDocumentValid() <==> r.isValid)
      && (r.HasError() <==> !r.success)
      && r.responseXml == body
  {
  }

  /** A failure whose error message is empty (an unclosed or empty faultstring) still reports the fixed description. */
  lemma DescriptionOfEmptyFault(r: ValidationResponse)
    requires r.statusMessage == "" && r.errorMessage == ""
    ensures r.GetStatusDescription() == NoStatus
  {
  }

  // ---------------------------------------------------------------------
  // ValidateDocument
  // ---------------------------------------------------------------------

  datatype ValidationRequest = ValidationRequest(
    ruc: string,
    documentType: string,
    series: string,
    number: string,
    issueDate: string,
    totalAmount: string,
    recipientDocumentType: string,
    recipientDocument: string,
    authorizationNumber: string)

  /** The request ValidateDocument writes into the envelope: an empty recipient type becomes "-". */
  function WithDefaults(req: ValidationRequest): (r: ValidationRequest)
    ensures r.recipientDocumentType != ""
    ensures req.recipientDocumentType != "" ==> r == req
    ensures r.(recipientDocumentType := req.recipientDocumentType) == req
  {
    if req.recipientDocumentType == "" then req.(recipientDocumentType := "-") else req
  }

  /** Applying the defaults twice changes nothing more. */
  lemma WithDefaultsIdempotent(req: ValidationRequest)
    ensures WithDefaults(WithDefaults(req)) == WithDefaults(req)
  {
  }
}
