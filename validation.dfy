/**
 * The validity check of issued documents (validation.go): the parameters the
 * client formats for SUNAT's validaCDPcriterios service and the classifier of
 * its answer, which reads the status message for eight phrases and combines
 * them by successive overrides.
 */
module Validation {
  import opened Wrappers
  import opened Text
  import opened Decimal
  import opened Dates

  // ---------------------------------------------------------------------
  // parseValidationResponse
  // ---------------------------------------------------------------------

  /** The record parseValidationResponse returns; ResponseXML is stored afterwards by the transport and is not modelled. */
  datatype ValidationResult = ValidationResult(
    success: bool,
    isValid: bool,
    statusCode: string,
    statusMessage: string,
    errorDetails: string,
    state: string)

  const Valido := "VALIDO"
  const Anulado := "ANULADO"
  const Rechazado := "RECHAZADO"
  const NoInformado := "NO_INFORMADO"

  const UnknownCode := "UNKNOWN"
  const UnparsedMessage := "Unable to parse response"
  const UndeterminedDetails := "Estado no determinado"

  /** The eight phrases, in the order the source names them aux1..aux8. */
  const NotInRegistry := "no existe en los registros de SUNAT"
  const NotInformed := "no ha sido informada"
  const Withdrawn := "BAJA"
  const RejectedUpper := "RECHAZADO"
  const ValidReceipt := "es un comprobante de pago v\U{E1}lido"
  const Informed := "ha sido informada"
  const RejectedLower := "rechazada"
  const PrintAuthorised := "AUTORIZADO (Con autorizaci\U{F3}n de imprenta)"

  /** The phrases that make a message valid; "ha sido informada" counts only without "no ha sido informada". */
  predicate ValidSignal(m: string) {
    Contains(m, ValidReceipt) || (Contains(m, Informed) && !Contains(m, NotInformed)) || Contains(m, PrintAuthorised)
  }

  predicate RejectedSignal(m: string) {
    Contains(m, RejectedUpper) || Contains(m, RejectedLower)
  }

  predicate WithdrawnSignal(m: string) {
    Contains(m, Withdrawn)
  }

  /**
   * Reference classification by priority: valid beats rejected, rejected
   * beats withdrawn, and anything else is not informed.
   */
  function Classify(m: string): (state: string)
    ensures state in {Valido, Anulado, Rechazado, NoInformado}
  {
    if ValidSignal(m) then Valido
    else if RejectedSignal(m) then Rechazado
    else if WithdrawnSignal(m) then Anulado
    else NoInformado
  }

  /** The details the switch on the state writes, with its default arm. */
  function DetailsOf(state: string): string {
    if state == Valido then "Documento v\U{E1}lido en SUNAT"
    else if state == Anulado then "Documento anulado o dado de baja"
    else if state == Rechazado then "Documento rechazado por SUNAT"
    else if state == NoInformado then "Documento no informado a SUNAT"
    else UndeterminedDetails
  }

  /** A field of the answer, or its default when the element is absent or unclosed. */
  function FieldOr(body: string, tag: string, default: string): string {
    match Extract(body, tag)
    case None => default
    case Some(v) => v
  }

  /** What parseValidationResponse makes of an answer and its HTTP status. */
  function ValidationOutcome(body: string, httpStatusCode: int): ValidationResult {
    var message := FieldOr(body, "statusMessage", UnparsedMessage);
    var state := Classify(message);
    ValidationResult(
      httpStatusCode == 200, state == Valido, FieldOr(body, "statusCode", UnknownCode),
      message, DetailsOf(state), state)
  }

  /**
   * validation.go parseValidationResponse: the two fields with their defaults,
   * then the state, overwritten by each later signal that matches, then the
   * validity and details the state selects.
   */
  method ParseValidationResponse(body: string, httpStatusCode: int) returns (r: ValidationResult)
    ensures r == ValidationOutcome(body, httpStatusCode)
  {
    r := ValidationResult(httpStatusCode == 200, false, UnknownCode, UnparsedMessage, "", UnknownCode);
    var code := FindElement(body, "statusCode");
    if code.Some? {
      r := r.(statusCode := code.value);
    }
    var message := FindElement(body, "statusMessage");
    if message.Some? {
      r := r.(statusMessage := message.value);
    }
    var state := StateOf(r.statusMessage);
    if state == Valido {
      r := r.(isValid := true, errorDetails := DetailsOf(Valido));
    } else if state == Anulado {
      r := r.(isValid := false, errorDetails := DetailsOf(Anulado));
    } else if state == Rechazado {
      r := r.(isValid := false, errorDetails := DetailsOf(Rechazado));
    } else if state == NoInformado {
      r := r.(isValid := false, errorDetails := DetailsOf(NoInformado));
    } else {
      r := r.(isValid := false, errorDetails := UndeterminedDetails);
    }
    r := r.(state := state);
  }

  /** The eight phrase flags and the overrides in source order: not informed, withdrawn, rejected, valid. */
  method StateOf(message: string) returns (state: string)
    ensures state == Classify(message)
  {
    var aux1 := Contains(message, NotInRegistry);
    var aux2 := Contains(message, NotInformed);
    var aux3 := Contains(message, Withdrawn);
    var aux4 := Contains(message, RejectedUpper);
    var aux5 := Contains(message, ValidReceipt);
    var aux6 := Contains(message, Informed);
    var aux7 := Contains(message, RejectedLower);
    var aux8 := Contains(message, PrintAuthorised);
    state := NoInformado;
    if aux1 || aux2 {
      state := NoInformado;
    }
    if aux3 {
      state := Anulado;
    }
    if aux4 || aux7 {
      state := Rechazado;
    }
    if aux5 || (aux6 && !aux2) || aux8 {
      state := Valido;
    }
  }

  /**
   * The state is always one of the four known ones: the initial "UNKNOWN"
   * never survives and the default arm of the switch is never taken. The
   * document is valid exactly in state VALIDO.
   */
  lemma StateAlwaysKnown(body: string, httpStatusCode: int)
    ensures var r := ValidationOutcome(body, httpStatusCode);
      && r.state in {Valido, Anulado, Rechazado, NoInformado}
      && r.errorDetails != UndeterminedDetails
      && (r.isValid <==> r.state == Valido)
  {
  }

  /** Success is the HTTP status alone: two answers with the same status agree on it, whatever their bodies. */
  lemma SuccessIsHttpStatus(body1: string, body2: string, httpStatusCode: int)
    ensures ValidationOutcome(body1, httpStatusCode).success == (httpStatusCode == 200)
    ensures ValidationOutcome(body1, httpStatusCode).success == ValidationOutcome(body2, httpStatusCode).success
  {
  }

  /** A later signal overrides an earlier one: a valid phrase wins over rejection and withdrawal, rejection over withdrawal. */
  lemma LaterSignalWins(m: string)
    ensures Contains(m, ValidReceipt) ==> Classify(m) == Valido
    ensures Contains(m, PrintAuthorised) ==> Classify(m) == Valido
    ensures !ValidSignal(m) && RejectedSignal(m) ==> Classify(m) == Rechazado
    ensures !ValidSignal(m) && !RejectedSignal(m) && WithdrawnSignal(m) ==> Classify(m) == Anulado
  {
  }

  /** Every "no ha sido informada" contains "ha sido informada", so that phrase never counts as valid on its own there. */
  lemma NotInformedContainsInformed(m: string)
    requires Contains(m, NotInformed)
    ensures Contains(m, Informed)
    ensures !(Contains(m, Informed) && !Contains(m, NotInformed))
  {
    PhraseSuffix(NotInformed);
    ContainsTransitive(m, NotInformed, Informed);
  }

  lemma PhraseSuffix(p: string)
    requires p == NotInformed
    ensures Contains(p, Informed)
  {
    assert p[3..3 + |Informed|] == Informed;
    ContainsAt(p, Informed, 3);
  }

  /** "no ha sido informada" with no other phrase leaves the document not informed. */
  lemma NotInformedAlone(m: string)
    requires Contains(m, NotInformed)
    requires !Contains(m, ValidReceipt) && !Contains(m, PrintAuthorised)
    requires !RejectedSignal(m) && !WithdrawnSignal(m)
    ensures Classify(m) == NoInformado
  {
  }

  /** A message saying both "no ha sido informada" and "es un comprobante de pago válido" resolves to valid. */
  lemma MixedMessageIsValid(m: string)
    requires Contains(m, NotInformed) && Contains(m, ValidReceipt)
    ensures Classify(m) == Valido
  {
  }

  /** Without a closed statusMessage element the default message stands, and it classifies as not informed. */
  lemma UnparsedIsNotInformed(body: string, httpStatusCode: int)
    requires Extract(body, "statusMessage").None?
    ensures var r := ValidationOutcome(body, httpStatusCode);
      r.statusMessage == UnparsedMessage && r.state == NoInformado && !r.isValid
  {
    DefaultMessageSignals(UnparsedMessage);
  }

  lemma DefaultMessageSignals(m: string)
    requires m == UnparsedMessage
    ensures Classify(m) == NoInformado
  {
    forall k | 0 <= k < |m| ensures m[k] in {'U', 'n', 'a', 'b', 'l', 'e', ' ', 't', 'o', 'p', 'r', 's'} {
    }
    NoSignals(m);
  }

  /** A message lacking these five letters carries none of the phrases the classifier looks for. */
  lemma NoSignals(m: string)
    requires 'c' !in m && 'h' !in m && 'A' !in m && 'R' !in m && 'B' !in m
    ensures Classify(m) == NoInformado
  {
    var p := "es un " + "compro" + "bante de pago v\U{E1}lido";
    assert p == ValidReceipt && p[6] == 'c';
    assert PrintAuthorised[0] == 'A' && Informed[0] == 'h' && RejectedUpper[0] == 'R';
    assert RejectedLower[2] == 'c' && Withdrawn[0] == 'B';
    AbsentChar(m, ValidReceipt, 'c');
    AbsentChar(m, PrintAuthorised, 'A');
    AbsentChar(m, Informed, 'h');
    AbsentChar(m, RejectedUpper, 'R');
    AbsentChar(m, RejectedLower, 'c');
    AbsentChar(m, Withdrawn, 'B');
  }

  /**
   * The status code field is the first statusCode element's text, "UNKNOWN"
   * when absent or unclosed; StatusCodeIsField says the outcome reports it.
   */
  lemma StatusCodeField(body: string)
    ensures Extract(body, "statusCode").None? ==> FieldOr(body, "statusCode", UnknownCode) == UnknownCode
    ensures Extract(body, "statusCode").Some? ==> exists i, j ::
      && FieldAt(body, OpenTag("statusCode"), CloseTag("statusCode"), i, j)
      && FieldOr(body, "statusCode", UnknownCode) == body[i + 12..i + 12 + j]
  {
    if Extract(body, "statusCode").Some? {
      var tag := "statusCode";
      var i, j := ExtractAt(body, tag);
      assert |tag| + 2 == 12;
    }
  }

  /** The outcome's status code is the statusCode field, whatever the HTTP status and the message. */
  lemma StatusCodeIsField(body: string, httpStatusCode: int)
    ensures ValidationOutcome(body, httpStatusCode).statusCode == FieldOr(body, "statusCode", UnknownCode)
  {
  }

  // ---------------------------------------------------------------------
  // formatDateForSUNAT, formatValidationParams
  // ---------------------------------------------------------------------

  /**
   * validation.go formatDateForSUNAT: "" is refused, then a text time.Parse
   * rejects for the layout 2006-01-02, else the same day as 02/01/2006.
   */
  function FormatDateForSunat(dateStr: string): (r: Result<string, string>)
    ensures dateStr == "" ==> r == Failure("date cannot be empty")
    ensures r.Success? <==> ParseIso(dateStr).Some?
    ensures r.Success? ==> r.value == FormatSlashes(ParseIso(dateStr).value)
  {
    if dateStr == "" then Failure("date cannot be empty")
    else
      match ParseIso(dateStr)
      case None => Failure("cannot parse date '" + dateStr + "'")
      case Some(d) => Success(FormatSlashes(d))
  }

  /** An accepted date keeps its digits: DD, MM and YYYY are the day, month and year fields of the input. */
  lemma FormatDateSameDay(dateStr: string)
    requires FormatDateForSunat(dateStr).Success?
    ensures var out := FormatDateForSunat(dateStr).value;
      && |out| == 10 && out[2] == '/' && out[5] == '/'
      && out[..2] == dateStr[8..] && out[3..5] == dateStr[5..7] && out[6..] == dateStr[..4]
  {
    var d := ParseIso(dateStr).value;
    FormatParseIso(dateStr);
    var y, m, n := PadNat(d.year, 4), PadNat(d.month, 2), PadNat(d.day, 2);
    assert |y| == 4 && |m| == 2 && |n| == 2 by {
      assert FormatIso(d) == y + "-" + m + "-" + n;
      assert Power10(2) == 100 && Power10(4) == 10000;
      PadRoundTrip(d.year, 4);
      PadRoundTrip(d.month, 2);
      PadRoundTrip(d.day, 2);
    }
    assert dateStr == y + "-" + m + "-" + n;
    assert dateStr[..4] == y && dateStr[5..7] == m && dateStr[8..] == n;
    var out := FormatSlashes(d);
    assert out == n + "/" + m + "/" + y;
    assert out[..2] == n && out[3..5] == m && out[6..] == y;
  }

  /** Every valid date is accepted in its 2006-01-02 form and comes out in the 02/01/2006 form. */
  lemma FormatDateOfValid(d: Date)
    requires ValidDate(d)
    ensures FormatDateForSunat(FormatIso(d)) == Success(FormatSlashes(d))
  {
    ParseFormatIso(d);
  }

  /** The caller's parameters; the float amount is given in integer cents. */
  datatype ValidationParams = ValidationParams(
    issuerRuc: string,
    documentType: string,
    seriesNumber: string,
    documentNumber: string,
    recipientDocType: string,
    recipientDocNumber: string,
    issueDate: string,
    totalCents: int,
    authorizationNumber: string)

  /** The parameters as the request writes them. */
  datatype FormattedParams = FormattedParams(
    rucEmisor: string,
    tipoCdp: string,
    serieCdp: string,
    numeroCdp: string,
    tipoDocIdReceptor: string,
    numeroDocIdReceptor: string,
    fechaEmision: string,
    importeTotal: string,
    nroAutorizacion: string,
    fullUsername: string,
    password: string)

  /** `%.2f` of an amount given exactly in cents: sign, whole units, a point and two digits. */
  function FormatCents(cents: int): string {
    var a := if cents < 0 then -cents else cents;
    (if cents < 0 then "-" else "") + NatToString(a / 100) + "." + PadNat(a % 100, 2)
  }

  /** The written amount reads back: whole units before the point, two digits of cents after it. */
  lemma FormatCentsRoundTrip(cents: nat)
    ensures var s := FormatCents(cents);
      && |s| >= 4 && s[|s| - 3] == '.'
      && AllDigits(s[..|s| - 3]) && AllDigits(s[|s| - 2..])
      && 100 * ParseNat(s[..|s| - 3]) + ParseNat(s[|s| - 2..]) == cents
  {
    var w, f := NatToString(cents / 100), PadNat(cents % 100, 2);
    var s := FormatCents(cents);
    assert Power10(2) == 100;
    PadRoundTrip(cents % 100, 2);
    ParseNatToString(cents / 100);
    assert s == w + "." + f;
    assert s[..|s| - 3] == w && s[|s| - 2..] == f;
  }

  /**
   * validation.go formatValidationParams: issuer RUC, series and number must
   * be present, in that order, before the date is converted; the recipient
   * type defaults to "-" and the user name is the master RUC followed by the
   * master user.
   */
  function FormatValidationParams(p: ValidationParams, masterRuc: string, masterUsername: string, masterPassword: string)
    : (r: Result<FormattedParams, string>)
    ensures p.issuerRuc == "" ==> r == Failure("issuer RUC cannot be empty")
    ensures p.issuerRuc != "" && p.seriesNumber == "" ==> r == Failure("series number cannot be empty")
    ensures p.issuerRuc != "" && p.seriesNumber != "" && p.documentNumber == ""
      ==> r == Failure("document number cannot be empty")
    ensures r.Success? <==>
      && p.issuerRuc != "" && p.seriesNumber != "" && p.documentNumber != ""
      && FormatDateForSunat(p.issueDate).Success?
    ensures r.Success? ==>
      && r.value.fechaEmision == FormatDateForSunat(p.issueDate).value
      && r.value.tipoDocIdReceptor == (if p.recipientDocType == "" then "-" else p.recipientDocType)
      && r.value.numeroDocIdReceptor == p.recipientDocNumber
      && r.value.fullUsername == masterRuc + masterUsername
      && r.value.importeTotal == FormatCents(p.totalCents)
      && r.value.rucEmisor == p.issuerRuc && r.value.serieCdp == p.seriesNumber && r.value.numeroCdp == p.documentNumber
    ensures r.Success? ==>
      && r.value.tipoCdp == p.documentType && r.value.nroAutorizacion == p.authorizationNumber
      && r.value.password == masterPassword
    ensures p.issuerRuc != "" && p.seriesNumber != "" && p.documentNumber != "" && FormatDateForSunat(p.issueDate).Failure?
      ==> r == Failure("invalid issue date format: " + FormatDateForSunat(p.issueDate).error)
  {
    if p.issuerRuc == "" then Failure("issuer RUC cannot be empty")
    else if p.seriesNumber == "" then Failure("series number cannot be empty")
    else if p.documentNumber == "" then Failure("document number cannot be empty")
    else
      match FormatDateForSunat(p.issueDate)
      case Failure(e) => Failure("invalid issue date format: " + e)
      case Success(date) =>
        Success(FormattedParams(
          p.issuerRuc, p.documentType, p.seriesNumber, p.documentNumber,
          if p.recipientDocType == "" then "-" else p.recipientDocType,
          p.recipientDocNumber, date, FormatCents(p.totalCents), p.authorizationNumber,
          masterRuc + masterUsername, masterPassword))
  }

  /** A missing field is reported before a bad date is looked at. */
  lemma MissingFieldBeforeDate(p: ValidationParams, masterRuc: string, masterUsername: string, masterPassword: string)
    requires p.issuerRuc != "" && p.seriesNumber != "" && p.documentNumber == ""
    requires FormatDateForSunat(p.issueDate).Failure?
    ensures FormatValidationParams(p, masterRuc, masterUsername, masterPassword)
      == Failure("document number cannot be empty")
  {
  }
}
