/**
 * Identity look-ups against the EsSalud service (dni_service.go): the format
 * checks of a DNI and of a foreigner's card (CE), the checks done before any
 * request, and the mapping of the service's record to the library's answer.
 */
module DniService {
  import opened Wrappers
  import opened Text
  import opened Decimal
  import opened Http

  datatype DniData = DniData(
    dni: string,
    nombreCompleto: string,
    nombres: string,
    apellidoPaterno: string,
    apellidoMaterno: string)

  /** The answer of ConsultDNI and ConsultCE; the birth date, sex and civil status fields are never filled and are not modelled. */
  datatype DniResponse = DniResponse(success: bool, data: Option<DniData>, message: string)

  /** The JSON record EsSalud answers with, in its two known layouts. */
  datatype EsSaludRecord = EsSaludRecord(
    datos: string,
    apellidos: string,
    nombres: string,
    numeroDocumento: string,
    tipoDocumento: string,
    apellidoPaterno: string,
    apellidoMaterno: string,
    nombreCompleto: string)

  /** json.Unmarshal into the EsSalud record: None when it reports an error. */
  type DecodeRecord = string -> Option<EsSaludRecord>

  const InvalidDni := "DNI debe tener 8 d\U{ED}gitos"
  const InvalidCe := "Carnet de Extranjer\U{ED}a debe tener entre 9 y 12 caracteres"
  const DniNotFound := "DNI no encontrado o inv\U{E1}lido"
  const CeNotFound := "Carnet de Extranjer\U{ED}a no encontrado o inv\U{E1}lido"
  const DecodeFailed := "Error parseando respuesta del servicio"

  function Failed(message: string): DniResponse {
    DniResponse(false, None, message)
  }

  // ---------------------------------------------------------------------
  // Format checks
  // ---------------------------------------------------------------------

  /** Eight characters, each '0'..'9'. */
  predicate DniShaped(dni: string) {
    |dni| == 8 && AllDigits(dni)
  }

  /** dni_service.go IsValidDNI: the length, then a scan that stops at the first non-digit. */
  method IsValidDni(dni: string) returns (ok: bool)
    ensures ok <==> DniShaped(dni)
  {
    if |dni| != 8 {
      return false;
    }
    for i := 0 to |dni|
      invariant forall k :: 0 <= k < i ==> IsDigit(dni[k])
    {
      if dni[i] < '0' || dni[i] > '9' {
        return false;
      }
    }
    return true;
  }

  /** dni_service.go IsValidCE: nine to twelve characters of any kind. */
  predicate IsValidCe(ce: string) {
    9 <= |ce| <= 12
  }

  /** The two documents never share a format: a valid DNI is too short for a CE, and a CE may hold letters. */
  lemma DniIsNotCe(dni: string)
    requires DniShaped(dni)
    ensures !IsValidCe(dni)
  {
  }

  /** A CE-valid text can hold letters, which a DNI cannot. */
  lemma CeAllowsLetters(ce: string)
    requires ce == "AB1234567"
    ensures IsValidCe(ce) && !DniShaped(ce) && !AllDigits(ce)
  {
    assert !IsDigit(ce[0]);
  }

  // ---------------------------------------------------------------------
  // ConsultDNI
  // ---------------------------------------------------------------------

  function DniUrl(baseUrl: string, dni: string): string {
    baseUrl + "?numero=" + dni + "&tipoDoc=01"
  }

  function CeUrl(baseUrl: string, ce: string): string {
    baseUrl + "?numero=" + ce + "&tipoDoc=04"
  }

  function ConnectionError(err: string): string {
    "Error de conexi\U{F3}n: " + err
  }

  /** The surnames strings.Fields finds: the first two, "" for each one missing. */
  function Surnames(apellidos: string): (string, string) {
    if apellidos == "" then ("", "")
    else
      var parts := Fields(apellidos);
      (if |parts| >= 1 then parts[0] else "", if |parts| >= 2 then parts[1] else "")
  }

  /** A record that passed the not-found check, in the library's shape. */
  function DniFromRecord(dni: string, rec: EsSaludRecord): DniResponse {
    var (paterno, materno) := Surnames(rec.apellidos);
    DniResponse(true, Some(DniData(dni, rec.datos, rec.nombres, paterno, materno)), ConsultOk)
  }

  /** What ConsultDNI answers for a DNI, given what the service and the decoder do. */
  function DniOutcome(baseUrl: string, dni: string, fetch: Fetch, decode: DecodeRecord): DniResponse {
    if !DniShaped(dni) then Failed(InvalidDni)
    else
      match fetch(DniUrl(baseUrl, dni))
      case Failure(err) => Failed(ConnectionError(err))
      case Success(reply) =>
        if reply.statusCode != 200 then
          Failed("Error HTTP " + IntToString(reply.statusCode) + ": " + reply.body)
        else
          match decode(reply.body)
          case None => Failed(DecodeFailed)
          case Some(rec) =>
            if rec.datos == "" && rec.nombreCompleto == "" then Failed(DniNotFound)
            else DniFromRecord(dni, rec)
  }

  /**
   * dni_service.go ConsultDNI: the format check, the GET, the status, the
   * decode and the not-found check, each failing early; then the mapping.
   */
  method ConsultDni(baseUrl: string, dni: string, fetch: Fetch, decode: DecodeRecord) returns (r: DniResponse)
    ensures r == DniOutcome(baseUrl, dni, fetch, decode)
  {
    var valid := IsValidDni(dni);
    if !valid {
      return Failed(InvalidDni);
    }
    var reply := fetch(DniUrl(baseUrl, dni));
    if reply.Failure? {
      return Failed(ConnectionError(reply.error));
    }
    if reply.value.statusCode != 200 {
      return Failed("Error HTTP " + IntToString(reply.value.statusCode) + ": " + reply.value.body);
    }
    var rec := decode(reply.value.body);
    if rec.None? {
      return Failed(DecodeFailed);
    }
    if rec.value.datos == "" && rec.value.nombreCompleto == "" {
      return Failed(DniNotFound);
    }
    r := MapDniRecord(dni, rec.value);
  }

  /** The mapping: the queried DNI, datos as the full name, then the surnames overwritten from the split. */
  method MapDniRecord(dni: string, rec: EsSaludRecord) returns (r: DniResponse)
    ensures r == DniFromRecord(dni, rec)
  {
    var data := DniData(dni, rec.datos, rec.nombres, "", "");
    if rec.apellidos != "" {
      var parts := Fields(rec.apellidos);
      if |parts| >= 1 {
        data := data.(apellidoPaterno := parts[0]);
      }
      if |parts| >= 2 {
        data := data.(apellidoMaterno := parts[1]);
      }
    }
    r := DniResponse(true, Some(data), ConsultOk);
  }

  /** A malformed DNI is refused before any request: the answer is the same whatever the service would do. */
  lemma DniRefusedBeforeRequest(baseUrl: string, dni: string, fetch1: Fetch, fetch2: Fetch, decode: DecodeRecord)
    requires !DniShaped(dni)
    ensures DniOutcome(baseUrl, dni, fetch1, decode) == Failed(InvalidDni)
    ensures DniOutcome(baseUrl, dni, fetch1, decode) == DniOutcome(baseUrl, dni, fetch2, decode)
  {
  }

  /**
   * Success exactly when the service answered 200 with a decodable record
   * carrying datos or nombreCompleto; a success always carries data for the
   * DNI that was queried, and a failure none.
   */
  lemma DniSuccessIff(baseUrl: string, dni: string, fetch: Fetch, decode: DecodeRecord)
    ensures var r := DniOutcome(baseUrl, dni, fetch, decode);
      && (r.success <==>
        && DniShaped(dni)
        && fetch(DniUrl(baseUrl, dni)).Success?
        && fetch(DniUrl(baseUrl, dni)).value.statusCode == 200
        && decode(fetch(DniUrl(baseUrl, dni)).value.body).Some?
        && (decode(fetch(DniUrl(baseUrl, dni)).value.body).value.datos != ""
          || decode(fetch(DniUrl(baseUrl, dni)).value.body).value.nombreCompleto != ""))
      && (r.success <==> r.data.Some?)
      && (r.success ==> r.data.value.dni == dni && r.message == ConsultOk)
  {
  }

  /** A record in the older layout (only nombreCompleto) passes the check but its full name is taken from the empty datos. */
  lemma DniOldLayoutLosesName(dni: string, rec: EsSaludRecord)
    requires rec.datos == "" && rec.nombreCompleto != ""
    ensures DniFromRecord(dni, rec).success && DniFromRecord(dni, rec).data.value.nombreCompleto == ""
  {
  }

  /** Surnames written as words separated by single spaces come back as the first two of them; any further word is dropped. */
  lemma SurnamesOfWords(ws: seq<string>)
    requires |ws| >= 1 && forall k :: 0 <= k < |ws| ==> IsWord(ws[k])
    ensures Surnames(JoinWords(ws)) == (ws[0], if |ws| >= 2 then ws[1] else "")
  {
    FieldsOfJoin(ws);
    JoinStartsWithWord(ws);
  }

  lemma JoinStartsWithWord(ws: seq<string>)
    requires |ws| >= 1 && IsWord(ws[0])
    ensures JoinWords(ws) != ""
  {
    if |ws| > 1 {
      assert JoinWords(ws) == ws[0] + " " + JoinWords(ws[1..]);
    }
  }

  /** The surnames are always words of the text or empty: never white space, never text from elsewhere. */
  lemma SurnamesAreFields(apellidos: string)
    ensures var (p, m) := Surnames(apellidos);
      && (p == "" || IsWord(p))
      && (m == "" || IsWord(m))
      && (m != "" ==> p != "")
  {
    if apellidos != "" {
      FieldsAreWords(apellidos);
    }
  }

  // ---------------------------------------------------------------------
  // ConsultCE
  // ---------------------------------------------------------------------

  /** What ConsultCE answers: unlike ConsultDNI the HTTP error omits the body and both number and name are required. */
  function CeOutcome(baseUrl: string, ce: string, fetch: Fetch, decode: DecodeRecord): DniResponse {
    if !IsValidCe(ce) then Failed(InvalidCe)
    else
      match fetch(CeUrl(baseUrl, ce))
      case Failure(err) => Failed(ConnectionError(err))
      case Success(reply) =>
        if reply.statusCode != 200 then Failed("Error HTTP " + IntToString(reply.statusCode))
        else
          match decode(reply.body)
          case None => Failed(DecodeFailed)
          case Some(rec) =>
            if rec.numeroDocumento == "" || rec.nombreCompleto == "" then Failed(CeNotFound)
            else
              DniResponse(true, Some(DniData(
                rec.numeroDocumento, rec.nombreCompleto, rec.nombres, rec.apellidoPaterno, rec.apellidoMaterno)), ConsultOk)
  }

  /** dni_service.go ConsultCE: the length check, the GET, the status, the decode, the not-found check, the copy. */
  method ConsultCe(baseUrl: string, ce: string, fetch: Fetch, decode: DecodeRecord) returns (r: DniResponse)
    ensures r == CeOutcome(baseUrl, ce, fetch, decode)
  {
    if |ce| < 9 || |ce| > 12 {
      return Failed(InvalidCe);
    }
    var reply := fetch(CeUrl(baseUrl, ce));
    if reply.Failure? {
      return Failed(ConnectionError(reply.error));
    }
    if reply.value.statusCode != 200 {
      return Failed("Error HTTP " + IntToString(reply.value.statusCode));
    }
    var rec := decode(reply.value.body);
    if rec.None? {
      return Failed(DecodeFailed);
    }
    if rec.value.numeroDocumento == "" || rec.value.nombreCompleto == "" {
      return Failed(CeNotFound);
    }
    var record := rec.value;
    r := DniResponse(true, Some(DniData(
      record.numeroDocumento, record.nombreCompleto, record.nombres, record.apellidoPaterno, record.apellidoMaterno)), ConsultOk);
  }

  /** A card number outside 9..12 characters is refused before any request. */
  lemma CeRefusedBeforeRequest(baseUrl: string, ce: string, fetch1: Fetch, fetch2: Fetch, decode: DecodeRecord)
    requires |ce| < 9 || |ce| > 12
    ensures CeOutcome(baseUrl, ce, fetch1, decode) == Failed(InvalidCe)
    ensures CeOutcome(baseUrl, ce, fetch1, decode) == CeOutcome(baseUrl, ce, fetch2, decode)
  {
  }

  /**
   * A found card copies the record's number and names unchanged; the number
   * reported is the service's, which need not be the one queried.
   */
  lemma CeCopiesRecord(baseUrl: string, ce: string, fetch: Fetch, decode: DecodeRecord)
    requires CeOutcome(baseUrl, ce, fetch, decode).success
    ensures var rec := decode(fetch(CeUrl(baseUrl, ce)).value.body).value;
      var data := CeOutcome(baseUrl, ce, fetch, decode).data.value;
      && data.dni == rec.numeroDocumento != ""
      && data.nombreCompleto == rec.nombreCompleto != ""
      && data.nombres == rec.nombres
      && data.apellidoPaterno == rec.apellidoPaterno && data.apellidoMaterno == rec.apellidoMaterno
  {
  }
}
