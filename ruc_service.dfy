/**
 * Company look-ups by RUC (ruc_service.go): the format check the library
 * offers, and the length check both consultations make before any request,
 * followed by the two-step decoding of the answer.
 */
module RucService {
  import opened Wrappers
  import opened Decimal
  import opened Utils
  import opened Http

  /**
   * ruc_service.go IsValidRUC: eleven characters, all digits, the first one
   * '1' or '2'; no check digit is computed.
   */
  function IsValidRuc(ruc: string): (ok: bool)
    ensures ok ==> |ruc| == 11 && AllDigits(ruc)
    ensures |ruc| == 11 && AllDigits(ruc) ==> (ok <==> ruc[0] in {'1', '2'})
  {
    if |ruc| != 11 then false
    else if exists i :: 0 <= i < |ruc| && (ruc[i] < '0' || ruc[i] > '9') then false
    else ruc[0] == '1' || ruc[0] == '2'
  }

  /** A format-valid RUC whose check digit is wrong: this check and the checksum of utils.ValidateRUC disagree. */
  lemma FormatValidWithoutChecksum(ruc: string)
    requires ruc == "10000000000"
    ensures IsValidRuc(ruc) && !RucChecksumValid(ruc)
  {
    assert ruc[..10] == "1000000000";
    ChecksumOfLeadingDigit(ruc[..10], 1);
  }

  /** A RUC with a correct check digit that this check refuses for its first digit. */
  lemma ChecksumValidButRefused(ruc: string)
    requires ruc == "30000000007"
    ensures !IsValidRuc(ruc) && RucChecksumValid(ruc)
  {
    assert ruc[..10] == "3000000000";
    ChecksumOfLeadingDigit(ruc[..10], 3);
  }

  /** The check digit of a digit followed by nine zeros. */
  lemma ChecksumOfLeadingDigit(prefix: string, d: nat)
    requires d < 10 && |prefix| == 10 && AllDigits(prefix)
    requires DigitValue(prefix[0]) == d && forall i :: 1 <= i < 10 ==> prefix[i] == '0'
    ensures WeightedSum(prefix) == 5 * d
  {
    ZerosAfter(prefix, 10, d);
    assert prefix[..10] == prefix;
  }

  lemma {:induction false} ZerosAfter(prefix: string, k: nat, d: nat)
    requires 1 <= k <= |prefix| <= 10 && AllDigits(prefix)
    requires DigitValue(prefix[0]) == d && forall i :: 1 <= i < |prefix| ==> prefix[i] == '0'
    ensures WeightedSum(prefix[..k]) == 5 * d
    decreases k
  {
    if k == 1 {
      assert WeightedSum(prefix[..1][..0]) == 0;
    } else {
      ZerosAfter(prefix, k - 1, d);
      assert prefix[..k][..k - 1] == prefix[..k - 1];
    }
  }

  // ---------------------------------------------------------------------
  // ConsultBasic, ConsultFull
  // ---------------------------------------------------------------------

  /** The answer of both consultations, over the company record D of each. */
  datatype RucResponse<D> = RucResponse(success: bool, data: Option<D>, message: string)

  const WrongLength := "RUC debe tener 11 d\U{ED}gitos"

  function BasicUrl(baseUrl: string, ruc: string): string {
    baseUrl + "?numero=" + ruc
  }

  function FullUrl(baseUrl: string, ruc: string): string {
    baseUrl + "/full?numero=" + ruc
  }

  /**
   * The steps both consultations share after the length check: a transport or
   * read error gives no answer at all, its text (already prefixed as Go's
   * "error ejecutando request: " or "error leyendo respuesta: ") being the error; a status other than 200 a failure with
   * the body; then the body read as the bare record (kept when its RUC is not
   * empty), else as the wrapped answer, else a decode failure.
   */
  function Decoded<D(!new)>(
    reply: Result<HttpReply, string>,
    direct: string -> Option<D>, rucOf: D -> string,
    wrapped: string -> Result<RucResponse<D>, string>)
    : Result<RucResponse<D>, string>
  {
    match reply
    case Failure(err) => Failure(err)
    case Success(r) =>
      if r.statusCode != 200 then
        Success(RucResponse(false, None, "Error HTTP " + IntToString(r.statusCode) + ": " + r.body))
      else if direct(r.body).Some? && rucOf(direct(r.body).value) != "" then
        Success(RucResponse(true, direct(r.body), ConsultOk))
      else
        match wrapped(r.body)
        case Failure(err) =>
          Success(RucResponse(false, None, "Error parseando JSON: " + err + ". Raw response: " + r.body))
        case Success(answer) => Success(answer)
  }

  /** ruc_service.go ConsultBasic: a RUC not of length 11 is refused before the request; digits are not checked. */
  function ConsultBasic<D(!new)>(
    baseUrl: string, ruc: string, fetch: Fetch,
    direct: string -> Option<D>, rucOf: D -> string,
    wrapped: string -> Result<RucResponse<D>, string>)
    : (r: Result<RucResponse<D>, string>)
    ensures |ruc| != 11 ==> r == Success(RucResponse(false, None, WrongLength))
    ensures |ruc| == 11 ==> r == Decoded(fetch(BasicUrl(baseUrl, ruc)), direct, rucOf, wrapped)
  {
    if |ruc| != 11 then Success(RucResponse(false, None, WrongLength))
    else Decoded(fetch(BasicUrl(baseUrl, ruc)), direct, rucOf, wrapped)
  }

  /** ruc_service.go ConsultFull: the same check and steps, against the /full resource. */
  function ConsultFull<D(!new)>(
    baseUrl: string, ruc: string, fetch: Fetch,
    direct: string -> Option<D>, rucOf: D -> string,
    wrapped: string -> Result<RucResponse<D>, string>)
    : (r: Result<RucResponse<D>, string>)
    ensures |ruc| != 11 ==> r == Success(RucResponse(false, None, WrongLength))
    ensures |ruc| == 11 ==> r == Decoded(fetch(FullUrl(baseUrl, ruc)), direct, rucOf, wrapped)
  {
    if |ruc| != 11 then Success(RucResponse(false, None, WrongLength))
    else Decoded(fetch(FullUrl(baseUrl, ruc)), direct, rucOf, wrapped)
  }

  /** Every RUC IsValidRUC accepts passes the consultations' length check. */
  lemma ValidRucPassesLengthCheck<D(!new)>(
    baseUrl: string, ruc: string, fetch: Fetch,
    direct: string -> Option<D>, rucOf: D -> string,
    wrapped: string -> Result<RucResponse<D>, string>)
    requires IsValidRuc(ruc)
    ensures ConsultBasic(baseUrl, ruc, fetch, direct, rucOf, wrapped) == Decoded(fetch(BasicUrl(baseUrl, ruc)), direct, rucOf, wrapped)
    ensures ConsultFull(baseUrl, ruc, fetch, direct, rucOf, wrapped) == Decoded(fetch(FullUrl(baseUrl, ruc)), direct, rucOf, wrapped)
  {
  }

  /** The length check admits eleven characters that are not digits, which IsValidRUC refuses. */
  lemma LengthCheckAdmitsLetters<D(!new)>(
    baseUrl: string, ruc: string, fetch: Fetch,
    direct: string -> Option<D>, rucOf: D -> string,
    wrapped: string -> Result<RucResponse<D>, string>)
    requires ruc == "2060000000A"
    ensures !IsValidRuc(ruc)
    ensures ConsultBasic(baseUrl, ruc, fetch, direct, rucOf, wrapped) == Decoded(fetch(BasicUrl(baseUrl, ruc)), direct, rucOf, wrapped)
  {
    assert ruc[10] == 'A';
  }

  /** A bare record with a RUC wins over the wrapped reading; a success never comes from a status other than 200. */
  lemma DirectRecordWins<D(!new)>(
    reply: Result<HttpReply, string>,
    direct: string -> Option<D>, rucOf: D -> string,
    wrapped: string -> Result<RucResponse<D>, string>)
    requires reply.Success? && reply.value.statusCode == 200
    requires direct(reply.value.body).Some? && rucOf(direct(reply.value.body).value) != ""
    ensures Decoded(reply, direct, rucOf, wrapped) == Success(RucResponse(true, direct(reply.value.body), ConsultOk))
  {
  }

  /** A transport error yields no answer, only the error; a status other than 200 a failure that quotes the body. */
  lemma TransportAndStatusFailures<D(!new)>(
    reply: Result<HttpReply, string>,
    direct: string -> Option<D>, rucOf: D -> string,
    wrapped: string -> Result<RucResponse<D>, string>)
    ensures reply.Failure? ==> Decoded(reply, direct, rucOf, wrapped) == Failure(reply.error)
    ensures reply.Success? && reply.value.statusCode != 200 ==>
      var r := Decoded(reply, direct, rucOf, wrapped);
      r.Success? && !r.value.success && r.value.data.None?
  {
  }
}
