/**
 * The asynchronous side of the voided-documents communication
 * (voided_documents.go): the classifier of the sendSummary answer, the
 * ticket status record and its predicates, the classifier of the getStatus
 * answer, the polling loop and the batch query.
 *
 * The HTTP exchange behind QueryVoidedDocumentsTicket is a parameter; so are
 * the base64 decoder and the clock of the polling loop.
 */
module VoidedTickets {
  import opened Wrappers
  import opened Text
  import opened Sunat

  // ---------------------------------------------------------------------
  // parseVoidedDocumentsResponse
  // ---------------------------------------------------------------------

  /** The record parseVoidedDocumentsResponse returns; its Error field is never set there and is not modelled. */
  datatype VoidedDocumentsResponse = VoidedDocumentsResponse(
    success: bool,
    message: string,
    ticket: string,
    responseXml: string)

  const SummaryMarker := "<br:sendSummaryResponse"
  const SummaryOk := "Comunicaci\U{F3}n de baja enviada exitosamente"

  /** The ticket of a sendSummary answer: the first ticket element's text, or "" when absent or unclosed. */
  function TicketOf(body: string): string {
    match Extract(body, "ticket")
    case None => ""
    case Some(t) => t
  }

  /** What parseVoidedDocumentsResponse makes of a sendSummary answer. */
  function SummaryOutcome(body: string): VoidedDocumentsResponse {
    if Contains(body, SendBillFaultMarker) then
      VoidedDocumentsResponse(false, FaultMessage(body), "", body)
    else if Contains(body, SummaryMarker) then
      VoidedDocumentsResponse(true, SummaryOk, TicketOf(body), body)
    else
      VoidedDocumentsResponse(false, Unrecognised, "", body)
  }

  /** voided_documents.go parseVoidedDocumentsResponse: fault first, then the ticket of a sendSummary answer. */
  method ParseVoidedDocumentsResponse(body: string) returns (r: VoidedDocumentsResponse)
    ensures r == SummaryOutcome(body)
  {
    r := VoidedDocumentsResponse(false, "", "", body);
    if Contains(body, SendBillFaultMarker) {
      r := r.(success := false);
      var message := FindElement(body, "faultstring");
      if message.Some? {
        r := r.(message := ReplaceAll(message.value, "&#243;", "\U{F3}"));
      }
      return;
    }
    if Contains(body, SummaryMarker) {
      r := r.(success := true, message := SummaryOk);
      var ticket := FindElement(body, "ticket");
      if ticket.Some? {
        r := r.(ticket := ticket.value);
      }
      return;
    }
    r := r.(success := false, message := Unrecognised);
  }

  /** A sendSummary answer succeeds exactly when it has the summary marker and no fault marker; only a success carries a ticket. */
  lemma SummarySuccessIff(body: string)
    ensures SummaryOutcome(body).success <==> !Contains(body, SendBillFaultMarker) && Contains(body, SummaryMarker)
    ensures !SummaryOutcome(body).success ==> SummaryOutcome(body).ticket == ""
    ensures SummaryOutcome(body).responseXml == body
  {
  }

  /** A ticket written as `<ticket>t</ticket>` after text with no '<' is the ticket read back. */
  lemma SummaryTicketRoundTrip(pre: string, t: string, post: string)
    requires '<' !in pre && '<' !in t
    requires !Contains(pre + "<ticket>" + t + "</ticket>" + post, SendBillFaultMarker)
    requires Contains(pre + "<ticket>" + t + "</ticket>" + post, SummaryMarker)
    ensures SummaryOutcome(pre + "<ticket>" + t + "</ticket>" + post).ticket == t
  {
    TicketTags();
    ExtractWritten(pre, "ticket", t, post);
  }

  lemma TicketTags()
    ensures OpenTag("ticket") == "<ticket>" && CloseTag("ticket") == "</ticket>"
  {
  }

  // ---------------------------------------------------------------------
  // TicketStatusResponse
  // ---------------------------------------------------------------------

  /**
   * The ticket status record. ApplicationResponse is None where the source
   * leaves it nil; ProcessDate is never set by the source and is not modelled.
   */
  datatype TicketStatusResponse = TicketStatusResponse(
    success: bool,
    message: string,
    ticket: string,
    statusCode: string,
    statusDescription: string,
    responseXml: string,
    applicationResponse: Option<Bytes>,
    error: Option<string>)
  {
    /** Processed, successfully or with errors. */
    predicate IsProcessed() { statusCode == "0" || statusCode == "99" }

    predicate IsSuccessful() { statusCode == "0" }

    predicate IsInProgress() { statusCode == "98" }

    predicate HasErrors() { statusCode == "99" }

    /** The CDR is available: present and non-empty. */
    predicate HasApplicationResponse() { applicationResponse.Some? && |applicationResponse.value| > 0 }

    /** The fixed text of the three known codes, else the stored description. */
    function GetTicketStatusDescription(): string {
      StatusText(statusCode, statusDescription)
    }
  }

  /** GetTicketStatusDescription for a code and a stored description. */
  function StatusText(code: string, stored: string): string {
    if code == "0" then "Procesado correctamente"
    else if code == "98" then "En proceso"
    else if code == "99" then "Procesado con errores"
    else stored
  }

  /**
   * The predicates are exact comparisons with "0", "98" and "99": at most one
   * of the three outcomes holds, and processed means successful or with errors.
   */
  lemma StatusPredicates(r: TicketStatusResponse)
    ensures r.IsProcessed() <==> r.IsSuccessful() || r.HasErrors()
    ensures !(r.IsSuccessful() && r.IsInProgress())
    ensures !(r.IsSuccessful() && r.HasErrors())
    ensures !(r.IsInProgress() && r.HasErrors())
    ensures r.IsInProgress() ==> !r.IsProcessed()
  {
  }

  /** Any other code, however close ("00", " 0", ""), is none of the three. */
  lemma UnknownCodeDescription(r: TicketStatusResponse)
    requires r.statusCode != "0" && r.statusCode != "98" && r.statusCode != "99"
    ensures !r.IsProcessed() && !r.IsInProgress()
    ensures r.GetTicketStatusDescription() == r.statusDescription
  {
  }

  // ---------------------------------------------------------------------
  // parseTicketStatusResponse
  // ---------------------------------------------------------------------

  const SoapFaultMarker := "<soap:Fault"
  const StatusMarker := "<br:getStatusResponse"
  const StatusResponseName := "getStatusResponse"
  const TicketProcessed := "Comunicaci\U{F3}n de baja procesada exitosamente"
  const TicketInProgress := "Comunicaci\U{F3}n de baja en proceso de validaci\U{F3}n"
  const TicketWithErrors := "Comunicaci\U{F3}n de baja procesada con errores"
  const TicketUnrecognised := "Respuesta no reconocida de SUNAT para consulta de ticket"

  /** The four entities a getStatus fault message decodes, in source order: `&#243;`, `&lt;`, `&gt;`, then `&amp;`. */
  function DecodeFaultEntities(m: string): string {
    ReplaceAll(ReplaceAll(ReplaceAll(ReplaceAll(m, "&#243;", "\U{F3}"), "&lt;", "<"), "&gt;", ">"), "&amp;", "&")
  }

  /** The getStatus fault message: the first faultstring, decoded, or "". */
  function TicketFaultMessage(body: string): string {
    match Extract(body, "faultstring")
    case None => ""
    case Some(m) => DecodeFaultEntities(m)
  }

  /** Either SOAP fault marker. */
  predicate IsTicketFault(body: string) {
    Contains(body, SendBillFaultMarker) || Contains(body, SoapFaultMarker)
  }

  /** The status code: the first statusCode element's text, or "" when absent or unclosed. */
  function StatusCodeOf(body: string): string {
    match Extract(body, "statusCode")
    case None => ""
    case Some(c) => c
  }

  /** The CDR: the first content element's text when it decodes. */
  function ContentOf(body: string, decode: Base64Decoder): Option<Bytes> {
    match Extract(body, "content")
    case None => None
    case Some(b) => decode(b)
  }

  /** The message of each status code; "" (still unset) for any other code. */
  function StatusMessage(code: string): string {
    if code == "0" then TicketProcessed
    else if code == "98" then TicketInProgress
    else if code == "99" then TicketWithErrors
    else ""
  }

  /** What parseTicketStatusResponse makes of a getStatus answer for `ticket`. */
  function TicketOutcome(body: string, ticket: string, decode: Base64Decoder): TicketStatusResponse {
    if IsTicketFault(body) then
      TicketStatusResponse(false, TicketFaultMessage(body), ticket, "", "", body, None, None)
    else if Contains(body, StatusMarker) || Contains(body, StatusResponseName) then
      var code := StatusCodeOf(body);
      TicketStatusResponse(
        true, StatusMessage(code), ticket, code, StatusText(code, ""), body,
        if code == "0" || code == "99" then ContentOf(body, decode) else None,
        None)
    else
      TicketStatusResponse(false, TicketUnrecognised, ticket, "", "", body, None, None)
  }

  /**
   * voided_documents.go parseTicketStatusResponse: fills the record step by
   * step: the fault branch, else the status code, its description, the CDR
   * for codes "0" and "99" and the code's message.
   */
  method ParseTicketStatusResponse(body: string, ticket: string, decode: Base64Decoder)
    returns (r: TicketStatusResponse)
    ensures r == TicketOutcome(body, ticket, decode)
  {
    r := TicketStatusResponse(false, "", ticket, "", "", body, None, None);
    if Contains(body, SendBillFaultMarker) || Contains(body, SoapFaultMarker) {
      r := r.(success := false);
      var found := FindElement(body, "faultstring");
      if found.Some? {
        var message := found.value;
        message := ReplaceAll(message, "&#243;", "\U{F3}");
        message := ReplaceAll(message, "&lt;", "<");
        message := ReplaceAll(message, "&gt;", ">");
        message := ReplaceAll(message, "&amp;", "&");
        r := r.(message := message);
      }
      return;
    }
    if Contains(body, StatusMarker) || Contains(body, StatusResponseName) {
      r := r.(success := true);
      var code := FindElement(body, "statusCode");
      if code.Some? {
        r := r.(statusCode := code.value);
      }
      r := r.(statusDescription := r.GetTicketStatusDescription());
      if r.statusCode == "0" {
        var cdr := ReadContent(body, decode);
        if cdr.Some? {
          r := r.(applicationResponse := cdr);
        }
        r := r.(message := TicketProcessed);
      } else if r.statusCode == "98" {
        r := r.(message := TicketInProgress);
      } else if r.statusCode == "99" {
        r := r.(message := TicketWithErrors);
        var cdr := ReadContent(body, decode);
        if cdr.Some? {
          r := r.(applicationResponse := cdr);
        }
      }
      return;
    }
    r := r.(success := false, message := TicketUnrecognised);
  }

  /** The content lookup the "0" and "99" branches repeat: locate, slice, decode. */
  method ReadContent(body: string, decode: Base64Decoder) returns (cdr: Option<Bytes>)
    ensures cdr == ContentOf(body, decode)
  {
    cdr := None;
    var contentB64 := FindElement(body, "content");
    if contentB64.Some? {
      cdr := decode(contentB64.value);
    }
  }

  /**
   * Either fault marker wins: no status code is read, even when a status code
   * element is present, and the message is the decoded first faultstring.
   */
  lemma TicketFaultWins(body: string, ticket: string, decode: Base64Decoder)
    requires Contains(body, SendBillFaultMarker) || Contains(body, SoapFaultMarker)
    ensures var r := TicketOutcome(body, ticket, decode);
      && !r.success && r.statusCode == "" && r.applicationResponse == None
      && r.message == TicketFaultMessage(body)
  {
  }

  /** The `<br:` marker is redundant: any body holding it also holds the bare name. */
  lemma StatusMarkerHasName(body: string)
    ensures Contains(body, StatusMarker) ==> Contains(body, StatusResponseName)
  {
    if Contains(body, StatusMarker) {
      MarkerHoldsName(StatusMarker);
      ContainsTransitive(body, StatusMarker, StatusResponseName);
    }
  }

  lemma MarkerHoldsName(m: string)
    requires m == StatusMarker
    ensures Contains(m, StatusResponseName)
  {
    assert m[4..4 + |StatusResponseName|] == StatusResponseName;
    ContainsAt(m, StatusResponseName, 4);
  }

  /** A getStatus answer succeeds exactly when it has no fault marker and names getStatusResponse. */
  lemma TicketSuccessIff(body: string, ticket: string, decode: Base64Decoder)
    ensures TicketOutcome(body, ticket, decode).success <==> !IsTicketFault(body) && Contains(body, StatusResponseName)
    ensures TicketOutcome(body, ticket, decode).ticket == ticket
    ensures TicketOutcome(body, ticket, decode).responseXml == body
  {
    StatusMarkerHasName(body);
  }

  /**
   * On a success the status code is the text between the first `<statusCode>`
   * and the next `</statusCode>`, or "" when that element is missing or unclosed.
   */
  lemma TicketStatusCodeFound(body: string, ticket: string, decode: Base64Decoder)
    requires TicketOutcome(body, ticket, decode).success
    ensures var code := TicketOutcome(body, ticket, decode).statusCode;
      Extract(body, "statusCode").None? ==> code == ""
    ensures Extract(body, "statusCode").Some? ==> exists i, j ::
      && FieldAt(body, OpenTag("statusCode"), CloseTag("statusCode"), i, j)
      && TicketOutcome(body, ticket, decode).statusCode == body[i + 12..i + 12 + j]
  {
    if Extract(body, "statusCode").Some? {
      var tag := "statusCode";
      var i, j := ExtractAt(body, tag);
      assert |tag| + 2 == 12;
    }
  }

  /**
   * The stored description is what GetTicketStatusDescription gives for the
   * stored record, and it is "" for any code but the three known ones.
   */
  lemma TicketDescriptionConsistent(body: string, ticket: string, decode: Base64Decoder)
    ensures var r := TicketOutcome(body, ticket, decode);
      && r.statusDescription == r.GetTicketStatusDescription()
      && (r.success && !r.IsProcessed() && !r.IsInProgress() ==> r.statusDescription == "" && r.message == "")
  {
  }

  /**
   * Only a processed ticket carries a CDR, and only when the first content
   * element decodes; an in-progress ticket never does. A processed ticket gets
   * its code's message whether or not the CDR decodes.
   */
  lemma TicketApplicationResponse(body: string, ticket: string, decode: Base64Decoder)
    ensures var r := TicketOutcome(body, ticket, decode);
      r.applicationResponse.Some? ==> r.success && r.IsProcessed() && r.applicationResponse == ContentOf(body, decode)
    ensures var r := TicketOutcome(body, ticket, decode);
      r.success && r.IsInProgress() ==> r.applicationResponse == None && r.message == TicketInProgress
    ensures var r := TicketOutcome(body, ticket, decode);
      r.success && r.IsSuccessful() ==> r.message == TicketProcessed
    ensures var r := TicketOutcome(body, ticket, decode);
      r.success && r.HasErrors() ==> r.message == TicketWithErrors
  {
  }

  /**
   * The entities are decoded one pass each, `&amp;` last, so an escaped entity
   * comes out as that entity and not as its character.
   */
  lemma DecodeOnce(m: string)
    requires m == "&amp;lt;"
    ensures DecodeFaultEntities(m) == "&lt;"
  {
    FirstPassesKeep(m);
    var rest := m[5..];
    assert m == "&amp;" + rest;
    assert ReplaceAll(m, "&amp;", "&") == "&" + ReplaceAll(rest, "&amp;", "&");
    assert ReplaceAll(rest, "&amp;", "&") == rest;
  }

  /** The passes before `&amp;` find nothing in an escaped `&lt;`. */
  lemma FirstPassesKeep(m: string)
    requires m == "&amp;lt;"
    ensures ReplaceAll(ReplaceAll(ReplaceAll(m, "&#243;", "\U{F3}"), "&lt;", "<"), "&gt;", ">") == m
  {
    AbsentChar(m, "&#243;", '#');
    ReplaceAllAbsent(m, "&#243;", "\U{F3}");
    forall i | 0 <= i && i + 4 <= |m| ensures !OccursAt(m, "&lt;", i) {
      if i == 0 {
        assert m[i..i + 4][1] == 'a';
      } else {
        assert m[i..i + 4][0] == m[i] != '&';
      }
    }
    IndexOfFirst(m, "&lt;");
    ReplaceAllAbsent(m, "&lt;", "<");
    AbsentChar(m, "&gt;", 'g');
    ReplaceAllAbsent(m, "&gt;", ">");
  }

  /** A message without '&' is left as it is. */
  lemma DecodePlain(m: string)
    requires '&' !in m
    ensures DecodeFaultEntities(m) == m
  {
    AbsentChar(m, "&#243;", '&');
    ReplaceAllAbsent(m, "&#243;", "\U{F3}");
    AbsentChar(m, "&lt;", '&');
    ReplaceAllAbsent(m, "&lt;", "<");
    AbsentChar(m, "&gt;", '&');
    ReplaceAllAbsent(m, "&gt;", ">");
    AbsentChar(m, "&amp;", '&');
    ReplaceAllAbsent(m, "&amp;", "&");
  }

  // ---------------------------------------------------------------------
  // QueryVoidedDocumentsTicket
  // ---------------------------------------------------------------------

  /** The getStatus exchange for a ticket: the answer body, or the transport's error text. */
  type Transport = string -> Result<string, string>

  const TicketRequired := "ticket number is required"

  /**
   * voided_documents.go QueryVoidedDocumentsTicket: refuses an empty ticket
   * before any exchange, propagates a transport error, else parses the answer.
   */
  function QueryVoidedDocumentsTicket(ticket: string, transport: Transport, decode: Base64Decoder)
    : (r: Result<TicketStatusResponse, string>)
    ensures ticket == "" ==> r == Failure(TicketRequired)
    ensures r.Success? ==> ticket != "" && transport(ticket).Success? && r.value.ticket == ticket
    ensures r.Success? ==> r.value == TicketOutcome(transport(ticket).value, ticket, decode)
    ensures ticket != "" && transport(ticket).Failure? ==> r == Failure(transport(ticket).error)
  {
    if ticket == "" then Failure(TicketRequired)
    else
      match transport(ticket)
      case Failure(e) => Failure(e)
      case Success(body) => Success(TicketOutcome(body, ticket, decode))
  }

  // ---------------------------------------------------------------------
  // WaitForTicketProcessing
  // ---------------------------------------------------------------------

  /** The n-th QueryVoidedDocumentsTicket call of a run for a ticket. */
  type Query = (string, nat) -> Result<TicketStatusResponse, string>

  /** Durations are nanoseconds, as Go's time.Duration. */
  const DefaultPollInterval := 30_000_000_000

  const TimeoutMessage := "Timeout esperando procesamiento del ticket"

  /** The interval actually slept: the given one, or 30 seconds when it is not positive. */
  function EffectiveInterval(pollInterval: int): (d: nat)
    ensures d >= 1
    ensures pollInterval > 0 ==> d == pollInterval
    ensures pollInterval <= 0 ==> d == DefaultPollInterval
  {
    if pollInterval <= 0 then DefaultPollInterval else pollInterval
  }

  /**
   * The clock: time.Since(start) at the timeout check after query `k`, when
   * query `j` takes `latency(j)` and every sleep takes exactly the interval.
   */
  function Elapsed(k: nat, interval: nat, latency: nat -> nat): (t: nat)
    ensures t >= k * interval
  {
    if k == 0 then latency(0)
    else Elapsed(k - 1, interval, latency) + interval + latency(k)
  }

  /** The polling measure: time left before the deadline if only the sleeps counted. */
  function Remaining(k: nat, maxWait: int, interval: nat): nat {
    if k * interval < maxWait then maxWait - k * interval else 0
  }

  /** What the polling loop returns when it starts at query `k`. */
  function PollFrom(ticket: string, k: nat, maxWait: int, interval: nat, query: Query, latency: nat -> nat)
    : (r: Result<TicketStatusResponse, string>)
    requires interval >= 1
    ensures r.Success? ==> !r.value.success || r.value.IsProcessed() || r.value.message == TimeoutMessage
    decreases Remaining(k, maxWait, interval)
  {
    match query(ticket, k)
    case Failure(e) => Failure("error querying ticket: " + e)
    case Success(resp) =>
      if !resp.success then Success(resp)
      else if resp.IsProcessed() then Success(resp)
      else if Elapsed(k, interval, latency) >= maxWait then Success(resp.(message := TimeoutMessage))
      else
        assert (k + 1) * interval == k * interval + interval;
        PollFrom(ticket, k + 1, maxWait, interval, query, latency)
  }

  /**
   * voided_documents.go WaitForTicketProcessing: query, stop on an error, on
   * an unsuccessful answer or on a processed ticket, else stop with the
   * timeout message once the deadline is reached, else sleep and query again.
   */
  method WaitForTicketProcessing(ticket: string, maxWait: int, pollInterval: int, query: Query, latency: nat -> nat)
    returns (r: Result<TicketStatusResponse, string>)
    ensures r == PollFrom(ticket, 0, maxWait, EffectiveInterval(pollInterval), query, latency)
  {
    var interval := pollInterval;
    if interval <= 0 {
      interval := DefaultPollInterval;
    }
    var k: nat := 0;
    var clock: nat := 0;
    while true
      invariant interval == EffectiveInterval(pollInterval)
      invariant clock == (if k == 0 then 0 else Elapsed(k - 1, interval, latency) + interval)
      invariant PollFrom(ticket, k, maxWait, interval, query, latency)
        == PollFrom(ticket, 0, maxWait, interval, query, latency)
      decreases Remaining(k, maxWait, interval)
    {
      var answer := query(ticket, k);
      clock := clock + latency(k);
      if answer.Failure? {
        return Failure("error querying ticket: " + answer.error);
      }
      var response := answer.value;
      if !response.success {
        return Success(response);
      }
      if response.IsProcessed() {
        return Success(response);
      }
      if clock >= maxWait {
        response := response.(message := TimeoutMessage);
        return Success(response);
      }
      assert (k + 1) * interval == k * interval + interval;
      clock := clock + interval;
      k := k + 1;
    }
  }

  /** Query `k` returned an in-progress success before the deadline, so polling went on. */
  predicate ContinuedAt(ticket: string, k: nat, maxWait: int, interval: nat, query: Query, latency: nat -> nat) {
    && query(ticket, k).Success?
    && query(ticket, k).value.success
    && !query(ticket, k).value.IsProcessed()
    && Elapsed(k, interval, latency) < maxWait
  }

  /**
   * Polling stopped at query `k` with `resp`: the queried answer unchanged when
   * it failed or is processed, or, past the deadline, that answer with only its
   * message replaced.
   */
  predicate AnsweredAt(ticket: string, k: nat, maxWait: int, interval: nat, query: Query, latency: nat -> nat,
                       resp: TicketStatusResponse)
  {
    && query(ticket, k).Success?
    && var q := query(ticket, k).value;
    || ((!q.success || q.IsProcessed()) && resp == q)
    || (q.success && !q.IsProcessed() && Elapsed(k, interval, latency) >= maxWait
        && resp == q.(message := TimeoutMessage))
  }

  /** A returned response is the answer of some query `k`, every earlier query having continued the loop. */
  lemma {:induction false} PollAnswer(ticket: string, k0: nat, maxWait: int, interval: nat, query: Query, latency: nat -> nat)
    requires interval >= 1
    requires PollFrom(ticket, k0, maxWait, interval, query, latency).Success?
    ensures exists k ::
      && k >= k0
      && AnsweredAt(ticket, k, maxWait, interval, query, latency, PollFrom(ticket, k0, maxWait, interval, query, latency).value)
      && (forall j :: k0 <= j < k ==> ContinuedAt(ticket, j, maxWait, interval, query, latency))
    decreases Remaining(k0, maxWait, interval)
  {
    var r := PollFrom(ticket, k0, maxWait, interval, query, latency).value;
    var q := query(ticket, k0).value;
    if !q.success || q.IsProcessed() || Elapsed(k0, interval, latency) >= maxWait {
      assert AnsweredAt(ticket, k0, maxWait, interval, query, latency, r);
    } else {
      assert ContinuedAt(ticket, k0, maxWait, interval, query, latency);
      assert (k0 + 1) * interval == k0 * interval + interval;
      PollAnswer(ticket, k0 + 1, maxWait, interval, query, latency);
      var k :| k >= k0 + 1
        && AnsweredAt(ticket, k, maxWait, interval, query, latency, r)
        && forall j :: k0 + 1 <= j < k ==> ContinuedAt(ticket, j, maxWait, interval, query, latency);
      assert forall j :: k0 <= j < k ==> ContinuedAt(ticket, j, maxWait, interval, query, latency);
    }
  }

  /** A query error ends the polling with that error wrapped, every earlier query having continued the loop. */
  lemma {:induction false} PollError(ticket: string, k0: nat, maxWait: int, interval: nat, query: Query, latency: nat -> nat)
    requires interval >= 1
    requires PollFrom(ticket, k0, maxWait, interval, query, latency).Failure?
    ensures exists k ::
      && k >= k0
      && query(ticket, k).Failure?
      && PollFrom(ticket, k0, maxWait, interval, query, latency).error == "error querying ticket: " + query(ticket, k).error
      && (forall j :: k0 <= j < k ==> ContinuedAt(ticket, j, maxWait, interval, query, latency))
    decreases Remaining(k0, maxWait, interval)
  {
    if query(ticket, k0).Success? {
      assert ContinuedAt(ticket, k0, maxWait, interval, query, latency);
      assert (k0 + 1) * interval == k0 * interval + interval;
      PollError(ticket, k0 + 1, maxWait, interval, query, latency);
      var e := PollFrom(ticket, k0, maxWait, interval, query, latency).error;
      var k :| k >= k0 + 1
        && query(ticket, k).Failure?
        && e == "error querying ticket: " + query(ticket, k).error
        && forall j :: k0 + 1 <= j < k ==> ContinuedAt(ticket, j, maxWait, interval, query, latency);
      assert forall j :: k0 <= j < k ==> ContinuedAt(ticket, j, maxWait, interval, query, latency);
    }
  }

  /** Polling stops at the first query whose answer is unsuccessful or processed, returning it unchanged. */
  lemma PollStopsOnFinal(ticket: string, k: nat, maxWait: int, interval: nat, query: Query, latency: nat -> nat)
    requires interval >= 1
    requires query(ticket, k).Success?
    requires !query(ticket, k).value.success || query(ticket, k).value.IsProcessed()
    ensures PollFrom(ticket, k, maxWait, interval, query, latency) == query(ticket, k)
  {
  }

  /** Once the clock after query `k` has reached the deadline, an in-progress answer to it is returned with the timeout message. */
  lemma PollDeadlinePassed(ticket: string, k: nat, maxWait: int, interval: nat, query: Query, latency: nat -> nat)
    requires interval >= 1 && Elapsed(k, interval, latency) >= maxWait
    requires query(ticket, k).Success? && query(ticket, k).value.success && !query(ticket, k).value.IsProcessed()
    ensures PollFrom(ticket, k, maxWait, interval, query, latency) == Success(query(ticket, k).value.(message := TimeoutMessage))
  {
  }

  // ---------------------------------------------------------------------
  // BatchQueryTickets
  // ---------------------------------------------------------------------

  const NoTickets := "no tickets provided"

  /** The entry for one ticket: the answer, or an unsuccessful record carrying the ticket and the error. */
  function BatchEntry(ticket: string, answer: Result<TicketStatusResponse, string>): (r: TicketStatusResponse)
    ensures answer.Success? ==> r == answer.value
    ensures answer.Failure? ==>
      && !r.success && r.ticket == ticket && r.error == Some(answer.error)
      && r.message == "Error querying ticket: " + answer.error
  {
    match answer
    case Success(resp) => resp
    case Failure(e) => TicketStatusResponse(false, "Error querying ticket: " + e, ticket, "", "", "", None, Some(e))
  }

  /**
   * voided_documents.go BatchQueryTickets: refuses an empty list, else queries
   * every ticket in order (the i-th ticket as query i) and appends one entry
   * per ticket, an error becoming an entry rather than stopping the batch.
   */
  method BatchQueryTickets(tickets: seq<string>, query: Query) returns (r: Result<seq<TicketStatusResponse>, string>)
    ensures tickets == [] ==> r == Failure(NoTickets)
    ensures tickets != [] ==> r.Success? && |r.value| == |tickets|
    ensures r.Success? ==> forall i :: 0 <= i < |tickets| ==> r.value[i] == BatchEntry(tickets[i], query(tickets[i], i))
  {
    if |tickets| == 0 {
      return Failure(NoTickets);
    }
    var responses: seq<TicketStatusResponse> := [];
    for i := 0 to |tickets|
      invariant |responses| == i
      invariant forall j :: 0 <= j < i ==> responses[j] == BatchEntry(tickets[j], query(tickets[j], j))
    {
      var answer := query(tickets[i], i);
      if answer.Failure? {
        var errorResponse := TicketStatusResponse(false, "Error querying ticket: " + answer.error, tickets[i], "", "", "", None, Some(answer.error));
        responses := responses + [errorResponse];
      } else {
        responses := responses + [answer.value];
      }
    }
    return Success(responses);
  }

  /** When each query answers for the ticket it was asked about, entry `i` is about ticket `i`. */
  lemma BatchKeepsTickets(tickets: seq<string>, query: Query, entries: seq<TicketStatusResponse>)
    requires |entries| == |tickets|
    requires forall i :: 0 <= i < |tickets| ==> entries[i] == BatchEntry(tickets[i], query(tickets[i], i))
    requires forall t, n :: query(t, n).Success? ==> query(t, n).value.ticket == t
    ensures forall i :: 0 <= i < |tickets| ==> entries[i].ticket == tickets[i]
  {
    forall i | 0 <= i < |tickets| ensures entries[i].ticket == tickets[i] {
      var a := query(tickets[i], i);
      if a.Success? {
        assert entries[i] == a.value;
      }
    }
  }
}
