# sunatlib in Dafny: the text-level core of a SUNAT e-invoicing client

This project models the deterministic core of `sunatlib`. `sunatlib` is a Go client for the SOAP and REST
services of SUNAT, the Peruvian tax authority. The model covers five parts.

- **Response classifiers.** These read an answer by substring search. The sendBill, sendSummary and
  getStatus parsers, and the two parsers of validation answers, check for fault markers before success
  markers. Each field is "the text between the first `<tag>` and the next `</tag>`".
- **Validity classifier** of `validation.go`. Eight phrase signals are combined by ordered overrides.
- **Ticket status record and polling.** The status predicates, `WaitForTicketProcessing` over an
  abstract query and clock, and `BatchQueryTickets`.
- **Validators and formatters.** These include:
  - the XML escaper and the RUC check digit;
  - the series, number and document-type formats;
  - the DNI, CE and RUC checks of the look-up services;
  - the `Validate` methods with their fixed error order;
  - the date and amount formatting of the validation request;
  - the `RA-YYYYMMDD-###` series.
- **Text builders.** `GenerateVoidedDocumentsXML` numbers lines 1..n and escapes free text.
  `createSignatureTemplate` injects the signature block into the first empty `ExtensionContent` form it
  finds.

The model has one module per source file:

| module | file |
|---|---|
| `Sunat` | `sunat.go` |
| `VoidedDocuments` | the builders and validators of `voided_documents.go` |
| `VoidedTickets` | the parsers, status record and polling of `voided_documents.go` |
| `Validation` | `validation.go` |
| `DocumentValidation` | `document_validation.go` |
| `Utils` | `utils/validation.go` |
| `DniService` | `dni_service.go` |
| `RucService` | `ruc_service.go` |
| `XmlSigner` | `signer/xmlsigner.go` |

Some modules model the Go standard library the core relies on:

| module | models |
|---|---|
| `Text` | `strings.Index`, `Contains`, `Replace`, `ReplaceAll`, `TrimSpace`, `Fields` |
| `Decimal` | `%d` and `%0Nd` |
| `Dates` | `time.Parse` and `Format` with the layouts used |
| `Wrappers` | `Option` and `Result` |
| `Http` | the HTTP GET both look-up services make, as a parameter, and their success message |

The source mixes two styles, and the model follows it:

- Where the source changes things step by step, the model is a `method` proved against a specification
  function. Examples are the parsers that fill a response field by field, the escaper's chain of
  replacements, the RUC sum loop, the polling loop, and the builders that grow a string.
- Where the source is a single expression, the model is a `function`, with lemmas about it.

The Go code returns a response and an `error` side by side. The model keeps the response. Where the
caller sees only an error, the model has a `Result` failure with the same message.

## Model

| member | source | states |
|---|---|---|
| Text.FindElement | sunat.go:189-192 | The `strings.Index` / slice idiom gives the text between the first opening tag and the next closing tag. The result is None when either tag is missing. |
| Text.ExtractAt | sunat.go:207-210 | A found field starts right after the first `<tag>` and ends at the first `</tag>` after it. It therefore never contains `</tag>`. |
| Text.ExtractWritten | voided_documents.go:254-258 | A body written as prefix, `<tag>`, value, `</tag>`, suffix, with no `<` before the closing tag, yields exactly the value. |
| Text.BetweenUnclosed | voided_documents.go:515-519 | An opening tag without a later closing tag yields nothing, and the field keeps its default. |
| Text.IndexOfFirst | sunat.go:189 | `strings.Index` reports the first occurrence, and None exactly when there is no occurrence at all. |
| Text.ReplaceFirstAt | signer/xmlsigner.go:117-124 | `strings.Replace` with n = 1 replaces the first occurrence and keeps the text around it. |
| Text.ReplaceAllAbsent | voided_documents.go:500-503 | `strings.ReplaceAll` leaves a text without the pattern unchanged. |
| Text.TrimSpaceSpec | utils/validation.go:29 | `strings.TrimSpace` leaves no white space at either end. It removes only white space, so the result is a slice of the input with spaces around it. |
| Text.FieldsOfJoin | dni_service.go:138 | `strings.Fields` of words joined by spaces gives the words back. |
| Text.FieldsAreWords | dni_service.go:138 | Every field of `strings.Fields` is a non-empty run of non-space characters. |
| Decimal.ParseNatToString | voided_documents.go:107 | `%d` of a natural number is a digit string that reads back as the number. |
| Decimal.ParsePadNat | voided_documents.go:630 | The zero-padded `%0Nd` text reads back as the number. |
| Dates.ParseFormatIso | validation.go:152 | Every valid date formatted as YYYY-MM-DD parses back to itself. |
| Dates.FormatParseIso | validation.go:152 | Every text accepted by the YYYY-MM-DD parser is the formatting of the date it parses to. |
| Dates.CompactParts | voided_documents.go:630 | The YYYYMMDD form of a valid date is eight digits that read back as year, month and day. |
| Dates.DigitsDetermined | voided_documents.go:630 | Two digit strings of the same length and the same value are equal. |
| Utils.ValidateSpecialCharacters | utils/validation.go:12-32 | The result is the cleaned text, and "" for "". It holds no `<`, `>`, `"`, `'` and no stripped control character. It has no white space at either end. |
| Utils.EscapeChain | utils/validation.go:18-22 | The five `ReplaceAll` calls, `&` first, are one character map: each special character becomes its entity exactly once. |
| Utils.DropAfterEscape | utils/validation.go:25-26 | Removing the control characters after escaping is the single map that drops controls and escapes specials. |
| Utils.CleanedTextSafe | utils/validation.go:18-29 | Nothing in the cleaned text is a special character or a stripped control, and neither end is white space. |
| Utils.DoubleEscapesEntity | utils/validation.go:18 | An existing entity is escaped again: `&lt;` becomes `&amp;lt;`. |
| Utils.CleanTextUnchanged | utils/validation.go:12-32 | A text that is already clean and trimmed is returned unchanged. |
| Utils.KeepsLineBreaks | utils/validation.go:25 | Tab, LF and CR are kept. |
| Utils.CleanTextForXml | utils/validation.go:35-43 | `html.EscapeString` after the cleaning only doubles each `&`, because no other escapable character is left. |
| Utils.ValidateRuc | utils/validation.go:46-77 | The loop returns true exactly when the input is 11 digits and the last digit is the check digit of the first ten. |
| Utils.RucCompletion | utils/validation.go:60-76 | For any ten digits, exactly one eleventh character completes a valid RUC: the digit CheckDigit computes. |
| Utils.CheckDigit | utils/validation.go:65-73 | 11 − (sum mod 11), with 10 mapped to 0 and 11 to 1, is always a single digit. |
| Utils.SeriesShapes | utils/validation.go:80-88 | A series is accepted exactly when it is one upper-case letter and two or three digits, or two letters and two digits. |
| Utils.DocumentTypeShape | utils/validation.go:102-114 | Every accepted document type is two digits, and so also a valid document number. |
| VoidedDocuments.LineIdWritten | utils/validation.go:117-119 | The `<cbc:LineID>` element the builder writes for document k (from zero) holds GenerateLineID(k), and that line sits after the lines of the documents before it: the exported helper and the builder's inline `i+1` number lines the same way. |
| XmlSigner.CreateSignatureTemplate | signer/xmlsigner.go:85-130 | The chain of conditional replacements computes TemplateOutcome: the namespace step, then the first placeholder form present, else the error. |
| XmlSigner.ChosenPlaceholder | signer/xmlsigner.go:116-124 | The chosen form occurs and every earlier form is absent. None is chosen exactly when all three are absent. |
| XmlSigner.InjectionShape | signer/xmlsigner.go:116-124 | On success the output is the text before the first occurrence of the chosen form, then the injected block, then the text after that occurrence. Every form of higher priority is absent. |
| XmlSigner.NamespaceInserted | signer/xmlsigner.go:111-113 | Without the exact `xmlns:ds` declaration, it is inserted after the first `<Invoice ` only. |
| XmlSigner.NamespaceKept | signer/xmlsigner.go:111 | With the declaration present, the namespace step changes nothing. |
| XmlSigner.NamespaceNoInvoice | signer/xmlsigner.go:112 | Without the declaration and without `<Invoice `, the text is left as it is. |
| XmlSigner.NoPlaceholderFails | signer/xmlsigner.go:125-127 | When none of the three forms occurs, the result is the error. |
| XmlSigner.FirstFormPreferred | signer/xmlsigner.go:116-118 | The indented empty form wins wherever the other forms occur. |
| Sunat.ParseResponse | sunat.go:178-224 | The field-by-field parser computes SendBillOutcome. |
| Sunat.SendBillSuccessIff | sunat.go:185-223 | Success holds exactly when there is no `<soap-env:Fault` and there is a `<br:sendBillResponse`. ResponseXML is always the input. |
| Sunat.SendBillFaultWins | sunat.go:185-199 | A fault marker beats the success marker: the result is failure, with no CDR and the fault message. |
| Sunat.SendBillApplicationResponse | sunat.go:202-218 | A CDR is reported only on success, and it is the decoding of the first applicationResponse text. |
| Sunat.ApplicationResponseFound | sunat.go:207-214 | The reported CDR is the decoder's result on the text between the first `<applicationResponse>` and the next `</applicationResponse>`. |
| Sunat.SendBillFaultWithoutString | sunat.go:189-198 | A fault without a `<faultstring>` gives failure with an empty message. |
| Sunat.SignXml | sunat.go:57-74 | Without a signer the result is the certificate error, before any other step. Otherwise it is the xmlsec error. Otherwise the result is the signed bytes when signing succeeds, and the signer's error behind "failed to sign XML: " when it fails. |
| VoidedDocuments.DocumentValidIff | voided_documents.go:345-375 | A document passes exactly when its type, series and number are valid and its reason is not empty. |
| VoidedDocuments.MissingBeforeMalformed | voided_documents.go:354-356 | An empty series is reported as missing, not as malformed. |
| VoidedDocuments.FirstInvalid | voided_documents.go:335-339 | The index reported is that of the first invalid document. |
| VoidedDocuments.ValidateRequest | voided_documents.go:313-342 | The method computes RequestError: RUC present, RUC checksum, company name, series, documents, each document in order. |
| VoidedDocuments.RequestValidIff | voided_documents.go:313-342 | A request passes exactly when all of its checks pass, including every document. |
| VoidedDocuments.RequestReportsFirstDocument | voided_documents.go:335-339 | The error names the first invalid document with its 1-based index and that document's own error. |
| VoidedDocuments.GenerateVoidedDocumentsXml | voided_documents.go:47-125 | The method computes VoidedXml: an error for no documents, else header, lines 1..n and footer. |
| VoidedDocuments.AppendLines | voided_documents.go:103-119 | The loop appends the lines of all documents, in order and numbered from one. |
| VoidedDocuments.LineNumbering | voided_documents.go:104-118 | Document k (counting from zero) is written as line k + 1, after the lines of the documents before it. |
| VoidedDocuments.FreeTextEscaped | voided_documents.go:99-117 | The company name and every reason are written after cleaning, and the cleaned text holds no `<`, `>`, `"` or `'`. |
| VoidedDocuments.HeaderWritesExtensionBlock | voided_documents.go:53-63 | The header starts with the prologue followed by the ExtensionContent element, written on two unindented lines. |
| VoidedDocuments.ExtensionBlockNotAPlaceholder | voided_documents.go:62-63 | That element is none of the three empty forms createSignatureTemplate accepts. |
| VoidedDocuments.ExtensionBlockRefused | voided_documents.go:62-63 | Given to createSignatureTemplate alone, that element yields the "no suitable ExtensionContent" error. |
| VoidedDocuments.SeriesParts | voided_documents.go:629-631 | The series is "RA-", the compact date, "-", then digits that read back as the number, at least three of them. It has 15 characters below 1000. |
| VoidedDocuments.SeriesInjective | voided_documents.go:629-631 | Different valid dates or different numbers give different series. |
| VoidedTickets.ParseVoidedDocumentsResponse | voided_documents.go:225-267 | The parser computes SummaryOutcome. |
| VoidedTickets.SummarySuccessIff | voided_documents.go:232-266 | Success holds exactly when there is no fault marker and there is a sendSummaryResponse. On failure there is no ticket, and ResponseXML is the input. |
| VoidedTickets.SummaryTicketRoundTrip | voided_documents.go:254-258 | A ticket written between `<ticket>` tags is read back unchanged. |
| VoidedTickets.StatusPredicates | voided_documents.go:405-422 | At most one of successful, in progress and with errors holds. Processed means successful or with errors. |
| VoidedTickets.UnknownCodeDescription | voided_documents.go:391-402 | For any code other than "0", "98" and "99", the description is the stored one. |
| VoidedTickets.ParseTicketStatusResponse | voided_documents.go:483-559 | The parser computes TicketOutcome. |
| VoidedTickets.ReadContent | voided_documents.go:527-534 | The CDR is the decoding of the first content text, or None. |
| VoidedTickets.TicketFaultWins | voided_documents.go:491-508 | Either fault marker gives failure, with no status code, no CDR, and the decoded fault message. |
| VoidedTickets.TicketSuccessIff | voided_documents.go:491-558 | Success holds exactly when there is no fault and `getStatusResponse` occurs. The ticket and ResponseXML are kept. |
| VoidedTickets.StatusMarkerHasName | voided_documents.go:511 | The `<br:getStatusResponse` test is subsumed by the bare `getStatusResponse` test. |
| VoidedTickets.TicketStatusCodeFound | voided_documents.go:515-520 | On success, the status code is the first statusCode element's text, or "" when that element is missing or unclosed. |
| VoidedTickets.TicketDescriptionConsistent | voided_documents.go:523 | The stored description is GetTicketStatusDescription of the record. It is "" for unknown codes, whose message also stays "". |
| VoidedTickets.TicketApplicationResponse | voided_documents.go:526-551 | Only processed tickets carry a CDR. "98" carries none. Each known code has its fixed message. |
| VoidedTickets.DecodeOnce | voided_documents.go:500-503 | The entities are decoded one pass each with `&amp;` last, so `&amp;lt;` becomes `&lt;`. |
| VoidedTickets.DecodePlain | voided_documents.go:500-503 | A message without `&` is not changed by the decoding. |
| VoidedTickets.QueryVoidedDocumentsTicket | voided_documents.go:436-480 | An empty ticket is an error before any request. A transport error is passed on. Otherwise the answer is parsed with the ticket kept. |
| VoidedTickets.EffectiveInterval | voided_documents.go:564-566 | An interval ≤ 0 becomes 30 seconds. A positive interval is kept. |
| VoidedTickets.PollFrom | voided_documents.go:570-594 | A successful poll ends on a failed answer, a processed answer, or a timeout message. |
| VoidedTickets.WaitForTicketProcessing | voided_documents.go:563-595 | The loop computes PollFrom from the first query, with the effective interval. |
| VoidedTickets.PollAnswer | voided_documents.go:570-590 | A returned answer is that of some query k. Every earlier query was successful, in progress and before the deadline. |
| VoidedTickets.PollError | voided_documents.go:571-574 | A returned error wraps the error of some query k. Every earlier query continued the loop. |
| VoidedTickets.PollStopsOnFinal | voided_documents.go:577-584 | A failed or processed answer is returned unchanged. |
| VoidedTickets.PollDeadlinePassed | voided_documents.go:586-590 | At any query k whose clock has reached the deadline, an in-progress answer is returned with only its message replaced by the timeout text. |
| VoidedTickets.BatchEntry | voided_documents.go:606-618 | A query error becomes a failed entry carrying the ticket, the error and the "Error querying ticket" message. An answer is kept as it is. |
| VoidedTickets.BatchQueryTickets | voided_documents.go:598-625 | An empty list is an error. Otherwise there is one entry per ticket, in input order, and an error on one ticket does not stop the later ones. |
| VoidedTickets.BatchKeepsTickets | voided_documents.go:605-618 | When every answer carries its own ticket, entry i is about ticket i. |
| Validation.Classify | validation.go:279-291 | The state is always one of VALIDO, ANULADO, RECHAZADO or NO_INFORMADO. |
| Validation.StateOf | validation.go:269-291 | The eight signals and the successive overrides compute Classify. |
| Validation.ParseValidationResponse | validation.go:238-314 | The method computes ValidationOutcome: the two fields with their defaults, the state, then validity and details from the switch. |
| Validation.StateAlwaysKnown | validation.go:279-312 | The default arm of the switch is never taken. IsValid holds exactly when the state is VALIDO. |
| Validation.SuccessIsHttpStatus | validation.go:240 | Success is `httpStatusCode == 200`, whatever the body. |
| Validation.LaterSignalWins | validation.go:279-291 | A valid phrase gives VALIDO. Otherwise a rejection gives RECHAZADO, otherwise "BAJA" gives ANULADO. |
| Validation.NotInformedContainsInformed | validation.go:270-274 | "no ha sido informada" contains "ha sido informada", so the sixth signal is then always true. |
| Validation.NotInformedAlone | validation.go:280-289 | "no ha sido informada" with no other signal gives NO_INFORMADO. |
| Validation.MixedMessageIsValid | validation.go:289 | "no ha sido informada" together with "es un comprobante de pago válido" gives VALIDO. |
| Validation.UnparsedIsNotInformed | validation.go:243-263 | Without a closed statusMessage, the message keeps its default, and that default classifies as NO_INFORMADO. |
| Validation.NoSignals | validation.go:269-291 | A message without any of the letters c, h, A, R and B matches none of the eight phrases and is NO_INFORMADO. |
| Validation.StatusCodeField | validation.go:242-254 | The status code field is the first statusCode element's text, or "UNKNOWN" when that element is absent or unclosed. |
| Validation.FormatDateForSunat | validation.go:146-159 | "" is an error. Exactly the valid YYYY-MM-DD dates are accepted, and each gives the same day as DD/MM/YYYY. |
| Validation.FormatDateSameDay | validation.go:157-158 | The output's day, month and year are the input's, reordered around slashes. |
| Validation.FormatDateOfValid | validation.go:146-159 | Every valid date written as YYYY-MM-DD is accepted. |
| Validation.FormatCentsRoundTrip | validation.go:117 | The amount text is digits, a point and two digits, and it reads back as the amount in cents. |
| Validation.FormatValidationParams | validation.go:98-143 | The checks run in order: issuer RUC, series, number, date, each missing field failing with its own "... cannot be empty" message whatever the date. A bad date fails with "invalid issue date format: " followed by the date error. On success the RUC, document type, series, number, recipient number, authorization number and password are copied as given. An empty recipient type becomes "-". The date is in DD/MM/YYYY form, the amount is in `%.2f` form, and the full user name is the master RUC followed by the user name. |
| Validation.MissingFieldBeforeDate | validation.go:106-114 | With issuer RUC and series given, a missing number is reported as "document number cannot be empty" even when the date is also bad. |
| DocumentValidation.ParseValidationResponse | document_validation.go:164-234 | The early-return parser computes DocumentOutcome. |
| DocumentValidation.HttpFailureIgnoresBody | document_validation.go:169-173 | A status other than 200 fails with the lost-communication message, whatever the body. |
| DocumentValidation.FaultIgnoresDecoder | document_validation.go:178-190 | A fault marker fails before the XML decoder is consulted. |
| DocumentValidation.FaultMessageVerbatim | document_validation.go:182-187 | The error message is the first faultstring text, with no entity decoded, or "" when there is none. |
| DocumentValidation.FallbackOnDecodeError | document_validation.go:195-213 | When decoding fails, the result is valid exactly when `<cdpvalidado>` occurs, and otherwise it is the parse error. |
| DocumentValidation.StructuredOutcome | document_validation.go:216-231 | A fault code fails with its fault string. Otherwise a cdpvalidado value makes the document valid, and anything else is "not found". |
| DocumentValidation.OutcomeConsistent | document_validation.go:164-234 | On every path IsValid implies Success. IsDocumentValid is IsValid, HasError is exactly failure, and ResponseXML is the input. |
| DocumentValidation.ValidationResponse.GetStatusDescription | document_validation.go:310-318 | The status message, else the error message, else the fixed text. The result is never empty. |
| DocumentValidation.DescriptionOfEmptyFault | document_validation.go:310-318 | With both messages empty, the fixed text is returned. |
| DocumentValidation.WithDefaults | document_validation.go:89-96 | An empty recipient type becomes "-", and every other field passes through unchanged. |
| DocumentValidation.WithDefaultsIdempotent | document_validation.go:89-96 | Applying the defaults twice is the same as applying them once. |
| DniService.IsValidDni | dni_service.go:224-237 | The scan accepts exactly eight characters that are all digits. |
| DniService.DniIsNotCe | dni_service.go:224-247 | No valid DNI passes the CE check. |
| DniService.CeAllowsLetters | dni_service.go:240-247 | The CE check looks only at the length, so letters pass. |
| DniService.ConsultDni | dni_service.go:61-148 | The method computes DniOutcome. |
| DniService.MapDniRecord | dni_service.go:122-145 | Building the result and then overwriting the surnames computes DniFromRecord. |
| DniService.DniRefusedBeforeRequest | dni_service.go:62-67 | An invalid DNI fails with the fixed message, whatever the transport would answer. |
| DniService.DniSuccessIff | dni_service.go:61-148 | Success holds exactly when the DNI is valid, the request succeeds with 200, the JSON decodes, and `datos` or `nombreCompleto` is set. Success then carries the queried DNI. |
| DniService.DniOldLayoutLosesName | dni_service.go:115-127 | A record with only `nombreCompleto` is accepted, but the full name reported is the empty `datos`. |
| DniService.SurnamesOfWords | dni_service.go:136-145 | Surnames written as words give the first word as paternal surname and the second, if any, as maternal. |
| DniService.SurnamesAreFields | dni_service.go:136-145 | The surnames are single words or empty, and there is no maternal surname without a paternal one. |
| DniService.ConsultCe | dni_service.go:151-221 | The method computes CeOutcome. |
| DniService.CeRefusedBeforeRequest | dni_service.go:152-157 | A length outside 9..12 fails with the fixed message, whatever the transport would answer. |
| DniService.CeCopiesRecord | dni_service.go:201-218 | On success the five fields are copied from the record, and the number and name are non-empty. |
| RucService.IsValidRuc | ruc_service.go:197-212 | Only 11 digits can pass. Among those, exactly the ones starting with '1' or '2' pass. |
| RucService.FormatValidWithoutChecksum | ruc_service.go:197-212 | "10000000000" passes this check but fails the check-digit test of `utils.ValidateRUC`. |
| RucService.ChecksumValidButRefused | ruc_service.go:210-211 | "30000000007" has a correct check digit but is refused here. |
| RucService.ConsultBasic | ruc_service.go:76-134 | A length other than 11 gives an unsuccessful response "RUC debe tener 11 dígitos" without data, before any request. Otherwise the result is the decoded answer of the basic URL. |
| RucService.ConsultFull | ruc_service.go:137-194 | The same length check, then the answer of the full URL is decoded. |
| RucService.ValidRucPassesLengthCheck | ruc_service.go:76-143 | Every RUC that IsValidRuc accepts reaches the request in both consultations. |
| RucService.LengthCheckAdmitsLetters | ruc_service.go:77-82 | The pre-check looks only at the length, so "2060000000A" is sent. |
| RucService.DirectRecordWins | ruc_service.go:115-122 | A 200 answer that decodes directly into a record with a RUC is the result. |
| RucService.TransportAndStatusFailures | ruc_service.go:86-112 | A transport error is passed on. A status other than 200 fails without data. |

## Left out

- HTTP transport is a parameter of the model, an oracle that returns a body or an error. This covers
  request construction, headers, `Do` and `ReadAll`. The SOAP envelope texts of the requests are not
  modelled, and neither are the nil-response paths of `NewRequest`/`ReadAll`.
- The base64 decoder, `xml.Unmarshal` and `json.Unmarshal` are uninterpreted function parameters.
- `archive/zip` (`createZIP`, `createVoidedDocumentsZIP`) is not modelled.
- Certificates, PKCS#12, x509, PEM files and the `xmlsec1` process are not modelled. The signer is a
  parameter of `Sunat.SignXml`, and the xmlsec1 availability check is an optional error.
- `endpoints.go`, `consultation.go` and the example programs are not modelled.
- The clock and `time.Sleep` of `WaitForTicketProcessing` are not modelled. Query k takes `latency(k)`,
  and the elapsed time after query k is the sum of the latencies plus k sleep intervals.
- The 100 ms sleep of `BatchQueryTickets` is not modelled.
- The query of BatchQueryTickets carries the position of the ticket in the batch. This stands for the
  changing state of the remote service.
- VoidedTickets.WaitForTicketProcessing keeps polling on any successful answer that is not processed,
  including an empty or unknown status code. An empty or unknown status code is therefore never treated
  as final.
- Validation.FormatCentsRoundTrip is stated for the amount as integer cents. `%.2f` of a `float64` is
  floating-point formatting and is not modelled, so the cents are an exact natural number.
- Validation.FormatDateForSunat is stated with the wrapped error text. The detail that `time.Parse`
  appends after the colon is not modelled: the model uses the prefix only, "cannot parse date '…'".
- Dates.ParseIso accepts exactly four-digit years, two-digit months and two-digit days in range. It does
  not model any other leniency of `time.Parse`.
- DniService.IsValidCe counts characters where Go's `len` counts bytes. The two agree on ASCII input
  only: "ÑÑÑÑÑ" is 10 bytes, so Go sends it, but the model refuses it.
- DniService.ConsultCe and DniService.CeRefusedBeforeRequest make the same 9..12 pre-check on characters,
  not bytes.
- RucService.ConsultBasic and RucService.ConsultFull make their length pre-check on characters, not bytes.
- The `ProcessDate` field of the ticket status record is never set by the source and is left out.
- The `Error` field of the voided-documents response is also left out.
- The `Error` field of a batch entry is kept.
- Go errors returned beside a response are not modelled separately. The response fields are.
- The fields of the DNI service's JSON record that the mapping never reads are not modelled.
- The debug printing of `ValidateDocument` is not modelled.
- The request building of `ValidateDocument` and `ValidateInvoice`/`ValidateReceipt` beyond the
  defaults is not modelled. These only fill an envelope.
