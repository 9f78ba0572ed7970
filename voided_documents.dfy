/**
 * The request side of the voided-documents communication ("comunicación de
 * baja", voided_documents.go): the request records, their validation, the
 * VoidedDocuments XML the client writes and the RA-YYYYMMDD-### series.
 */
module VoidedDocuments {
  import opened Wrappers
  import opened Text
  import opened Decimal
  import opened Dates
  import opened Utils
  import XmlSigner

  /** One document to void. */
  datatype VoidedDocument = VoidedDocument(
    documentTypeCode: string,
    documentSeries: string,
    documentNumber: string,
    voidedReason: string)

  /** A voided-documents communication. */
  datatype VoidedDocumentsRequest = VoidedDocumentsRequest(
    ruc: string,
    companyName: string,
    seriesNumber: string,
    issueDate: Date,
    referenceDate: Date,
    documents: seq<VoidedDocument>,
    description: string)

  // ---------------------------------------------------------------------
  // Validate
  // ---------------------------------------------------------------------

  /** voided_documents.go VoidedDocument.Validate: the first failing check, in source order, or None. */
  function DocumentError(doc: VoidedDocument): Option<string> {
    if doc.documentTypeCode == "" then Some("document type code is required")
    else if !ValidateDocumentType(doc.documentTypeCode) then Some("invalid document type code: " + doc.documentTypeCode)
    else if doc.documentSeries == "" then Some("document series is required")
    else if !ValidateDocumentSeries(doc.documentSeries) then Some("invalid document series format: " + doc.documentSeries)
    else if doc.documentNumber == "" then Some("document number is required")
    else if !ValidateDocumentNumber(doc.documentNumber) then Some("invalid document number format: " + doc.documentNumber)
    else if doc.voidedReason == "" then Some("voided reason is required")
    else None
  }

  /** A document passes exactly when its type, series and number have the accepted formats and it gives a reason. */
  lemma DocumentValidIff(doc: VoidedDocument)
    ensures DocumentError(doc).None? <==>
      ValidateDocumentType(doc.documentTypeCode)
      && ValidateDocumentSeries(doc.documentSeries)
      && ValidateDocumentNumber(doc.documentNumber)
      && doc.voidedReason != ""
  {
    if ValidateDocumentType(doc.documentTypeCode) {
      DocumentTypeShape(doc.documentTypeCode);
    }
  }

  /** An empty field is reported as missing, never as malformed. */
  lemma MissingBeforeMalformed(doc: VoidedDocument)
    requires ValidateDocumentType(doc.documentTypeCode) && doc.documentSeries == ""
    ensures DocumentError(doc) == Some("document series is required")
  {
    DocumentTypeShape(doc.documentTypeCode);
  }

  /** The index of the first document that fails, if any. */
  function FirstInvalid(docs: seq<VoidedDocument>): (r: Option<nat>)
    ensures r.Some? ==> r.value < |docs| && DocumentError(docs[r.value]).Some?
    ensures r.Some? ==> forall j :: 0 <= j < r.value ==> DocumentError(docs[j]).None?
    ensures r.None? <==> forall j :: 0 <= j < |docs| ==> DocumentError(docs[j]).None?
    decreases |docs|
  {
    if docs == [] then None
    else if DocumentError(docs[0]).Some? then Some(0)
    else
      match FirstInvalid(docs[1..])
      case None => None
      case Some(k) => Some(k + 1)
  }

  /** voided_documents.go VoidedDocumentsRequest.Validate as a value: the first failing check, in source order. */
  function RequestError(req: VoidedDocumentsRequest): Option<string> {
    if req.ruc == "" then Some("RUC is required")
    else if !RucChecksumValid(req.ruc) then Some("invalid RUC format: " + req.ruc)
    else if req.companyName == "" then Some("company name is required")
    else if req.seriesNumber == "" then Some("series number is required")
    else if |req.documents| == 0 then Some("at least one document is required")
    else
      match FirstInvalid(req.documents)
      case None => None
      case Some(i) => Some("document " + NatToString(i + 1) + ": " + DocumentError(req.documents[i]).value)
  }

  /**
   * voided_documents.go VoidedDocumentsRequest.Validate: the header checks,
   * then every document in order, reporting the first failure with its
   * position counted from one.
   */
  method ValidateRequest(req: VoidedDocumentsRequest) returns (err: Option<string>)
    ensures err == RequestError(req)
  {
    if req.ruc == "" {
      return Some("RUC is required");
    }
    var rucOk := ValidateRuc(req.ruc);
    if !rucOk {
      return Some("invalid RUC format: " + req.ruc);
    }
    if req.companyName == "" {
      return Some("company name is required");
    }
    if req.seriesNumber == "" {
      return Some("series number is required");
    }
    if |req.documents| == 0 {
      return Some("at least one document is required");
    }
    for i := 0 to |req.documents|
      invariant forall j :: 0 <= j < i ==> DocumentError(req.documents[j]).None?
    {
      var docErr := DocumentError(req.documents[i]);
      if docErr.Some? {
        return Some("document " + NatToString(i + 1) + ": " + docErr.value);
      }
    }
    return None;
  }

  /** A request passes exactly when every header field and every document is acceptable. */
  lemma RequestValidIff(req: VoidedDocumentsRequest)
    ensures RequestError(req).None? <==>
      RucChecksumValid(req.ruc)
      && req.companyName != ""
      && req.seriesNumber != ""
      && |req.documents| > 0
      && forall j :: 0 <= j < |req.documents| ==> DocumentError(req.documents[j]).None?
  {
  }

  /** A failing document is reported by its one-based position, after all header checks pass. */
  lemma RequestReportsFirstDocument(req: VoidedDocumentsRequest, i: nat)
    requires RucChecksumValid(req.ruc) && req.companyName != "" && req.seriesNumber != ""
    requires i < |req.documents| && DocumentError(req.documents[i]).Some?
    requires forall j :: 0 <= j < i ==> DocumentError(req.documents[j]).None?
    ensures RequestError(req) == Some("document " + NatToString(i + 1) + ": " + DocumentError(req.documents[i]).value)
  {
    var r := FirstInvalid(req.documents);
    assert r.Some?;
    assert r.value == i;
  }

  // ---------------------------------------------------------------------
  // GenerateVoidedDocumentsXML
  // ---------------------------------------------------------------------

  /** fmt.Sprintf with `%s` verbs only: the pieces of the format with the arguments between them. */
  function Sprintf(pieces: seq<string>, args: seq<string>): string
    requires |pieces| == |args| + 1
    decreases |args|
  {
    if args == [] then pieces[0] else pieces[0] + args[0] + Sprintf(pieces[1..], args[1..])
  }

  /** The ExtensionContent element the header writes: opening and closing tag on consecutive lines, not indented. */
  const ExtensionBlock := "<" + ExtensionOpenRest + "<" + ExtensionCloseRest

  const ExtensionOpenRest := "ext:ExtensionContent>\n"
  const ExtensionCloseRest := "/ext:ExtensionContent>"

  /** The XML declaration and the root element's namespaces. */
  const Prologue :=
    "<?xml version=\"1.0\" encoding=\"ISO-8859-1\" standalone=\"no\"?>\n" +
    "<VoidedDocuments xmlns=\"urn:sunat:names:specification:ubl:peru:schema:xsd:VoidedDocuments-1\"\n" +
    "xmlns:cac=\"urn:oasis:names:specification:ubl:schema:xsd:CommonAggregateComponents-2\"\n" +
    "xmlns:cbc=\"urn:oasis:names:specification:ubl:schema:xsd:CommonBasicComponents-2\"\n" +
    "xmlns:ds=\"http://www.w3.org/2000/09/xmldsig#\"\n" +
    "xmlns:ext=\"urn:oasis:names:specification:ubl:schema:xsd:CommonExtensionComponents-2\"\n" +
    "xmlns:sac=\"urn:sunat:names:specification:ubl:peru:schema:xsd:SunatAggregateComponents-1\"\n" +
    "xmlns:xsi=\"http://www.w3.org/2001/XMLSchema-instance\">\n" +
    "<ext:UBLExtensions><ext:UBLExtension>\n"

  /** What follows the ExtensionContent element up to the first `%s`. */
  const AfterExtensions :=
    "\n" +
    "</ext:UBLExtension></ext:UBLExtensions>\n" +
    "<cbc:UBLVersionID>2.0</cbc:UBLVersionID>\n" +
    "<cbc:CustomizationID>1.0</cbc:CustomizationID>\n" +
    "<cbc:ID>"

  /** The header format; its seven `%s` are the series, the two dates, the RUC, the name, the RUC and the name. */
  const HeaderFormat: seq<string> := [
    Prologue + ExtensionBlock + AfterExtensions,
    "</cbc:ID>\n" +
    "<cbc:ReferenceDate>",
    "</cbc:ReferenceDate>\n" +
    "<cbc:IssueDate>",
    "</cbc:IssueDate>\n" +
    "<cac:Signature>\n" +
    "<cbc:ID>IDSignKG</cbc:ID>\n" +
    "<cac:SignatoryParty>\n" +
    "<cac:PartyIdentification>\n" +
    "<cbc:ID>",
    "</cbc:ID>\n" +
    "</cac:PartyIdentification>\n" +
    "<cac:PartyName>\n" +
    "<cbc:Name><![CDATA[",
    "]]></cbc:Name>\n" +
    "</cac:PartyName>\n" +
    "</cac:SignatoryParty>\n" +
    "<cac:DigitalSignatureAttachment>\n" +
    "<cac:ExternalReference>\n" +
    "<cbc:URI>#signatureKG</cbc:URI>\n" +
    "</cac:ExternalReference>\n" +
    "</cac:DigitalSignatureAttachment>\n" +
    "</cac:Signature>\n" +
    "<cac:AccountingSupplierParty>\n" +
    "<cbc:CustomerAssignedAccountID>",
    "</cbc:CustomerAssignedAccountID>\n" +
    "<cbc:AdditionalAccountID>6</cbc:AdditionalAccountID>\n" +
    "<cac:Party>\n" +
    "<cac:PartyLegalEntity>\n" +
    "<cbc:RegistrationName><![CDATA[",
    "]]></cbc:RegistrationName>\n" +
    "</cac:PartyLegalEntity>\n" +
    "</cac:Party>\n" +
    "</cac:AccountingSupplierParty>"
  ]

  /** The header of the VoidedDocuments XML; `name` is the escaped company name. */
  function Header(req: VoidedDocumentsRequest, name: string): string {
    Sprintf(HeaderFormat, [req.seriesNumber, FormatIso(req.referenceDate), FormatIso(req.issueDate),
                           req.ruc, name, req.ruc, name])
  }

  /** The format of one VoidedDocumentsLine: line number, type, series, number and reason. */
  const LineFormat: seq<string> := [
    "\n<sac:VoidedDocumentsLine>\n" +
    "<cbc:LineID>",
    "</cbc:LineID>\n" +
    "<cbc:DocumentTypeCode>",
    "</cbc:DocumentTypeCode>\n" +
    "<sac:DocumentSerialID>",
    "</sac:DocumentSerialID>\n" +
    "<sac:DocumentNumberID>",
    "</sac:DocumentNumberID>\n" +
    "<sac:VoidReasonDescription>",
    "</sac:VoidReasonDescription>\n" +
    "</sac:VoidedDocumentsLine>"
  ]

  /** One VoidedDocumentsLine with the given line number; `reason` is the escaped reason. */
  function LineText(lineId: nat, doc: VoidedDocument, reason: string): string {
    Sprintf(LineFormat, [NatToString(lineId), doc.documentTypeCode, doc.documentSeries, doc.documentNumber, reason])
  }

  /** The line of a document, its reason escaped. */
  function DocumentLine(lineId: nat, doc: VoidedDocument): string {
    LineText(lineId, doc, CleanedText(doc.voidedReason))
  }

  /** The header starts with the prologue and the ExtensionContent element. */
  lemma HeaderWritesExtensionBlock(req: VoidedDocumentsRequest, name: string)
    ensures Prologue + ExtensionBlock <= Header(req, name)
  {
    var args := [req.seriesNumber, FormatIso(req.referenceDate), FormatIso(req.issueDate), req.ruc, name, req.ruc, name];
    SprintfStartsWith(HeaderFormat, args, Prologue + ExtensionBlock, AfterExtensions);
  }

  /** A formatted text starts with whatever the format's first piece starts with. */
  lemma SprintfStartsWith(pieces: seq<string>, args: seq<string>, start: string, rest: string)
    requires |pieces| == |args| + 1 && pieces[0] == start + rest
    ensures start <= Sprintf(pieces, args)
  {
    if args != [] {
      assert Sprintf(pieces, args) == start + (rest + args[0] + Sprintf(pieces[1..], args[1..]));
    } else {
      assert Sprintf(pieces, args) == start + rest;
    }
  }

  /** Items written one after the other by `line`, numbered from `after + 1` on. */
  function Numbered<T>(xs: seq<T>, after: nat, line: (nat, T) -> string): string
    decreases |xs|
  {
    if xs == [] then "" else line(after + 1, xs[0]) + Numbered(xs[1..], after + 1, line)
  }

  lemma {:induction false} NumberedSnoc<T>(xs: seq<T>, after: nat, line: (nat, T) -> string, x: T)
    ensures Numbered(xs + [x], after, line) == Numbered(xs, after, line) + line(after + |xs| + 1, x)
    decreases |xs|
  {
    if xs == [] {
      assert [x][1..] == [];
    } else {
      assert (xs + [x])[1..] == xs[1..] + [x];
      NumberedSnoc(xs[1..], after + 1, line, x);
    }
  }

  lemma {:induction false} NumberedSplit<T>(xs: seq<T>, after: nat, line: (nat, T) -> string, k: nat)
    requires k <= |xs|
    ensures Numbered(xs, after, line) == Numbered(xs[..k], after, line) + Numbered(xs[k..], after + k, line)
    decreases k
  {
    if k > 0 {
      assert xs[..k][1..] == xs[1..][..k - 1];
      assert xs[k..] == xs[1..][k - 1..];
      NumberedSplit(xs[1..], after + 1, line, k - 1);
    }
  }

  lemma NumberedAt<T>(xs: seq<T>, after: nat, line: (nat, T) -> string, k: nat)
    requires k < |xs|
    ensures Numbered(xs, after, line)
      == Numbered(xs[..k], after, line) + line(after + k + 1, xs[k]) + Numbered(xs[k + 1..], after + k + 1, line)
  {
    NumberedSplit(xs, after, line, k);
    assert xs[k..][1..] == xs[k + 1..];
  }

  /** The text of the lines of `docs`, numbered from `after + 1` on. */
  function LinesFrom(docs: seq<VoidedDocument>, after: nat): string {
    Numbered(docs, after, DocumentLine)
  }

  const Footer := "\n</VoidedDocuments>"

  /** What GenerateVoidedDocumentsXML returns: an error for no documents, else header, lines 1..n and footer. */
  function VoidedXml(req: VoidedDocumentsRequest): Result<string, string> {
    if |req.documents| == 0 then Failure("no documents to void")
    else Success(Header(req, CleanedText(req.companyName)) + LinesFrom(req.documents, 0) + Footer)
  }

  /** Appending a document appends its line, numbered after all earlier ones. */
  lemma LinesFromSnoc(docs: seq<VoidedDocument>, after: nat, d: VoidedDocument)
    ensures LinesFrom(docs + [d], after) == LinesFrom(docs, after) + DocumentLine(after + |docs| + 1, d)
  {
    NumberedSnoc(docs, after, DocumentLine, d);
  }

  /** Document `k` (from zero) is written as line `k + 1`, after the lines of the documents before it. */
  lemma LineNumbering(docs: seq<VoidedDocument>, k: nat)
    requires k < |docs|
    ensures LinesFrom(docs, 0) == LinesFrom(docs[..k], 0) + DocumentLine(k + 1, docs[k]) + LinesFrom(docs[k + 1..], k + 1)
  {
    NumberedAt(docs, 0, DocumentLine, k);
  }

  /**
   * The line written for document `k` carries GenerateLineID(k) in its LineID
   * element: the builder's inline `i+1` and the exported helper agree.
   */
  lemma LineIdWritten(docs: seq<VoidedDocument>, k: nat)
    requires k < |docs|
    ensures LinesFrom(docs, 0)
      == LinesFrom(docs[..k], 0) + DocumentLine(GenerateLineId(k), docs[k]) + LinesFrom(docs[k + 1..], k + 1)
    ensures LineFormat[0] + NatToString(GenerateLineId(k)) + "</cbc:LineID>" <= DocumentLine(GenerateLineId(k), docs[k])
  {
    LineNumbering(docs, k);
    var doc := docs[k];
    var args := [NatToString(k + 1), doc.documentTypeCode, doc.documentSeries, doc.documentNumber, CleanedText(doc.voidedReason)];
    assert LineFormat[1..][0] == "</cbc:LineID>" + ("\n" + "<cbc:DocumentTypeCode>");
    SprintfStartsWith(LineFormat[1..], args[1..], "</cbc:LineID>", "\n" + "<cbc:DocumentTypeCode>");
    assert DocumentLine(k + 1, doc) == LineFormat[0] + args[0] + Sprintf(LineFormat[1..], args[1..]);
  }

  /**
   * voided_documents.go GenerateVoidedDocumentsXML: the header, then one line
   * per document appended in order, then the closing tag.
   */
  method GenerateVoidedDocumentsXml(req: VoidedDocumentsRequest) returns (r: Result<string, string>)
    ensures r == VoidedXml(req)
  {
    if |req.documents| == 0 {
      return Failure("no documents to void");
    }
    var name := ValidateSpecialCharacters(req.companyName);
    var xmlContent := Header(req, name);
    xmlContent := AppendLines(xmlContent, req.documents);
    xmlContent := xmlContent + Footer;
    return Success(xmlContent);
  }

  /** The loop of GenerateVoidedDocumentsXML: appends the line of each document, numbered from one, escaping its reason. */
  method AppendLines(xmlContent: string, docs: seq<VoidedDocument>) returns (r: string)
    ensures r == xmlContent + LinesFrom(docs, 0)
  {
    r := xmlContent;
    for i := 0 to |docs|
      invariant r == xmlContent + LinesFrom(docs[..i], 0)
    {
      var line := WriteLine(i + 1, docs[i]);
      LinesFromPrefix(docs, i);
      r := r + line;
    }
    assert docs[..|docs|] == docs;
  }

  /** One iteration's text: the document's line with its reason escaped. */
  method WriteLine(lineId: nat, doc: VoidedDocument) returns (line: string)
    ensures line == DocumentLine(lineId, doc)
  {
    var reason := ValidateSpecialCharacters(doc.voidedReason);
    line := LineText(lineId, doc, reason);
  }

  /** The lines of the first `i + 1` documents are those of the first `i` and then line `i + 1`. */
  lemma LinesFromPrefix(docs: seq<VoidedDocument>, i: nat)
    requires i < |docs|
    ensures LinesFrom(docs[..i + 1], 0) == LinesFrom(docs[..i], 0) + DocumentLine(i + 1, docs[i])
  {
    LinesFromSnoc(docs[..i], 0, docs[i]);
    assert docs[..i + 1] == docs[..i] + [docs[i]];
  }

  /** The free text the XML carries (company name, reasons) holds no raw markup character. */
  lemma FreeTextEscaped(req: VoidedDocumentsRequest, k: nat)
    requires k < |req.documents|
    ensures forall c :: c in CleanedText(req.companyName) ==> c !in "<>\"'"
    ensures forall c :: c in CleanedText(req.documents[k].voidedReason) ==> c !in "<>\"'"
  {
    CleanedTextSafe(req.companyName);
    CleanedTextSafe(req.documents[k].voidedReason);
  }

  /**
   * The ExtensionContent element of the header is none of the three empty
   * forms the signature-template step recognises, so that step cannot use it.
   */
  lemma ExtensionBlockNotAPlaceholder()
    ensures forall j :: 0 <= j < |XmlSigner.Placeholders| ==> !Contains(ExtensionBlock, XmlSigner.Placeholders[j])
  {
    BlockLacksFirstForm();
    BlockLacksSecondForm();
    BlockLacksThirdForm();
  }

  lemma BlockLacksFirstForm()
    ensures !Contains(ExtensionBlock, XmlSigner.Placeholders[0])
  {
    var p := XmlSigner.Placeholders[0];
    assert |ExtensionBlock| < |p|;
    IndexOfFirst(ExtensionBlock, p);
  }

  /** Both remaining forms need a '/' where the element has only its closing tag's '/', at 24, and a '<' three places or one place before it. */
  lemma BlockLacksSecondForm()
    ensures !Contains(ExtensionBlock, XmlSigner.Placeholders[1])
  {
    var s, p := ExtensionBlock, XmlSigner.Placeholders[1];
    BlockSlash();
    assert |p| == 45 && p[0] == '<' && p[23] == '/';
    forall i | 0 <= i && i + |p| <= |s| ensures !OccursAt(s, p, i) {
      if i == 1 {
        assert s[i..i + |p|][0] == s[1];
      } else {
        assert s[i..i + |p|][23] == s[i + 23];
      }
    }
    IndexOfFirst(s, p);
  }

  lemma BlockLacksThirdForm()
    ensures !Contains(ExtensionBlock, XmlSigner.Placeholders[2])
  {
    var s, p := ExtensionBlock, XmlSigner.Placeholders[2];
    BlockSlash();
    assert |p| == 23 && p[0] == '<' && p[21] == '/';
    forall i | 0 <= i && i + |p| <= |s| ensures !OccursAt(s, p, i) {
      if i == 3 {
        assert s[i..i + |p|][0] == s[3];
      } else {
        assert s[i..i + |p|][21] == s[i + 21];
      }
    }
    IndexOfFirst(s, p);
  }

  /** The header's ExtensionContent element has its only '/' at 24. */
  lemma BlockSlash()
    ensures |ExtensionBlock| == 46 && ExtensionBlock[1] == 'e' && ExtensionBlock[3] == 't'
    ensures forall k :: 0 <= k < |ExtensionBlock| && k != 24 ==> ExtensionBlock[k] != '/'
  {
    var s := ExtensionBlock;
    forall k | 0 <= k < |s| && k != 24 ensures s[k] in {'<', 'e', 'x', 't', ':', 'E', 'n', 's', 'i', 'o', 'C', '>', '\n'} {
    }
  }

  /** Given to the signature-template step on its own, the header's ExtensionContent element is refused. */
  lemma ExtensionBlockRefused()
    ensures XmlSigner.TemplateOutcome(ExtensionBlock) == Failure(XmlSigner.NoPlaceholder)
  {
    var b := ExtensionBlock;
    forall k | 0 <= k < |b| ensures b[k] in {'<', '/', 'e', 'x', 't', ':', 'E', 'n', 's', 'i', 'o', 'C', '>', '\n'} {
    }
    AbsentChar(b, XmlSigner.DsNamespace, '"');
    AbsentChar(b, "<Invoice ", ' ');
    ExtensionBlockNotAPlaceholder();
  }

  // ---------------------------------------------------------------------
  // GenerateVoidedDocumentsSeries
  // ---------------------------------------------------------------------

  /** voided_documents.go GenerateVoidedDocumentsSeries: "RA-", the date as YYYYMMDD, "-", the number as `%03d`. */
  function GenerateVoidedDocumentsSeries(referenceDate: Date, sequential: int): string {
    "RA-" + FormatCompact(referenceDate) + "-" + PadInt(sequential, 3)
  }

  /** For a valid date and a non-negative number the series reads back as that date and number. */
  lemma SeriesParts(d: Date, n: nat)
    requires ValidDate(d)
    ensures var s := GenerateVoidedDocumentsSeries(d, n);
      && |s| >= 15 && s[..3] == "RA-" && s[11] == '-'
      && s[3..11] == FormatCompact(d)
      && AllDigits(s[12..]) && ParseNat(s[12..]) == n
      && (n < 1000 ==> |s| == 15)
  {
    var s := GenerateVoidedDocumentsSeries(d, n);
    CompactParts(d);
    var c := FormatCompact(d);
    assert s == "RA-" + c + "-" + PadNat(n, 3);
    assert s[3..11] == c;
    assert s[12..] == PadNat(n, 3);
    ParsePadNat(n, 3);
    if n < 1000 {
      assert Power10(3) == 1000;
      PadRoundTrip(n, 3);
    }
  }

  /** Different dates or numbers never share a series. */
  lemma SeriesInjective(d1: Date, n1: nat, d2: Date, n2: nat)
    requires ValidDate(d1) && ValidDate(d2)
    requires GenerateVoidedDocumentsSeries(d1, n1) == GenerateVoidedDocumentsSeries(d2, n2)
    ensures d1 == d2 && n1 == n2
  {
    SeriesParts(d1, n1);
    SeriesParts(d2, n2);
    CompactParts(d1);
    CompactParts(d2);
  }
}
