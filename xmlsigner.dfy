/**
 * The signature-template step of the XML signer (signer/xmlsigner.go): it
 * makes sure the `ds` namespace is declared and injects an empty XML-DSig
 * Signature element into the first empty UBL ExtensionContent it recognises.
 * Running xmlsec1 over the result is not part of this model.
 */
module XmlSigner {
  import opened Wrappers
  import opened Text

  /** The enveloped Signature skeleton xmlsec1 fills in. */
  const SignatureTemplate: string :=
    "    <ds:Signature Id=\"SignatureSP\">\n" +
    "        <ds:SignedInfo>\n" +
    "            <ds:CanonicalizationMethod Algorithm=\"http://www.w3.org/TR/2001/REC-xml-c14n-20010315\"/>\n" +
    "            <ds:SignatureMethod Algorithm=\"http://www.w3.org/2000/09/xmldsig#rsa-sha1\"/>\n" +
    "            <ds:Reference URI=\"\">\n" +
    "                <ds:Transforms>\n" +
    "                    <ds:Transform Algorithm=\"http://www.w3.org/2000/09/xmldsig#enveloped-signature\"/>\n" +
    "                </ds:Transforms>\n" +
    "                <ds:DigestMethod Algorithm=\"http://www.w3.org/2000/09/xmldsig#sha1\"/>\n" +
    "                <ds:DigestValue/>\n" +
    "            </ds:Reference>\n" +
    "        </ds:SignedInfo>\n" +
    "        <ds:SignatureValue/>\n" +
    "        <ds:KeyInfo>\n" +
    "            <ds:X509Data>\n" +
    "                <ds:X509Certificate/>\n" +
    "            </ds:X509Data>\n" +
    "        </ds:KeyInfo>\n" +
    "    </ds:Signature>"

  /** The namespace declaration the template's `ds:` prefix needs. */
  const DsNamespace := "xmlns:ds=\"http://www.w3.org/2000/09/xmldsig#\""

  /** The empty ExtensionContent forms the injector recognises, in the order it tries them. */
  const Placeholders: seq<string> := [
    ContentOpen + "\n    " + ContentClose,
    ContentOpen + ContentClose,
    "<ext:ExtensionContent/>"
  ]

  const ContentOpen := "<ext:ExtensionContent>"
  const ContentClose := "</ext:ExtensionContent>"

  /** What replaces the chosen placeholder. */
  const Injected := "<ext:ExtensionContent>\n" + SignatureTemplate + "\n    </ext:ExtensionContent>"

  const NoPlaceholder := "no suitable ExtensionContent found for signature injection"

  /** First step: declare `ds` on the first `<Invoice ` unless the exact declaration is already there. */
  function EnsureDsNamespace(xml: string): string {
    if Contains(xml, DsNamespace) then xml
    else ReplaceFirst(xml, "<Invoice ", "<Invoice " + DsNamespace + " ")
  }

  /** The index, in priority order, of the first placeholder form that occurs. */
  function ChosenPlaceholder(xml: string): (k: Option<nat>)
    ensures k.Some? ==> k.value < |Placeholders| && Contains(xml, Placeholders[k.value])
    ensures k.Some? ==> forall j :: 0 <= j < k.value ==> !Contains(xml, Placeholders[j])
    ensures k.None? <==> forall j :: 0 <= j < |Placeholders| ==> !Contains(xml, Placeholders[j])
  {
    if Contains(xml, Placeholders[0]) then Some(0)
    else if Contains(xml, Placeholders[1]) then Some(1)
    else if Contains(xml, Placeholders[2]) then Some(2)
    else None
  }

  /** What createSignatureTemplate returns for an input text. */
  function TemplateOutcome(xml: string): Result<string, string> {
    var x := EnsureDsNamespace(xml);
    match ChosenPlaceholder(x)
    case None => Failure(NoPlaceholder)
    case Some(k) => Success(ReplaceFirst(x, Placeholders[k], Injected))
  }

  /**
   * signer/xmlsigner.go createSignatureTemplate: reassigns the text through the
   * namespace step and then one of three single replacements.
   */
  method CreateSignatureTemplate(xml: string) returns (r: Result<string, string>)
    ensures r == TemplateOutcome(xml)
  {
    var xmlStr := xml;
    if !Contains(xmlStr, DsNamespace) {
      xmlStr := ReplaceFirst(xmlStr, "<Invoice ", "<Invoice " + DsNamespace + " ");
    }
    if Contains(xmlStr, ContentOpen + "\n    " + ContentClose) {
      xmlStr := ReplaceFirst(xmlStr, ContentOpen + "\n    " + ContentClose, Injected);
    } else if Contains(xmlStr, ContentOpen + ContentClose) {
      xmlStr := ReplaceFirst(xmlStr, ContentOpen + ContentClose, Injected);
    } else if Contains(xmlStr, "<ext:ExtensionContent/>") {
      xmlStr := ReplaceFirst(xmlStr, "<ext:ExtensionContent/>", Injected);
    } else {
      return Failure(NoPlaceholder);
    }
    return Success(xmlStr);
  }

  /** With the declaration present the namespace step changes nothing. */
  lemma NamespaceKept(xml: string)
    requires Contains(xml, DsNamespace)
    ensures EnsureDsNamespace(xml) == xml
  {
  }

  /** Without it, the declaration goes right after the first `<Invoice ` and nowhere else. */
  lemma NamespaceInserted(xml: string, i: nat)
    requires !Contains(xml, DsNamespace) && FirstAt(xml, "<Invoice ", i)
    ensures EnsureDsNamespace(xml) == xml[..i] + "<Invoice " + DsNamespace + " " + xml[i + 9..]
  {
    IndexOfUnique(xml, "<Invoice ", i);
  }

  /** Without the declaration and without an `<Invoice ` element the text is left as it is. */
  lemma NamespaceNoInvoice(xml: string)
    requires !Contains(xml, "<Invoice ")
    ensures EnsureDsNamespace(xml) == xml
  {
  }

  /**
   * On success the output is the text before the first occurrence of the chosen
   * placeholder, the filled ExtensionContent, and the text after it; every
   * placeholder form of higher priority is absent.
   */
  lemma InjectionShape(xml: string)
    requires TemplateOutcome(xml).Success?
    ensures var x := EnsureDsNamespace(xml);
      exists k, i ::
        && 0 <= k < |Placeholders|
        && (forall j :: 0 <= j < k ==> !Contains(x, Placeholders[j]))
        && FirstAt(x, Placeholders[k], i)
        && TemplateOutcome(xml).value == x[..i] + Injected + x[i + |Placeholders[k]|..]
  {
    var x := EnsureDsNamespace(xml);
    var k := ChosenPlaceholder(x).value;
    ChosenIsFirst(x);
    var p := Placeholders[k];
    IndexOfFound(x, p);
    var i := IndexOf(x, p).value;
    ReplaceFirstAt(x, p, Injected, i);
    assert TemplateOutcome(xml).value == x[..i] + Injected + x[i + |p|..];
  }

  /** The chosen form occurs and every form before it is absent. */
  lemma ChosenIsFirst(x: string)
    requires ChosenPlaceholder(x).Some?
    ensures var k := ChosenPlaceholder(x).value;
      && 0 <= k < |Placeholders| && Contains(x, Placeholders[k])
      && forall j :: 0 <= j < k ==> !Contains(x, Placeholders[j])
  {
  }

  /** When none of the three forms occurs the step fails. */
  lemma NoPlaceholderFails(xml: string)
    requires forall j :: 0 <= j < |Placeholders| ==> !Contains(EnsureDsNamespace(xml), Placeholders[j])
    ensures TemplateOutcome(xml) == Failure(NoPlaceholder)
  {
  }

  /** The first form wins over the others wherever they occur. */
  lemma FirstFormPreferred(xml: string)
    requires Contains(EnsureDsNamespace(xml), Placeholders[0])
    ensures TemplateOutcome(xml) == Success(ReplaceFirst(EnsureDsNamespace(xml), Placeholders[0], Injected))
  {
  }
}
