/**
 * Field checks and text cleaning shared by the document builders
 * (utils/validation.go): the XML escaper, the RUC check digit, the series,
 * number and document-type formats and the voided-line numbering.
 */
module Utils {
  import opened Text
  import opened Decimal

  // ---------------------------------------------------------------------
  // ValidateSpecialCharacters / CleanTextForXML
  // ---------------------------------------------------------------------

  /** The five characters the escaper rewrites, in the order it rewrites them. */
  const Specials: seq<char> := ['&', '<', '>', '"', '\'']

  /** The entity each of `Specials` becomes. */
  const Entities: seq<string> := ["&amp;", "&lt;", "&gt;", "&quot;", "&apos;"]

  /** What the first `k` replacements of the escaper make of one input character. */
  function EscapedUpTo(k: nat, c: char): string
    requires k <= 5
  {
    if k >= 1 && c == '&' then "&amp;"
    else if k >= 2 && c == '<' then "&lt;"
    else if k >= 3 && c == '>' then "&gt;"
    else if k >= 4 && c == '"' then "&quot;"
    else if k >= 5 && c == '\'' then "&apos;"
    else [c]
  }

  /** The escape of one character once all five replacements are done. */
  function EscapeChar(c: char): string {
    EscapedUpTo(5, c)
  }

  /** The control characters of the class `[\x00-\x08\x0B\x0C\x0E-\x1F\x7F]`; tab, LF and CR are not among them. */
  predicate IsStrippedControl(c: char) {
    c <= '\U{08}' || c == '\U{0B}' || c == '\U{0C}' || ('\U{0E}' <= c <= '\U{1F}') || c == '\U{7F}'
  }

  /** The character-by-character part of the cleaning: controls vanish, specials become entities. */
  function CleanChar(c: char): string {
    if IsStrippedControl(c) then "" else EscapeChar(c)
  }

  /** Reference definition of ValidateSpecialCharacters: map every character, then trim. */
  function CleanedText(text: string): string {
    TrimSpace(FlatMap(text, CleanChar))
  }

  /**
   * One strings.ReplaceAll of a single character applied after a character map
   * `e` gives the character map `e2`, provided each character was either still
   * untouched by `e` (then `e2` replaces it when it is `c`) or already rewritten
   * into text free of `c` (then `e2` keeps that text).
   */
  lemma ReplaceAfterMap(s: string, e: char -> string, c: char, to: string, e2: char -> string)
    requires forall i :: 0 <= i < |s| ==>
      (e(s[i]) == [s[i]] && e2(s[i]) == (if s[i] == c then to else [s[i]]))
      || (c !in e(s[i]) && e2(s[i]) == e(s[i]))
    ensures ReplaceAll(FlatMap(s, e), [c], to) == FlatMap(s, e2)
  {
    var g := x => if x == c then to else [x];
    ReplaceAllChar(FlatMap(s, e), c, to);
    forall i | 0 <= i < |s| ensures e2(s[i]) == FlatMap(e(s[i]), g) {
      var x := s[i];
      if e(x) == [x] && e2(x) == (if x == c then to else [x]) {
        assert [x][1..] == [];
        assert FlatMap(e(x), g) == g(x) + FlatMap([], g);
      } else {
        forall j | 0 <= j < |e(x)| ensures g(e(x)[j]) == [e(x)[j]] {
          assert e(x)[j] in e(x);
        }
        FlatMapKeeps(e(x), g);
      }
    }
    FlatMapCompose(s, e, g, e2);
  }

  /** The `k`-th replacement turns the map of the first `k - 1` into the map of the first `k`. */
  lemma EscapeStep(s: string, k: nat)
    requires 1 <= k <= 5
    ensures ReplaceAll(FlatMap(s, c => EscapedUpTo(k - 1, c)), [Specials[k - 1]], Entities[k - 1])
         == FlatMap(s, c => EscapedUpTo(k, c))
  {
    forall i | 0 <= i < |s|
      ensures (EscapedUpTo(k - 1, s[i]) == [s[i]]
               && EscapedUpTo(k, s[i]) == (if s[i] == Specials[k - 1] then Entities[k - 1] else [s[i]]))
           || (Specials[k - 1] !in EscapedUpTo(k - 1, s[i]) && EscapedUpTo(k, s[i]) == EscapedUpTo(k - 1, s[i]))
    {
      EscapeStepChar(k, s[i]);
    }
    ReplaceAfterMap(s, c => EscapedUpTo(k - 1, c), Specials[k - 1], Entities[k - 1], c => EscapedUpTo(k, c));
  }

  lemma EscapeStepChar(k: nat, x: char)
    requires 1 <= k <= 5
    ensures (EscapedUpTo(k - 1, x) == [x]
             && EscapedUpTo(k, x) == (if x == Specials[k - 1] then Entities[k - 1] else [x]))
         || (Specials[k - 1] !in EscapedUpTo(k - 1, x) && EscapedUpTo(k, x) == EscapedUpTo(k - 1, x))
  {
  }

  /** The five replacements in the order the escaper makes them are the single map EscapeChar. */
  lemma EscapeChain(text: string)
    ensures ReplaceAll(ReplaceAll(ReplaceAll(ReplaceAll(ReplaceAll(text,
              "&", "&amp;"), "<", "&lt;"), ">", "&gt;"), "\"", "&quot;"), "'", "&apos;")
         == FlatMap(text, EscapeChar)
  {
    FlatMapKeeps(text, c => EscapedUpTo(0, c));
    EscapeStep(text, 1);
    EscapeStep(text, 2);
    EscapeStep(text, 3);
    EscapeStep(text, 4);
    EscapeStep(text, 5);
    FlatMapSameOn(text, c => EscapedUpTo(5, c), EscapeChar);
  }

  /**
   * utils/validation.go ValidateSpecialCharacters: five replacements (the
   * ampersand first), removal of the control characters, then TrimSpace.
   */
  method ValidateSpecialCharacters(text: string) returns (r: string)
    ensures r == CleanedText(text)
    ensures text == "" ==> r == ""
    ensures forall i :: 0 <= i < |r| ==> r[i] !in "<>\"'" && !IsStrippedControl(r[i])
    ensures r == [] || (!IsSpace(r[0]) && !IsSpace(r[|r| - 1]))
  {
    if text == "" {
      return text;
    }
    var t := text;
    t := ReplaceAll(t, "&", "&amp;");
    t := ReplaceAll(t, "<", "&lt;");
    t := ReplaceAll(t, ">", "&gt;");
    t := ReplaceAll(t, "\"", "&quot;");
    t := ReplaceAll(t, "'", "&apos;");
    EscapeChain(text);
    t := RemoveControls(t);
    DropAfterEscape(text);
    t := TrimSpace(t);
    r := t;
    CleanedTextSafe(text);
  }

  /** regexp.ReplaceAllString with the control-character class and "": drop every matched character. */
  function RemoveControls(s: string): (r: string)
    ensures forall i :: 0 <= i < |r| ==> !IsStrippedControl(r[i])
    ensures |r| <= |s|
    decreases |s|
  {
    if s == [] then []
    else if IsStrippedControl(s[0]) then RemoveControls(s[1..])
    else [s[0]] + RemoveControls(s[1..])
  }

  lemma {:induction false} RemoveControlsIsMap(s: string)
    ensures RemoveControls(s) == FlatMap(s, DropControl)
    decreases |s|
  {
    if s != [] {
      RemoveControlsIsMap(s[1..]);
    }
  }

  /** The controls the regexp drops: a character map that empties each of them. */
  function DropControl(x: char): string {
    if IsStrippedControl(x) then "" else [x]
  }

  lemma DropAfterEscapeChar(x: char)
    ensures FlatMap(EscapeChar(x), DropControl) == CleanChar(x)
  {
    var e := EscapeChar(x);
    if e == [x] {
      assert e[1..] == [];
      assert FlatMap(e, DropControl) == DropControl(x) + FlatMap([], DropControl);
    } else {
      EntityLetters(x);
      assert forall j :: 0 <= j < |e| ==> DropControl(e[j]) == [e[j]];
      FlatMapKeeps(e, DropControl);
    }
  }

  /** An entity is written with printable characters only. */
  lemma EntityLetters(x: char)
    requires EscapeChar(x) != [x]
    ensures forall j :: 0 <= j < |EscapeChar(x)| ==> EscapeChar(x)[j] in {'&', 'a', 'm', 'p', ';', 'l', 't', 'g', 'q', 'u', 'o', 's'}
  {
  }

  /** Removing the controls after escaping is the single map CleanChar. */
  lemma DropAfterEscape(text: string)
    ensures RemoveControls(FlatMap(text, EscapeChar)) == FlatMap(text, CleanChar)
  {
    RemoveControlsIsMap(FlatMap(text, EscapeChar));
    forall i | 0 <= i < |text| ensures CleanChar(text[i]) == FlatMap(EscapeChar(text[i]), DropControl) {
      DropAfterEscapeChar(text[i]);
    }
    FlatMapCompose(text, EscapeChar, DropControl, CleanChar);
  }

  /** What CleanChar writes holds no special character and no control. */
  lemma CleanCharSafe(y: char, x: char)
    requires x in CleanChar(y)
    ensures x !in "<>\"'" && !IsStrippedControl(x)
  {
  }

  /** No special character and no control survives the cleaning, and no white space is left at either end. */
  lemma CleanedTextSafe(text: string)
    ensures var r := CleanedText(text);
      forall i :: 0 <= i < |r| ==> r[i] !in "<>\"'" && !IsStrippedControl(r[i])
    ensures var r := CleanedText(text); r == [] || (!IsSpace(r[0]) && !IsSpace(r[|r| - 1]))
  {
    var m := FlatMap(text, CleanChar);
    var r := CleanedText(text);
    TrimSpaceSpec(m);
    var a := |m| - |TrimLeft(m)|;
    forall i | 0 <= i < |r| ensures r[i] !in "<>\"'" && !IsStrippedControl(r[i]) {
      assert r[i] == m[a + i];
      FlatMapChars(text, CleanChar, r[i]);
      var k :| 0 <= k < |text| && r[i] in CleanChar(text[k]);
      CleanCharSafe(text[k], r[i]);
    }
  }

  /** Ampersands are escaped first, so an entity already in the text is escaped a second time. */
  lemma DoubleEscapesEntity()
    ensures CleanedText("&lt;") == "&amp;lt;"
  {
    var s := "&lt;";
    assert FlatMap(s[3..], CleanChar) == ";";
    assert FlatMap(s[2..], CleanChar) == "t;";
    assert FlatMap(s[1..], CleanChar) == "lt;";
    assert FlatMap(s, CleanChar) == "&amp;lt;";
  }

  /** Text free of specials and controls, with no white space at either end, passes unchanged; interior tab, LF and CR included. */
  lemma CleanTextUnchanged(text: string)
    requires forall i :: 0 <= i < |text| ==> text[i] !in Specials && !IsStrippedControl(text[i])
    requires text == [] || (!IsSpace(text[0]) && !IsSpace(text[|text| - 1]))
    ensures CleanedText(text) == text
  {
    FlatMapKeeps(text, CleanChar);
  }

  /** Tab, LF and CR are not control characters the cleaning drops. */
  lemma KeepsLineBreaks()
    ensures CleanChar('\t') == "\t" && CleanChar('\n') == "\n" && CleanChar('\r') == "\r"
  {
  }

  /** html.EscapeString: `<`, `>`, `&`, `'` and `"` become `&lt;`, `&gt;`, `&amp;`, `&#39;` and `&#34;`. */
  function HtmlEscapeChar(c: char): string {
    if c == '<' then "&lt;"
    else if c == '>' then "&gt;"
    else if c == '&' then "&amp;"
    else if c == '\'' then "&#39;"
    else if c == '"' then "&#34;"
    else [c]
  }

  function HtmlEscape(s: string): string {
    FlatMap(s, HtmlEscapeChar)
  }

  /**
   * utils/validation.go CleanTextForXML: clean, then HTML-escape. Since the
   * cleaning has removed every other escapable character, the second step
   * only turns each `&` into `&amp;` again.
   */
  method CleanTextForXml(text: string) returns (r: string)
    ensures r == ReplaceAll(CleanedText(text), "&", "&amp;")
  {
    var t := ValidateSpecialCharacters(text);
    r := HtmlEscape(t);
    forall i | 0 <= i < |t|
      ensures HtmlEscapeChar(t[i]) == (x => if x == '&' then "&amp;" else [x])(t[i])
    {
    }
    FlatMapSameOn(t, HtmlEscapeChar, x => if x == '&' then "&amp;" else [x]);
    ReplaceAllChar(t, '&', "&amp;");
  }

  // ---------------------------------------------------------------------
  // ValidateRUC
  // ---------------------------------------------------------------------

  /** The weights of the RUC check digit, one per leading digit. */
  const RucWeights: seq<nat> := [5, 4, 3, 2, 7, 6, 5, 4, 3, 2]

  /** The weighted sum of a run of at most ten digits. */
  function WeightedSum(ds: string): nat
    requires |ds| <= 10 && AllDigits(ds)
    decreases |ds|
  {
    if ds == [] then 0
    else WeightedSum(ds[..|ds| - 1]) + DigitValue(ds[|ds| - 1]) * RucWeights[|ds| - 1]
  }

  /** 11 minus the sum modulo 11, where 10 stands for 0 and 11 for 1. */
  function CheckDigit(prefix: string): (d: nat)
    requires |prefix| == 10 && AllDigits(prefix)
    ensures d < 10
  {
    var c := 11 - WeightedSum(prefix) % 11;
    if c == 10 then 0 else if c == 11 then 1 else c
  }

  /** Eleven digits whose last one is the check digit of the first ten. */
  predicate RucChecksumValid(ruc: string) {
    |ruc| == 11 && AllDigits(ruc) && DigitValue(ruc[10]) == CheckDigit(ruc[..10])
  }

  /** utils/validation.go ValidateRUC: length, all digits, then the weighted check digit. */
  method ValidateRuc(ruc: string) returns (ok: bool)
    ensures ok <==> RucChecksumValid(ruc)
  {
    if |ruc| != 11 {
      return false;
    }
    if !AllDigits(ruc) {
      return false;
    }
    var sum := 0;
    for i := 0 to 10
      invariant sum == WeightedSum(ruc[..i])
    {
      assert ruc[..i + 1][..i] == ruc[..i];
      sum := sum + DigitValue(ruc[i]) * RucWeights[i];
    }
    var checkDigit := 11 - sum % 11;
    if checkDigit == 10 {
      checkDigit := 0;
    } else if checkDigit == 11 {
      checkDigit := 1;
    }
    ok := checkDigit == DigitValue(ruc[10]);
  }

  /** Every ten-digit prefix is completed by exactly one last digit. */
  lemma RucCompletion(prefix: string, c: char)
    requires |prefix| == 10 && AllDigits(prefix)
    ensures RucChecksumValid(prefix + [c]) <==> c == DigitChar(CheckDigit(prefix))
  {
    var ruc := prefix + [c];
    assert ruc[..10] == prefix;
    if RucChecksumValid(ruc) {
      assert IsDigit(ruc[10]);
    }
  }

  // ---------------------------------------------------------------------
  // Series, number, type and line numbering
  // ---------------------------------------------------------------------

  predicate IsUpper(c: char) {
    'A' <= c <= 'Z'
  }

  /** `s` splits after `k` characters into upper-case letters followed by digits. */
  predicate SplitsAt(s: string, k: nat) {
    k <= |s|
    && (forall i :: 0 <= i < k ==> IsUpper(s[i]))
    && (forall i :: k <= i < |s| ==> IsDigit(s[i]))
  }

  /** `^[A-Z]{1,2}\d{2,3}$`: one or two capitals, then two or three digits. */
  predicate MatchesSeriesPattern(s: string) {
    (SplitsAt(s, 1) && 2 <= |s| - 1 <= 3) || (SplitsAt(s, 2) && 2 <= |s| - 2 <= 3)
  }

  /** utils/validation.go ValidateDocumentSeries: length 3 or 4, then the pattern. */
  predicate ValidateDocumentSeries(series: string) {
    3 <= |series| <= 4 && MatchesSeriesPattern(series)
  }

  /** A valid series is a capital and two or three digits, or two capitals and two digits; nothing else. */
  lemma SeriesShapes(s: string)
    ensures ValidateDocumentSeries(s) <==>
      (|s| == 3 && IsUpper(s[0]) && IsDigit(s[1]) && IsDigit(s[2]))
      || (|s| == 4 && IsUpper(s[0]) && IsDigit(s[1]) && IsDigit(s[2]) && IsDigit(s[3]))
      || (|s| == 4 && IsUpper(s[0]) && IsUpper(s[1]) && IsDigit(s[2]) && IsDigit(s[3]))
  {
    if |s| == 3 && IsUpper(s[0]) && IsDigit(s[1]) && IsDigit(s[2]) {
      assert SplitsAt(s, 1);
    }
    if |s| == 4 && IsUpper(s[0]) && IsDigit(s[1]) && IsDigit(s[2]) && IsDigit(s[3]) {
      assert SplitsAt(s, 1);
    }
    if |s| == 4 && IsUpper(s[0]) && IsUpper(s[1]) && IsDigit(s[2]) && IsDigit(s[3]) {
      assert SplitsAt(s, 2);
    }
    if ValidateDocumentSeries(s) && SplitsAt(s, 2) && |s| == 3 {
      assert IsDigit(s[2]);
    }
  }

  /** utils/validation.go ValidateDocumentNumber: one to eight digits. */
  predicate ValidateDocumentNumber(number: string) {
    0 < |number| <= 8 && AllDigits(number)
  }

  /** The document types the voided communication accepts. */
  const DocumentTypes: set<string> := {"01", "03", "07", "08", "09", "31", "04"}

  /** utils/validation.go ValidateDocumentType: membership in the fixed type table. */
  predicate ValidateDocumentType(docType: string) {
    docType in DocumentTypes
  }

  /** Every accepted type is a two-digit code. */
  lemma DocumentTypeShape(t: string)
    requires ValidateDocumentType(t)
    ensures |t| == 2 && AllDigits(t) && ValidateDocumentNumber(t)
  {
  }

  /** utils/validation.go GenerateLineID: lines are numbered from one. */
  function GenerateLineId(index: int): (id: int)
    ensures id - 1 == index
  {
    index + 1
  }
}
