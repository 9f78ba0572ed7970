/**
 * The substring primitives every classifier of the library is built from:
 * Go's strings.Index, strings.Contains, strings.ReplaceAll, strings.Replace
 * (one occurrence), and the "text between the first <tag> and the next </tag>"
 * extraction each response parser repeats inline.
 */
module Text {
  import opened Wrappers

  /** `pat` occurs in `s` starting at index `i`. */
  predicate OccursAt(s: string, pat: string, i: int) {
    0 <= i && i + |pat| <= |s| && s[i..i + |pat|] == pat
  }

  /** `i` is the first index at which `pat` occurs in `s`. */
  predicate FirstAt(s: string, pat: string, i: int) {
    OccursAt(s, pat, i) && forall j :: 0 <= j < i ==> !OccursAt(s, pat, j)
  }

  /** strings.Index: the first index of `pat` in `s`, None where Go returns -1. */
  function IndexOf(s: string, pat: string): (r: Option<nat>)
    ensures r.Some? ==> OccursAt(s, pat, r.value)
    decreases |s|
  {
    if |s| < |pat| then None
    else if s[..|pat|] == pat then Some(0)
    else
      match IndexOf(s[1..], pat)
      case None => None
      case Some(k) => Some(k + 1)
  }

  /** IndexOf finds the first occurrence, and reports None exactly when there is none. */
  lemma {:induction false} IndexOfFirst(s: string, pat: string)
    ensures IndexOf(s, pat).Some? ==> FirstAt(s, pat, IndexOf(s, pat).value)
    ensures IndexOf(s, pat).None? <==> forall j :: !OccursAt(s, pat, j)
    decreases |s|
  {
    if |s| < |pat| {
    } else if s[..|pat|] == pat {
      assert OccursAt(s, pat, 0);
    } else {
      IndexOfFirst(s[1..], pat);
      forall j | 1 <= j
        ensures OccursAt(s, pat, j) <==> OccursAt(s[1..], pat, j - 1)
      {
        ShiftOccurs(s, pat, j - 1);
      }
      assert !OccursAt(s, pat, 0);
      if IndexOf(s[1..], pat).None? {
        forall j ensures !OccursAt(s, pat, j) {
          if j >= 1 {
            assert !OccursAt(s[1..], pat, j - 1);
          }
        }
      } else {
        assert OccursAt(s[1..], pat, IndexOf(s[1..], pat).value);
      }
    }
  }

  /** The index a search reports is the unique first occurrence. */
  lemma IndexOfUnique(s: string, pat: string, i: nat)
    requires FirstAt(s, pat, i)
    ensures IndexOf(s, pat) == Some(i)
  {
    IndexOfFirst(s, pat);
    assert IndexOf(s, pat).Some?;
    var k := IndexOf(s, pat).value;
    assert OccursAt(s, pat, k);
  }

  /** strings.Contains. */
  predicate Contains(s: string, pat: string) {
    IndexOf(s, pat).Some?
  }

  /** Contains holds exactly when some occurrence exists. */
  lemma ContainsIff(s: string, pat: string)
    ensures Contains(s, pat) <==> exists i :: OccursAt(s, pat, i)
  {
    IndexOfFirst(s, pat);
    if Contains(s, pat) {
      assert OccursAt(s, pat, IndexOf(s, pat).value);
    }
  }

  /** A witness occurrence proves containment. */
  lemma ContainsAt(s: string, pat: string, i: int)
    requires OccursAt(s, pat, i)
    ensures Contains(s, pat)
  {
    ContainsIff(s, pat);
  }

  /** Containment is transitive: a text that contains `a` contains everything `a` contains. */
  lemma ContainsTransitive(s: string, a: string, b: string)
    requires Contains(s, a) && Contains(a, b)
    ensures Contains(s, b)
  {
    ContainsIff(s, a);
    ContainsIff(a, b);
    var i :| OccursAt(s, a, i);
    var j :| OccursAt(a, b, j);
    SliceOfSlice(s, i, i + |a|, j, j + |b|);
    ContainsAt(s, b, i + j);
  }

  /** A slice of a slice is a slice of the original. */
  lemma SliceOfSlice(s: string, lo: int, hi: int, i: int, j: int)
    requires 0 <= lo <= hi <= |s| && 0 <= i <= j <= hi - lo
    ensures s[lo..hi][i..j] == s[lo + i..lo + j]
  {
    assert forall k :: 0 <= k < j - i ==> s[lo..hi][i..j][k] == s[lo + i..lo + j][k];
  }

  /** A pattern holding a character the text lacks never occurs in the text. */
  lemma AbsentChar(s: string, pat: string, c: char)
    requires c in pat && c !in s
    ensures !Contains(s, pat)
  {
    var k :| 0 <= k < |pat| && pat[k] == c;
    forall i ensures !OccursAt(s, pat, i) {
      if 0 <= i && i + |pat| <= |s| {
        assert s[i..i + |pat|][k] == s[i + k];
        assert s[i + k] in s;
      }
    }
    IndexOfFirst(s, pat);
  }

  /** A text contains every text it begins with. */
  lemma ContainsPrefix(s: string, pat: string)
    requires pat <= s
    ensures Contains(s, pat)
  {
    assert s[0..|pat|] == pat;
    ContainsAt(s, pat, 0);
  }

  /** A text contains whatever one of its two halves contains. */
  lemma ContainsInConcat(a: string, b: string, pat: string)
    requires Contains(a, pat) || Contains(b, pat)
    ensures Contains(a + b, pat)
  {
    ContainsIff(a, pat);
    ContainsIff(b, pat);
    if Contains(a, pat) {
      var i :| OccursAt(a, pat, i);
      assert (a + b)[i..i + |pat|] == a[i..i + |pat|];
      ContainsAt(a + b, pat, i);
    } else {
      var i :| OccursAt(b, pat, i);
      assert (a + b)[|a| + i..|a| + i + |pat|] == b[i..i + |pat|];
      ContainsAt(a + b, pat, |a| + i);
    }
  }

  /**
   * The text between the first `open` and the next `close` after it. This is the
   * pattern every parser writes as `start := Index(s, open); end := Index(s[start+len(open):], close)`.
   */
  function Between(s: string, open: string, close: string): (r: Option<string>)
  {
    match IndexOf(s, open)
    case None => None
    case Some(i) =>
      var rest := s[i + |open|..];
      match IndexOf(rest, close)
      case None => None
      case Some(j) => Some(rest[..j])
  }

  function OpenTag(tag: string): string { "<" + tag + ">" }

  function CloseTag(tag: string): string { "</" + tag + ">" }

  /** The shared field extractor: the text between the first `<tag>` and the next `</tag>`. */
  function Extract(body: string, tag: string): Option<string> {
    Between(body, OpenTag(tag), CloseTag(tag))
  }

  /**
   * The lookup every response parser writes out by hand: strings.Index of the
   * opening tag, its length added, then strings.Index of the closing tag in
   * the rest; nothing when either is missing.
   */
  method FindElement(body: string, tag: string) returns (v: Option<string>)
    ensures v == Extract(body, tag)
  {
    v := None;
    var open, close := OpenTag(tag), CloseTag(tag);
    var start := IndexOf(body, open);
    if start.Some? {
      var s := start.value + |open|;
      var end := IndexOf(body[s..], close);
      if end.Some? {
        assert body[s..][..end.value] == body[s..s + end.value];
        v := Some(body[s..s + end.value]);
      }
    }
  }

  /** The two searches Between makes: where the opening marker is, and how far on the closing one follows. */
  lemma BetweenParts(s: string, open: string, close: string) returns (i: nat, j: nat)
    requires Between(s, open, close).Some?
    ensures IndexOf(s, open) == Some(i) && IndexOf(s[i + |open|..], close) == Some(j)
    ensures i + |open| + j <= |s| && Between(s, open, close).value == s[i + |open|..i + |open| + j]
  {
    i := IndexOf(s, open).value;
    j := IndexOf(s[i + |open|..], close).value;
    assert s[i + |open|..][..j] == s[i + |open|..i + |open| + j];
  }

  /** The searches locate a field: the first opening marker at `i`, the first closing one `j` further on. */
  lemma IndexedField(s: string, open: string, close: string, i: nat, j: nat)
    requires IndexOf(s, open) == Some(i)
    requires IndexOf(s[i + |open|..], close) == Some(j)
    ensures FieldAt(s, open, close, i, j)
  {
    IndexOfFound(s, open);
    IndexOfFound(s[i + |open|..], close);
  }

  /** A reported index is the first occurrence. */
  lemma IndexOfFound(s: string, pat: string)
    requires IndexOf(s, pat).Some?
    ensures FirstAt(s, pat, IndexOf(s, pat).value)
  {
    IndexOfFirst(s, pat);
  }

  lemma VNoClose(rest: string, close: string, j: nat)
    requires |close| > 0 && FirstAt(rest, close, j)
    ensures !Contains(rest[..j], close)
  {
    var v := rest[..j];
    forall k | 0 <= k && k + |close| <= |v| ensures !OccursAt(v, close, k) {
      assert !OccursAt(rest, close, k);
      assert v[k..k + |close|] == rest[k..k + |close|];
    }
    IndexOfFirst(v, close);
  }

  /** The field starts after the first `open`, at `i`, and ends at the first `close` after it, `j` characters on. */
  predicate FieldAt(s: string, open: string, close: string, i: int, j: int) {
    FirstAt(s, open, i) && FirstAt(s[i + |open|..], close, j)
  }

  /**
   * What a found value means: the text after the first opening marker up to
   * the first closing marker after it, which it therefore never contains.
   */
  lemma BetweenAt(s: string, open: string, close: string) returns (i: nat, j: nat)
    requires |close| > 0 && Between(s, open, close).Some?
    ensures FieldAt(s, open, close, i, j)
    ensures Between(s, open, close).value == s[i + |open|..i + |open| + j]
    ensures !Contains(Between(s, open, close).value, close)
  {
    i, j := BetweenParts(s, open, close);
    IndexedField(s, open, close, i, j);
    VNoClose(s[i + |open|..], close, j);
    assert s[i + |open|..][..j] == s[i + |open|..i + |open| + j];
  }

  /** The same for Extract: `i` is where the tag opens, `j` the field's length. */
  lemma ExtractAt(s: string, tag: string) returns (i: nat, j: nat)
    requires Extract(s, tag).Some?
    ensures FieldAt(s, OpenTag(tag), CloseTag(tag), i, j)
    ensures Extract(s, tag).value == s[i + |tag| + 2..i + |tag| + 2 + j]
    ensures !Contains(Extract(s, tag).value, CloseTag(tag))
  {
    i, j := BetweenAt(s, OpenTag(tag), CloseTag(tag));
  }

  /** Nothing is extracted from a text without the opening marker. */
  lemma BetweenNoOpen(s: string, open: string, close: string)
    requires !Contains(s, open)
    ensures Between(s, open, close) == None
  {
  }

  /** Nothing is extracted when no closing marker follows the first opening marker. */
  lemma BetweenUnclosed(s: string, open: string, close: string, i: nat)
    requires FirstAt(s, open, i) && !Contains(s[i + |open|..], close)
    ensures Between(s, open, close) == None
  {
    IndexOfUnique(s, open, i);
  }

  /** No occurrence of `pat` starts inside a prefix free of `pat`'s first character. */
  lemma NoEarlyOccurrence(s: string, pat: string, n: nat)
    requires |pat| > 0 && n <= |s| && pat[0] !in s[..n]
    ensures forall j :: 0 <= j < n ==> !OccursAt(s, pat, j)
  {
    forall j | 0 <= j < n ensures !OccursAt(s, pat, j) {
      if j + |pat| <= |s| {
        assert s[j..j + |pat|][0] == s[..n][j];
      }
    }
  }

  /**
   * Round trip: a value written between the two markers, after text that cannot
   * start the opening marker, reads back whole when it cannot start the closing one.
   */
  lemma BetweenWritten(pre: string, open: string, v: string, close: string, post: string)
    requires |open| > 0 && |close| > 0
    requires open[0] !in pre && close[0] !in v
    ensures Between(pre + open + v + close + post, open, close) == Some(v)
  {
    var rest := v + close + post;
    var s := pre + open + rest;
    assert s == pre + open + v + close + post;
    assert s[..|pre|] == pre;
    assert OccursAt(s, open, |pre|) by {
      assert s[|pre|..|pre| + |open|] == open;
    }
    NoEarlyOccurrence(s, open, |pre|);
    IndexOfUnique(s, open, |pre|);
    assert s[|pre| + |open|..] == rest;
    assert rest[..|v|] == v;
    assert OccursAt(rest, close, |v|) by {
      assert rest[|v|..|v| + |close|] == close;
    }
    NoEarlyOccurrence(rest, close, |v|);
    IndexOfUnique(rest, close, |v|);
  }

  /**
   * Round trip: a field written as `<tag>v</tag>` after text with no '<' reads
   * back as `v`, provided `v` itself holds no '<' (plain text, or escaped text).
   */
  lemma ExtractWritten(pre: string, tag: string, v: string, post: string)
    requires '<' !in pre && '<' !in v
    ensures Extract(pre + OpenTag(tag) + v + CloseTag(tag) + post, tag) == Some(v)
  {
    BetweenWritten(pre, OpenTag(tag), v, CloseTag(tag), post);
  }

  /** strings.ReplaceAll for a non-empty pattern: left-to-right, non-overlapping. */
  function ReplaceAll(s: string, from: string, to: string): string
    requires |from| > 0
    decreases |s|
  {
    if |s| < |from| then s
    else if s[..|from|] == from then to + ReplaceAll(s[|from|..], from, to)
    else [s[0]] + ReplaceAll(s[1..], from, to)
  }

  /** Dropping the first character shifts every occurrence one place left. */
  lemma ShiftOccurs(s: string, pat: string, i: int)
    requires |s| > 0 && 0 <= i
    ensures OccursAt(s[1..], pat, i) <==> OccursAt(s, pat, i + 1)
  {
    if i + 1 + |pat| <= |s| {
      assert s[1..][i..i + |pat|] == s[i + 1..i + 1 + |pat|];
    }
  }

  /** Replacing a pattern that does not occur changes nothing. */
  lemma {:induction false} ReplaceAllAbsent(s: string, from: string, to: string)
    requires |from| > 0 && !Contains(s, from)
    ensures ReplaceAll(s, from, to) == s
    decreases |s|
  {
    if |s| >= |from| {
      IndexOfFirst(s, from);
      assert !OccursAt(s, from, 0);
      assert s[0..|from|] == s[..|from|];
      forall i ensures !OccursAt(s[1..], from, i) {
        if i >= 0 { ShiftOccurs(s, from, i); }
      }
      IndexOfFirst(s[1..], from);
      ReplaceAllAbsent(s[1..], from, to);
    }
  }

  /** Replaces each character by the text `f` gives for it. */
  function FlatMap(s: string, f: char -> string): string
    decreases |s|
  {
    if s == [] then [] else f(s[0]) + FlatMap(s[1..], f)
  }

  lemma {:induction false} FlatMapConcat(a: string, b: string, f: char -> string)
    ensures FlatMap(a + b, f) == FlatMap(a, f) + FlatMap(b, f)
    decreases |a|
  {
    if a != [] {
      assert (a + b)[0] == a[0];
      assert (a + b)[1..] == a[1..] + b;
      FlatMapConcat(a[1..], b, f);
      calc {
        FlatMap(a + b, f);
        f(a[0]) + FlatMap(a[1..] + b, f);
        f(a[0]) + (FlatMap(a[1..], f) + FlatMap(b, f));
        (f(a[0]) + FlatMap(a[1..], f)) + FlatMap(b, f);
        FlatMap(a, f) + FlatMap(b, f);
      }
    } else {
      assert a + b == b;
    }
  }

  /** The text FlatMap leaves holds only characters that some `f(c)` yields. */
  lemma {:induction false} FlatMapChars(s: string, f: char -> string, x: char)
    requires x in FlatMap(s, f)
    ensures exists i :: 0 <= i < |s| && x in f(s[i])
    decreases |s|
  {
    if x !in f(s[0]) {
      FlatMapChars(s[1..], f, x);
      var i :| 0 <= i < |s[1..]| && x in f(s[1..][i]);
      assert x in f(s[i + 1]);
    }
  }

  /** FlatMap over a text depends only on what `f` does to that text's characters. */
  lemma {:induction false} FlatMapSameOn(s: string, f: char -> string, g: char -> string)
    requires forall i :: 0 <= i < |s| ==> f(s[i]) == g(s[i])
    ensures FlatMap(s, f) == FlatMap(s, g)
    decreases |s|
  {
    if s != [] {
      assert f(s[0]) == g(s[0]);
      FlatMapSameOn(s[1..], f, g);
    }
  }

  /** A map that keeps every character of a text returns the text. */
  lemma {:induction false} FlatMapKeeps(s: string, f: char -> string)
    requires forall i :: 0 <= i < |s| ==> f(s[i]) == [s[i]]
    ensures FlatMap(s, f) == s
    decreases |s|
  {
    if s != [] {
      FlatMapKeeps(s[1..], f);
    }
  }

  /** Two character maps in a row are one map: `h` maps each character as `f` then `g` do. */
  lemma {:induction false} FlatMapCompose(s: string, f: char -> string, g: char -> string, h: char -> string)
    requires forall i :: 0 <= i < |s| ==> h(s[i]) == FlatMap(f(s[i]), g)
    ensures FlatMap(FlatMap(s, f), g) == FlatMap(s, h)
    decreases |s|
  {
    if s != [] {
      FlatMapConcat(f(s[0]), FlatMap(s[1..], f), g);
      FlatMapCompose(s[1..], f, g, h);
    }
  }

  /** Replacing one character everywhere is a character-by-character map. */
  lemma {:induction false} ReplaceAllChar(s: string, c: char, to: string)
    ensures ReplaceAll(s, [c], to) == FlatMap(s, x => if x == c then to else [x])
    decreases |s|
  {
    if s != [] {
      ReplaceAllChar(s[1..], c, to);
      if s[..1] == [c] {
        assert s[0] == c;
      } else {
        assert s[0] != c;
      }
    }
  }

  /** strings.Replace(s, from, to, 1): only the first occurrence is replaced. */
  function ReplaceFirst(s: string, from: string, to: string): (r: string)
  {
    match IndexOf(s, from)
    case None => s
    case Some(i) => s[..i] + to + s[i + |from|..]
  }

  /** strings.Replace with n = 1 replaces the first occurrence and keeps everything around it. */
  lemma ReplaceFirstAt(s: string, from: string, to: string, i: nat)
    requires FirstAt(s, from, i)
    ensures ReplaceFirst(s, from, to) == s[..i] + to + s[i + |from|..]
  {
    IndexOfUnique(s, from, i);
  }

  /** unicode.IsSpace: the characters strings.TrimSpace and strings.Fields treat as white space. */
  predicate IsSpace(c: char) {
    c == '\t' || c == '\n' || c == '\U{0B}' || c == '\U{0C}' || c == '\r' || c == ' '
    || c == '\U{85}' || c == '\U{A0}' || c == '\U{1680}'
    || ('\U{2000}' <= c <= '\U{200A}')
    || c == '\U{2028}' || c == '\U{2029}' || c == '\U{202F}' || c == '\U{205F}' || c == '\U{3000}'
  }

  /** strings.TrimLeftFunc with unicode.IsSpace. */
  function TrimLeft(s: string): string
    decreases |s|
  {
    if s != [] && IsSpace(s[0]) then TrimLeft(s[1..]) else s
  }

  /** strings.TrimRightFunc with unicode.IsSpace. */
  function TrimRight(s: string): string
    decreases |s|
  {
    if s != [] && IsSpace(s[|s| - 1]) then TrimRight(s[..|s| - 1]) else s
  }

  /** TrimLeft drops exactly the leading white space. */
  lemma {:induction false} TrimLeftSpec(s: string)
    ensures var r := TrimLeft(s); |r| <= |s| && r == s[|s| - |r|..]
    ensures var r := TrimLeft(s); r == [] || !IsSpace(r[0])
    ensures var r := TrimLeft(s); forall i :: 0 <= i < |s| - |r| ==> IsSpace(s[i])
    decreases |s|
  {
    if s != [] && IsSpace(s[0]) {
      TrimLeftSpec(s[1..]);
    }
  }

  /** TrimRight drops exactly the trailing white space. */
  lemma {:induction false} TrimRightSpec(s: string)
    ensures var r := TrimRight(s); |r| <= |s| && r == s[..|r|]
    ensures var r := TrimRight(s); r == [] || !IsSpace(r[|r| - 1])
    ensures var r := TrimRight(s); forall i :: |r| <= i < |s| ==> IsSpace(s[i])
    decreases |s|
  {
    if s != [] && IsSpace(s[|s| - 1]) {
      TrimRightSpec(s[..|s| - 1]);
    }
  }

  /** `r` is the slice of `s` starting at `a`, and everything around it is white space. */
  predicate TrimmedAt(s: string, r: string, a: int) {
    0 <= a && a + |r| <= |s| && r == s[a..a + |r|]
    && (forall i :: 0 <= i < a ==> IsSpace(s[i]))
    && (forall i :: a + |r| <= i < |s| ==> IsSpace(s[i]))
  }

  /** strings.TrimSpace. */
  function TrimSpace(s: string): string {
    TrimRight(TrimLeft(s))
  }

  lemma TrimSpaceSlice(s: string)
    ensures var l := TrimLeft(s); var r := TrimRight(l); var a := |s| - |l|;
      0 <= a && a + |r| <= |s| && r == s[a..a + |r|]
  {
    var l := TrimLeft(s);
    var r := TrimRight(l);
    var a := |s| - |l|;
    TrimLeftSpec(s);
    TrimRightSpec(l);
    assert l == s[a..];
    assert r == l[..|r|];
  }

  lemma TrimSpaceTail(s: string)
    ensures var l := TrimLeft(s); var r := TrimRight(l); var a := |s| - |l|;
      forall i :: 0 <= i && a + |r| <= i < |s| ==> IsSpace(s[i])
  {
    var l := TrimLeft(s);
    var r := TrimRight(l);
    var a := |s| - |l|;
    TrimLeftSpec(s);
    TrimRightSpec(l);
    assert l == s[a..];
    forall i | 0 <= i && a + |r| <= i < |s| ensures IsSpace(s[i]) {
      assert s[i] == l[i - a];
    }
  }

  /** TrimSpace keeps one contiguous slice, drops only white space around it, and leaves none at either end. */
  lemma TrimSpaceSpec(s: string)
    ensures TrimSpace(s) == [] || (!IsSpace(TrimSpace(s)[0]) && !IsSpace(TrimSpace(s)[|TrimSpace(s)| - 1]))
    ensures TrimmedAt(s, TrimSpace(s), |s| - |TrimLeft(s)|)
  {
    var l := TrimLeft(s);
    var r := TrimRight(l);
    TrimLeftSpec(s);
    TrimRightSpec(l);
    if r != [] {
      assert r[0] == l[0];
    }
    TrimSpaceSlice(s);
    TrimSpaceTail(s);
  }

  /** A word: non-empty and free of white space. */
  predicate IsWord(w: string) {
    |w| > 0 && forall i :: 0 <= i < |w| ==> !IsSpace(w[i])
  }

  /** The longest prefix of `s` holding no white space. */
  function Word(s: string): (w: string)
    ensures w <= s && forall i :: 0 <= i < |w| ==> !IsSpace(w[i])
    ensures |w| < |s| ==> IsSpace(s[|w|])
    ensures s != [] && !IsSpace(s[0]) ==> |w| > 0
    decreases |s|
  {
    if s == [] || IsSpace(s[0]) then [] else [s[0]] + Word(s[1..])
  }

  /** strings.Fields: the maximal runs of non-white-space characters, in order. */
  function Fields(s: string): seq<string>
    decreases |s|
  {
    if s == [] then []
    else if IsSpace(s[0]) then Fields(s[1..])
    else
      var w := Word(s);
      [w] + Fields(s[|w|..])
  }

  /** Every field strings.Fields returns is a word. */
  lemma {:induction false} FieldsAreWords(s: string)
    ensures forall k :: 0 <= k < |Fields(s)| ==> IsWord(Fields(s)[k])
    decreases |s|
  {
    if s != [] {
      if IsSpace(s[0]) {
        FieldsAreWords(s[1..]);
      } else {
        FieldsAreWords(s[|Word(s)|..]);
      }
    }
  }

  /** Words joined by single spaces. */
  function JoinWords(ws: seq<string>): string
  {
    if |ws| == 0 then ""
    else if |ws| == 1 then ws[0]
    else ws[0] + " " + JoinWords(ws[1..])
  }

  /** The word at the front of a text is read up to the first white space. */
  lemma {:induction false} WordOfWord(w: string, rest: string)
    requires forall i :: 0 <= i < |w| ==> !IsSpace(w[i])
    requires rest == [] || IsSpace(rest[0])
    ensures Word(w + rest) == w
    decreases |w|
  {
    if w == [] {
      assert w + rest == rest;
    } else {
      assert (w + rest)[0] == w[0];
      assert (w + rest)[1..] == w[1..] + rest;
      WordOfWord(w[1..], rest);
      assert w == [w[0]] + w[1..];
    }
  }

  /** Round trip: splitting words joined by single spaces gives the words back. */
  lemma {:induction false} FieldsOfJoin(ws: seq<string>)
    requires forall k :: 0 <= k < |ws| ==> IsWord(ws[k])
    ensures Fields(JoinWords(ws)) == ws
    decreases |ws|
  {
    if |ws| == 1 {
      assert ws[0] == ws[0] + "";
      WordOfWord(ws[0], "");
      assert JoinWords(ws)[|ws[0]|..] == [];
    } else if |ws| > 1 {
      var w, rest := ws[0], " " + JoinWords(ws[1..]);
      assert JoinWords(ws) == w + rest;
      WordOfWord(w, rest);
      assert (w + rest)[|w|..] == rest;
      assert rest[1..] == JoinWords(ws[1..]);
      FieldsOfJoin(ws[1..]);
      assert ws == [w] + ws[1..];
    }
  }
}
