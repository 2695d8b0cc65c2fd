/** The PII scanner shared by the POST /blessings gate and the client-side
    hook: five named regular expressions, tested in a fixed order, whose names
    are collected when they match.

    Each regular expression is written out as a predicate on the text. The
    expressions carry no `u` or `i` flag, so `\d` is [0-9], `\w` is
    [A-Za-z0-9_], and `\b` is a position where exactly one of the neighbouring
    characters is a word character (a string end counts as a non-word
    character). `regex.test(text)` holds exactly when some match exists;
    backtracking and greediness decide which match is found, not whether one
    is. */
module Pii {
  import opened Js

  datatype PatternName = PhoneHk | PhoneCn | Email | Url | AddressHk

  /** The order of the pattern table, on the server and on the client. */
  const PatternOrder: seq<PatternName> := [PhoneHk, PhoneCn, Email, Url, AddressHk]

  // ---------------------------------------------------------------------
  // Character classes and word boundaries
  // ---------------------------------------------------------------------

  /** `\w` */
  predicate IsWordChar(c: char) {
    ('A' <= c <= 'Z') || ('a' <= c <= 'z') || IsDigit(c) || c == '_'
  }

  /** `\s` (white space and line terminators) */
  predicate IsSpace(c: char) {
    IsStrWhiteSpace(c)
  }

  predicate WordBefore(s: string, p: int) {
    0 < p <= |s| && IsWordChar(s[p - 1])
  }

  predicate WordAt(s: string, p: int) {
    0 <= p < |s| && IsWordChar(s[p])
  }

  /** `\b` at position p of s. */
  predicate Boundary(s: string, p: int) {
    WordBefore(s, p) != WordAt(s, p)
  }

  predicate AllDigits(m: string) {
    forall k :: 0 <= k < |m| ==> IsDigit(m[k])
  }

  /** `[\d\s-]*` */
  predicate AllPhoneChars(m: string) {
    forall k :: 0 <= k < |m| ==> IsDigit(m[k]) || IsSpace(m[k]) || m[k] == '-'
  }

  /** `[A-Za-z0-9._%+-]*` */
  predicate AllEmailLocalChars(m: string) {
    forall k :: 0 <= k < |m| ==>
      IsWordChar(m[k]) || m[k] in {'.', '%', '+', '-'}
  }

  /** `[A-Za-z0-9.-]*` */
  predicate AllDomainChars(m: string) {
    forall k :: 0 <= k < |m| ==> (IsWordChar(m[k]) && m[k] != '_') || m[k] in {'.', '-'}
  }

  /** `[A-Z|a-z]*` (the bar is a literal character inside a class) */
  predicate AllTldChars(m: string) {
    forall k :: 0 <= k < |m| ==> ('A' <= m[k] <= 'Z') || ('a' <= m[k] <= 'z') || m[k] == '|'
  }

  /** `[^\s]*` */
  predicate NoSpace(m: string) {
    forall k :: 0 <= k < |m| ==> !IsSpace(m[k])
  }

  /** s[i..j] is a match of an expression of the form `\b SHAPE \b`. */
  predicate Bounded(s: string, i: int, j: int) {
    0 <= i <= j <= |s| && Boundary(s, i) && Boundary(s, j)
  }

  // ---------------------------------------------------------------------
  // The shapes matched between the boundaries
  // ---------------------------------------------------------------------

  /** `\d{8}` */
  predicate EightDigitsShape(m: string) {
    |m| == 8 && AllDigits(m)
  }

  /** `\+852[\d\s-]{7,}` */
  predicate Plus852Shape(m: string) {
    |m| >= 11 && m[..4] == "+852" && AllPhoneChars(m[4..])
  }

  /** `1[3-9]\d{9}` */
  predicate MainlandMobileShape(m: string) {
    |m| == 11 && m[0] == '1' && '3' <= m[1] <= '9' && AllDigits(m[2..])
  }

  /** `[A-Za-z0-9._%+-]+@[A-Za-z0-9.-]+\.[A-Z|a-z]{2,}` */
  predicate EmailShape(m: string) {
    exists a, d | 0 < a < d < |m| ::
      && a + 1 < d && d + 3 <= |m|
      && AllEmailLocalChars(m[..a]) && m[a] == '@'
      && AllDomainChars(m[a + 1..d]) && m[d] == '.'
      && AllTldChars(m[d + 1..])
  }

  /** `https?:\/\/[^\s]+` */
  predicate UrlShape(m: string) {
    || (|m| >= 8 && m[..7] == "http://" && NoSpace(m[7..]))
    || (|m| >= 9 && m[..8] == "https://" && NoSpace(m[8..]))
  }

  /** The place names of the address pattern, in its order. */
  const Places: seq<string> :=
    ["香港", "灣仔", "中環", "銅鑼灣", "旺角", "尖沙咀", "佐敦", "油麻地",
     "油塘", "觀塘", "荃灣", "屯門", "大埔", "沙田", "元朗"]

  // ---------------------------------------------------------------------
  // The five patterns
  // ---------------------------------------------------------------------

  /** First alternative of phone_hk: `\b(\d{8})\b`. */
  predicate EightDigitNumber(s: string) {
    exists i, j | 0 <= i <= j <= |s| :: Bounded(s, i, j) && EightDigitsShape(s[i..j])
  }

  /** phone_hk as written: `\b(\d{8})\b|\b(\+852[\d\s-]{7,})\b`. The `\b`
      before the plus sign needs a WORD character in front of the '+'. */
  predicate PhoneHkAsWritten(s: string) {
    || EightDigitNumber(s)
    || exists i, j | 0 <= i <= j <= |s| :: Bounded(s, i, j) && Plus852Shape(s[i..j])
  }

  /** phone_hk with the second alternative as intended: `\+852[\d\s-]{7,}\b`,
      found wherever the "+852" stands. */
  predicate PhoneHkFixed(s: string) {
    || EightDigitNumber(s)
    || exists i, j | 0 <= i <= j <= |s| :: Boundary(s, j) && Plus852Shape(s[i..j])
  }

  /** phone_cn: `\b1[3-9]\d{9}\b`. */
  predicate PhoneCnMatch(s: string) {
    exists i, j | 0 <= i <= j <= |s| :: Bounded(s, i, j) && MainlandMobileShape(s[i..j])
  }

  /** email: `\b[A-Za-z0-9._%+-]+@[A-Za-z0-9.-]+\.[A-Z|a-z]{2,}\b`. */
  predicate EmailMatch(s: string) {
    exists i, j | 0 <= i <= j <= |s| :: Bounded(s, i, j) && EmailShape(s[i..j])
  }

  /** url: `https?:\/\/[^\s]+`. */
  predicate UrlMatch(s: string) {
    exists i, j | 0 <= i <= j <= |s| :: UrlShape(s[i..j])
  }

  /** address_hk as written: `\b(香港|...|元朗)\b`. The names are not word
      characters, so both boundaries need an ASCII word character outside the
      name. */
  predicate AddressHkAsWritten(s: string) {
    exists i, j | 0 <= i <= j <= |s| :: Bounded(s, i, j) && s[i..j] in Places
  }

  /** address_hk as intended: any occurrence of one of the place names. */
  predicate AddressHkFixed(s: string) {
    exists i, j | 0 <= i <= j <= |s| :: s[i..j] in Places
  }

  /** `patterns[name].test(text)`, with the patterns as written. */
  predicate Matches(name: PatternName, s: string) {
    match name
    case PhoneHk => PhoneHkAsWritten(s)
    case PhoneCn => PhoneCnMatch(s)
    case Email => EmailMatch(s)
    case Url => UrlMatch(s)
    case AddressHk => AddressHkAsWritten(s)
  }

  /** The same test with phone_hk and address_hk as intended. */
  predicate MatchesIntended(name: PatternName, s: string) {
    match name
    case PhoneHk => PhoneHkFixed(s)
    case PhoneCn => PhoneCnMatch(s)
    case Email => EmailMatch(s)
    case Url => UrlMatch(s)
    case AddressHk => AddressHkFixed(s)
  }

  // ---------------------------------------------------------------------
  // The ordered scan
  // ---------------------------------------------------------------------

  /** The names, in their order, whose pattern matches s. */
  function MatchingNames(names: seq<PatternName>, s: string): seq<PatternName> {
    if names == [] then []
    else
      var last := names[|names| - 1];
      var rest := MatchingNames(names[..|names| - 1], s);
      if Matches(last, s) then rest + [last] else rest
  }

  predicate Distinct<T(==)>(a: seq<T>) {
    forall i, j :: 0 <= i < j < |a| ==> a[i] != a[j]
  }

  /** a can be obtained from b by deleting elements. */
  predicate Subsequence<T(==)>(a: seq<T>, b: seq<T>)
    decreases |b|
  {
    if a == [] then true
    else if b == [] then false
    else
      || (a[|a| - 1] == b[|b| - 1] && Subsequence(a[..|a| - 1], b[..|b| - 1]))
      || Subsequence(a, b[..|b| - 1])
  }

  /** The scan keeps exactly the matching names, in the table's order, each
      once. */
  lemma {:induction false} MatchingNamesSpec(names: seq<PatternName>, s: string)
    requires Distinct(names)
    ensures var r := MatchingNames(names, s);
      && (forall p :: p in r <==> p in names && Matches(p, s))
      && Subsequence(r, names)
      && Distinct(r)
  {
    if names != [] {
      var init := names[..|names| - 1];
      var last := names[|names| - 1];
      assert Distinct(init);
      MatchingNamesSpec(init, s);
      var rest := MatchingNames(init, s);
      assert forall p :: p in names <==> p in init || p == last;
      assert last !in init;
      SubsequenceOfPrefix(rest, init, last);
    }
  }

  /** Extending the longer sequence keeps a subsequence a subsequence, and
      extending both by the same element does too. */
  lemma SubsequenceOfPrefix<T>(a: seq<T>, b: seq<T>, x: T)
    requires Subsequence(a, b)
    ensures Subsequence(a, b + [x])
    ensures Subsequence(a + [x], b + [x])
  {
    assert (b + [x])[..|b|] == b;
    assert (a + [x])[..|a|] == a;
  }

  /** The full scan reports nothing exactly when no pattern matches, and
      otherwise the matching names, each once, in the table's order. */
  lemma ScanSpec(text: string)
    ensures var r := MatchingNames(PatternOrder, text);
      && (r == [] <==> forall name :: !Matches(name, text))
      && (forall name :: name in r <==> Matches(name, text))
      && Subsequence(r, PatternOrder)
      && Distinct(r)
  {
    var r := MatchingNames(PatternOrder, text);
    ScanMembers(text);
    assert r == [] ==> forall name :: !Matches(name, text) by {
      if r == [] {
        forall name ensures !Matches(name, text) {
          assert name !in r;
        }
      }
    }
    assert r != [] ==> Matches(r[0], text) by {
      if r != [] {
        assert r[0] in r;
      }
    }
  }

  lemma ScanMembers(text: string)
    ensures var r := MatchingNames(PatternOrder, text);
      && (forall name :: name in r <==> Matches(name, text))
      && Subsequence(r, PatternOrder)
      && Distinct(r)
  {
    MatchingNamesSpec(PatternOrder, text);
    forall name: PatternName ensures name in PatternOrder {
      match name
      case PhoneHk => assert PatternOrder[0] == name;
      case PhoneCn => assert PatternOrder[1] == name;
      case Email => assert PatternOrder[2] == name;
      case Url => assert PatternOrder[3] == name;
      case AddressHk => assert PatternOrder[4] == name;
    }
  }

  /** `Object.entries(piiPatterns).forEach(...)`: test every pattern in the
      table's order and push the name of each one that matches. */
  method DetectPatterns(text: string) returns (detected: seq<PatternName>)
    ensures detected == MatchingNames(PatternOrder, text)
    ensures forall p :: p in detected <==> Matches(p, text)
    ensures Subsequence(detected, PatternOrder) && Distinct(detected)
  {
    detected := [];
    for i := 0 to |PatternOrder|
      invariant detected == MatchingNames(PatternOrder[..i], text)
    {
      var name := PatternOrder[i];
      assert PatternOrder[..i + 1][..i] == PatternOrder[..i];
      if Matches(name, text) {
        detected := detected + [name];
      }
    }
    assert PatternOrder[..|PatternOrder|] == PatternOrder;
    MatchingNamesSpec(PatternOrder, text);
  }

  // ---------------------------------------------------------------------
  // What the patterns catch and miss
  // ---------------------------------------------------------------------

  /** The two corrected patterns only add matches: whatever the patterns as
      written flag is still flagged. */
  lemma FixedPatternsCatchMore(s: string)
    ensures PhoneHkAsWritten(s) ==> PhoneHkFixed(s)
    ensures AddressHkAsWritten(s) ==> AddressHkFixed(s)
  {
  }

  /** The intended scan reports every name the scan as written reports, and
      it reports strictly more: "+852 9123 4567" and "我住香港" pass the
      scan as written but not the intended one. */
  lemma IntendedScanCatchesMore(name: PatternName, s: string)
    ensures Matches(name, s) ==> MatchesIntended(name, s)
    ensures !Matches(PhoneHk, "+852 9123 4567") && MatchesIntended(PhoneHk, "+852 9123 4567")
    ensures !Matches(AddressHk, "我住香港") && MatchesIntended(AddressHk, "我住香港")
  {
    FixedPatternsCatchMore(s);
    PhoneHkAsWrittenMissesPlus852();
    AddressHkAsWrittenMissesPlaceName();
  }

  /** As written, the "+852" alternative of phone_hk needs a word character
      right before the plus sign: a '+' that opens the text or follows a
      space never starts a match. */
  lemma Plus852AsWrittenNeedsWordBefore(s: string, i: int, j: int)
    requires 0 <= i <= j <= |s| && Plus852Shape(s[i..j])
    ensures Bounded(s, i, j) ==> WordBefore(s, i)
  {
    assert s[i..j][0] == s[i] == '+';
  }

  /** "+852 9123 4567" is not flagged by phone_hk as written, but is by the
      corrected pattern. */
  lemma PhoneHkAsWrittenMissesPlus852()
    ensures !PhoneHkAsWritten("+852 9123 4567")
    ensures PhoneHkFixed("+852 9123 4567")
  {
    var s := "+852 9123 4567";
    forall i, j | 0 <= i <= j <= |s| && j - i == 8
      ensures !AllDigits(s[i..j])
    {
      var k := if i <= 4 then 4 - i else 9 - i;
      assert s[4] == ' ' && s[9] == ' ';
      assert s[i..j][k] == s[i + k];
    }
    forall i, j | 0 <= i <= j <= |s| && Bounded(s, i, j) && Plus852Shape(s[i..j])
      ensures false
    {
      Plus852AsWrittenNeedsWordBefore(s, i, j);
    }
    assert Boundary(s, |s|) && Plus852Shape(s[0..|s|]);
  }

  /** As written, address_hk never fires in a text without ASCII word
      characters: the place names are not word characters, so there is no
      `\b` on either side of them. */
  lemma AddressHkAsWrittenNeedsAsciiNeighbours(s: string)
    requires forall k :: 0 <= k < |s| ==> !IsWordChar(s[k])
    ensures !AddressHkAsWritten(s)
  {
    forall i, j | 0 <= i <= j <= |s| ensures !Bounded(s, i, j) {
      assert !Boundary(s, i);
    }
  }

  /** "我住香港" ("I live in Hong Kong") is not flagged by address_hk as
      written, but is by the corrected pattern. */
  lemma AddressHkAsWrittenMissesPlaceName()
    ensures !AddressHkAsWritten("我住香港")
    ensures AddressHkFixed("我住香港")
  {
    var s := "我住香港";
    AddressHkAsWrittenNeedsAsciiNeighbours(s);
    assert s[2..4] == "香港" == Places[0];
  }

  /** Where a piece f of text is put between x and y, a substring of f is
      still there, shifted by |x|. */
  lemma ShiftSlice(x: string, f: string, y: string, i: int, j: int)
    requires 0 <= i <= j <= |f|
    ensures (x + f + y)[|x| + i..|x| + j] == f[i..j]
  {
    var t, n := x + f + y, |x|;
    assert t[n..n + |f|] == f;
    assert t[n + i..n + j] == t[n..n + |f|][i..j];
  }

  /** ... and so is a word boundary, provided x ends and y starts with a
      non-word character. */
  lemma ShiftBoundary(x: string, f: string, y: string, p: int)
    requires x == [] || !IsWordChar(x[|x| - 1])
    requires y == [] || !IsWordChar(y[0])
    requires 0 <= p <= |f|
    ensures Boundary(x + f + y, |x| + p) == Boundary(f, p)
  {
    var t, n := x + f + y, |x|;
    if p > 0 {
      assert t[n + p - 1] == f[p - 1];
    }
    if p < |f| {
      assert t[n + p] == f[p];
    } else if y != [] {
      assert t[n + p] == y[0];
    }
  }

  /** A bounded slice keeps its text and its boundaries. */
  lemma ShiftBounded(x: string, f: string, y: string, i: int, j: int)
    requires x == [] || !IsWordChar(x[|x| - 1])
    requires y == [] || !IsWordChar(y[0])
    requires Bounded(f, i, j)
    ensures Bounded(x + f + y, |x| + i, |x| + j)
    ensures (x + f + y)[|x| + i..|x| + j] == f[i..j]
  {
    ShiftSlice(x, f, y, i, j);
    ShiftBoundary(x, f, y, i);
    ShiftBoundary(x, f, y, j);
  }

  // One match found at f[i..j], moved into x + f + y.

  lemma EightDigitNumberMoved(x: string, f: string, y: string, i: int, j: int)
    requires x == [] || !IsWordChar(x[|x| - 1])
    requires y == [] || !IsWordChar(y[0])
    requires Bounded(f, i, j) && EightDigitsShape(f[i..j])
    ensures EightDigitNumber(x + f + y)
  {
    ShiftBounded(x, f, y, i, j);
    var t, m := x + f + y, f[i..j];
    assert t[|x| + i..|x| + j] == m;
  }

  lemma Plus852Moved(x: string, f: string, y: string, i: int, j: int)
    requires x == [] || !IsWordChar(x[|x| - 1])
    requires y == [] || !IsWordChar(y[0])
    requires Bounded(f, i, j) && Plus852Shape(f[i..j])
    ensures PhoneHkAsWritten(x + f + y)
  {
    ShiftBounded(x, f, y, i, j);
    var t, m := x + f + y, f[i..j];
    assert t[|x| + i..|x| + j] == m;
  }

  lemma PhoneCnMoved(x: string, f: string, y: string, i: int, j: int)
    requires x == [] || !IsWordChar(x[|x| - 1])
    requires y == [] || !IsWordChar(y[0])
    requires Bounded(f, i, j) && MainlandMobileShape(f[i..j])
    ensures PhoneCnMatch(x + f + y)
  {
    ShiftBounded(x, f, y, i, j);
    var t, m := x + f + y, f[i..j];
    assert t[|x| + i..|x| + j] == m;
  }

  lemma EmailMoved(x: string, f: string, y: string, i: int, j: int)
    requires x == [] || !IsWordChar(x[|x| - 1])
    requires y == [] || !IsWordChar(y[0])
    requires Bounded(f, i, j) && EmailShape(f[i..j])
    ensures EmailMatch(x + f + y)
  {
    ShiftBounded(x, f, y, i, j);
    var t, m := x + f + y, f[i..j];
    assert t[|x| + i..|x| + j] == m;
  }

  lemma EmbedEightDigitNumber(x: string, f: string, y: string)
    requires x == [] || !IsWordChar(x[|x| - 1])
    requires y == [] || !IsWordChar(y[0])
    requires EightDigitNumber(f)
    ensures EightDigitNumber(x + f + y)
  {
    var i, j :| 0 <= i <= j <= |f| && Bounded(f, i, j) && EightDigitsShape(f[i..j]);
    EightDigitNumberMoved(x, f, y, i, j);
  }

  lemma EmbedPhoneHk(x: string, f: string, y: string)
    requires x == [] || !IsWordChar(x[|x| - 1])
    requires y == [] || !IsWordChar(y[0])
    requires PhoneHkAsWritten(f)
    ensures PhoneHkAsWritten(x + f + y)
  {
    if EightDigitNumber(f) {
      EmbedEightDigitNumber(x, f, y);
    } else {
      var i, j :| 0 <= i <= j <= |f| && Bounded(f, i, j) && Plus852Shape(f[i..j]);
      Plus852Moved(x, f, y, i, j);
    }
  }

  lemma EmbedPhoneCn(x: string, f: string, y: string)
    requires x == [] || !IsWordChar(x[|x| - 1])
    requires y == [] || !IsWordChar(y[0])
    requires PhoneCnMatch(f)
    ensures PhoneCnMatch(x + f + y)
  {
    var i, j :| 0 <= i <= j <= |f| && Bounded(f, i, j) && MainlandMobileShape(f[i..j]);
    PhoneCnMoved(x, f, y, i, j);
  }

  lemma EmbedEmail(x: string, f: string, y: string)
    requires x == [] || !IsWordChar(x[|x| - 1])
    requires y == [] || !IsWordChar(y[0])
    requires EmailMatch(f)
    ensures EmailMatch(x + f + y)
  {
    var i, j :| 0 <= i <= j <= |f| && Bounded(f, i, j) && EmailShape(f[i..j]);
    EmailMoved(x, f, y, i, j);
  }

  lemma EmbedUrl(x: string, f: string, y: string)
    requires UrlMatch(f)
    ensures UrlMatch(x + f + y)
  {
    var i, j :| 0 <= i <= j <= |f| && UrlShape(f[i..j]);
    ShiftSlice(x, f, y, i, j);
    var t, m := x + f + y, f[i..j];
    assert t[|x| + i..|x| + j] == m;
  }

  lemma PlaceMoved(x: string, f: string, y: string, i: int, j: int)
    requires x == [] || !IsWordChar(x[|x| - 1])
    requires y == [] || !IsWordChar(y[0])
    requires Bounded(f, i, j) && f[i..j] in Places
    ensures AddressHkAsWritten(x + f + y)
  {
    ShiftBounded(x, f, y, i, j);
    var t, m := x + f + y, f[i..j];
    assert t[|x| + i..|x| + j] == m;
  }

  lemma EmbedAddressHk(x: string, f: string, y: string)
    requires x == [] || !IsWordChar(x[|x| - 1])
    requires y == [] || !IsWordChar(y[0])
    requires AddressHkAsWritten(f)
    ensures AddressHkAsWritten(x + f + y)
  {
    var i, j :| 0 <= i <= j <= |f| && Bounded(f, i, j) && f[i..j] in Places;
    PlaceMoved(x, f, y, i, j);
  }

  /** A match inside a piece of text stays a match when the piece is put
      between text that ends, and text that starts, with a non-word
      character. */
  lemma Embed(name: PatternName, x: string, f: string, y: string)
    requires x == [] || !IsWordChar(x[|x| - 1])
    requires y == [] || !IsWordChar(y[0])
    requires Matches(name, f)
    ensures Matches(name, x + f + y)
  {
    match name
    case PhoneHk => EmbedPhoneHk(x, f, y);
    case PhoneCn => EmbedPhoneCn(x, f, y);
    case Email => EmbedEmail(x, f, y);
    case Url => EmbedUrl(x, f, y);
    case AddressHk => EmbedAddressHk(x, f, y);
  }

  /** A bare eight-digit number is flagged as phone_hk wherever it stands
      between non-word characters or string ends. */
  lemma EightDigitNumberFlagged(x: string, d: string, y: string)
    requires |d| == 8 && AllDigits(d)
    requires x == [] || !IsWordChar(x[|x| - 1])
    requires y == [] || !IsWordChar(y[0])
    ensures Matches(PhoneHk, x + d + y)
  {
    assert d[0..8] == d;
    assert Bounded(d, 0, 8);
    EmbedPhoneHk(x, d, y);
  }

  /** Text with no digit, no '@' and no ':', in any script. */
  predicate NoDigitAtOrColon(s: string) {
    forall k :: 0 <= k < |s| ==> !IsDigit(s[k]) && s[k] != '@' && s[k] != ':'
  }

  /** Text with no digit, no '@', no ':' and no listed place name is not
      flagged by any of the five patterns, as written or as intended. */
  lemma PlainTextNotFlagged(s: string)
    requires NoDigitAtOrColon(s) && !AddressHkFixed(s)
    ensures forall name :: !Matches(name, s)
    ensures forall name :: !MatchesIntended(name, s)
  {
    forall i, j | 0 <= i <= j <= |s| ensures
      && !EightDigitsShape(s[i..j]) && !Plus852Shape(s[i..j])
      && !MainlandMobileShape(s[i..j]) && !EmailShape(s[i..j])
      && !UrlShape(s[i..j])
    {
      var m := s[i..j];
      assert NoDigitAtOrColon(m);
      PlainNoDigitShapes(m);
      PlainNoEmailShape(m);
    }
  }

  lemma PlainNoDigitShapes(m: string)
    requires NoDigitAtOrColon(m)
    ensures !EightDigitsShape(m) && !Plus852Shape(m) && !MainlandMobileShape(m) && !UrlShape(m)
  {
    if |m| > 1 {
      assert !IsDigit(m[0]) && !IsDigit(m[1]);
    }
    if |m| >= 8 {
      assert m[..7][4] == m[4] != ':';
      assert m[..8][5] == m[5] != ':';
    }
  }

  lemma PlainNoEmailShape(m: string)
    requires NoDigitAtOrColon(m)
    ensures !EmailShape(m)
  {
    forall a | 0 <= a < |m| ensures m[a] != '@' {
    }
  }
}
