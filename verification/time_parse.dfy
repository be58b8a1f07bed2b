/** The time/phone parser of a row: `re.search` of
    `(\d{1,2}:\d{2})\s*(\d{1,2}:\d{2})?\s*([RP])?` over the time/phone text.
    `ParseTime` is a hand-written scanner; `IsMatch` and `TriedBefore`
    describe the pattern's matches and the order in which Python's
    backtracking engine tries them, and `ParseTimeIsFirstMatch` shows that
    the scanner returns the groups of the first match found.  `\d` and `\s`
    are restricted to ASCII digits and ASCII whitespace. */
module TimeParse {

  /** The three captured fields; an absent group is the empty string. */
  datatype TimeFields = TimeFields(fromTime: string, toTime: string, phone: string)

  predicate IsDigit(c: char)
  {
    '0' <= c <= '9'
  }

  /** The ASCII characters Python's `\s` matches: space, tab, line feed,
      carriage return, vertical tab, form feed, and the separators
      U+001C to U+001F. */
  predicate IsSpace(c: char)
  {
    c == ' ' || c == '\t' || c == '\n' || c == '\r' || c == '\U{B}' || c == '\U{C}'
    || '\U{1C}' <= c <= '\U{1F}'
  }

  predicate IsPhone(c: char)
  {
    c == 'R' || c == 'P'
  }

  // The scanner.

  /** Length of the `\d{1,2}:\d{2}` token starting at `i`, or 0 when none
      does.  Two leading digits are tried before one, as the greedy
      `\d{1,2}` does. */
  function TokenLen(s: string, i: nat): (n: nat)
    ensures n == 0 || n == 4 || n == 5
    ensures n > 0 ==> i + n <= |s| && TimeAt(s, i, n - 3)
    ensures TimeAt(s, i, 2) ==> n == 5
    ensures TimeAt(s, i, 1) ==> n > 0
  {
    if i + 5 <= |s| && IsDigit(s[i]) && IsDigit(s[i + 1]) && s[i + 2] == ':'
       && IsDigit(s[i + 3]) && IsDigit(s[i + 4]) then 5
    else if i + 4 <= |s| && IsDigit(s[i]) && s[i + 1] == ':'
       && IsDigit(s[i + 2]) && IsDigit(s[i + 3]) then 4
    else 0
  }

  /** The leftmost position at or after `i` where a token starts, or `|s|`. */
  function FirstToken(s: string, i: nat): (j: nat)
    requires i <= |s|
    ensures i <= j <= |s|
    ensures forall k :: i <= k < j ==> TokenLen(s, k) == 0
    ensures j < |s| ==> TokenLen(s, j) > 0
    decreases |s| - i
  {
    if i == |s| || TokenLen(s, i) > 0 then i else FirstToken(s, i + 1)
  }

  /** Length of the longest run of whitespace starting at `i` (greedy `\s*`). */
  function SpaceRun(s: string, i: nat): (n: nat)
    requires i <= |s|
    ensures i + n <= |s|
    ensures forall k :: i <= k < i + n ==> IsSpace(s[k])
    ensures i + n < |s| ==> !IsSpace(s[i + n])
    decreases |s| - i
  {
    if i < |s| && IsSpace(s[i]) then 1 + SpaceRun(s, i + 1) else 0
  }

  // The pattern's matches, and the order in which they are tried.

  /** One way the pattern can match: where it starts, the number of leading
      digits of the first time (`d1`), the whitespace taken by the first
      `\s*` (`k1`), the leading digits of the second time (`d2`, 0 when the
      optional group is skipped), the whitespace of the second `\s*` (`k2`)
      and whether the optional `[RP]` is taken. */
  datatype Match = Match(start: nat, d1: nat, k1: nat, d2: nat, k2: nat, phone: bool)

  predicate DigitsAt(s: string, i: nat, n: nat)
  {
    i + n <= |s| && forall k :: i <= k < i + n ==> IsDigit(s[k])
  }

  predicate SpacesAt(s: string, i: nat, n: nat)
  {
    i + n <= |s| && forall k :: i <= k < i + n ==> IsSpace(s[k])
  }

  /** `\d{d}:\d{2}` at `i`, for one or two leading digits. */
  predicate TimeAt(s: string, i: nat, d: nat)
  {
    1 <= d <= 2 && DigitsAt(s, i, d) && i + d < |s| && s[i + d] == ':' && DigitsAt(s, i + d + 1, 2)
  }

  function End1(m: Match): nat
  {
    m.start + m.d1 + 3
  }

  function Start2(m: Match): nat
  {
    End1(m) + m.k1
  }

  function End2(m: Match): nat
  {
    if m.d2 == 0 then Start2(m) else Start2(m) + m.d2 + 3
  }

  function PhoneAt(m: Match): nat
  {
    End2(m) + m.k2
  }

  predicate IsMatch(s: string, m: Match)
  {
    && TimeAt(s, m.start, m.d1)
    && SpacesAt(s, End1(m), m.k1)
    && (m.d2 == 0 || TimeAt(s, Start2(m), m.d2))
    && SpacesAt(s, End2(m), m.k2)
    && (m.phone ==> PhoneAt(m) < |s| && IsPhone(s[PhoneAt(m)]))
  }

  /** `a` is found before `b`: `re.search` tries start positions from the
      left; at one start, the greedy quantifiers try more digits and more
      whitespace first, and the optional groups try to match before they
      try to be skipped. */
  predicate TriedBefore(a: Match, b: Match)
  {
    if a.start != b.start then a.start < b.start
    else if a.d1 != b.d1 then a.d1 > b.d1
    else if a.k1 != b.k1 then a.k1 > b.k1
    else if a.d2 != b.d2 then a.d2 > b.d2
    else if a.k2 != b.k2 then a.k2 > b.k2
    else a.phone && !b.phone
  }

  /** The match `re.search` returns: no other match is tried before it. */
  ghost predicate IsFirstMatch(s: string, m: Match)
  {
    IsMatch(s, m) && forall m' :: IsMatch(s, m') ==> !TriedBefore(m', m)
  }

  /** The groups of a match, with absent groups as empty strings. */
  function FieldsOf(s: string, m: Match): TimeFields
    requires IsMatch(s, m)
  {
    TimeFields(s[m.start..End1(m)], s[Start2(m)..End2(m)],
               if m.phone then [s[PhoneAt(m)]] else "")
  }

  /** The match the scanner builds from the leftmost token start `i`:
      the token, the longest whitespace run, a second token if one starts
      right there, the longest whitespace run again, and a phone letter if
      one follows. */
  function ScanMatch(s: string, i: nat): (m: Match)
    requires i < |s| && TokenLen(s, i) > 0
    ensures m.start == i && PhoneAt(m) <= |s|
    ensures m.d2 > 0 ==> TokenLen(s, Start2(m)) == m.d2 + 3
  {
    var j := i + TokenLen(s, i);
    var k1 := SpaceRun(s, j);
    var p := j + k1;
    var d2 := if TokenLen(s, p) > 0 then TokenLen(s, p) - 3 else 0;
    var q := p + TokenLen(s, p);
    var k2 := SpaceRun(s, q);
    var r := q + k2;
    Match(i, TokenLen(s, i) - 3, k1, d2, k2, r < |s| && IsPhone(s[r]))
  }

  /** The fields of the first match of the pattern, or three empty strings. */
  function ParseTime(s: string): (f: TimeFields)
    ensures |f.fromTime| == 0 || |f.fromTime| == 4 || |f.fromTime| == 5
    ensures |f.toTime| == 0 || |f.toTime| == 4 || |f.toTime| == 5
    ensures f.phone == "" || f.phone == "R" || f.phone == "P"
    ensures f.toTime != "" ==> f.fromTime != ""
    ensures f.phone != "" ==> f.fromTime != ""
  {
    var i := FirstToken(s, 0);
    if i == |s| then TimeFields("", "", "")
    else
      var m := ScanMatch(s, i);
      ScanMatchIsMatch(s, i);
      FieldsOf(s, m)
  }

  lemma TokenLenOfTimeAt(s: string, i: nat, d: nat)
    requires TimeAt(s, i, d)
    ensures TokenLen(s, i) == d + 3
  {
    assert IsDigit(s[i]);
    assert IsDigit(s[i + d + 1]) && IsDigit(s[i + d + 2]);
    if d == 2 {
      assert IsDigit(s[i + 1]);
    }
  }

  lemma SpaceRunIsLongest(s: string, i: nat, n: nat)
    requires i <= |s|
    requires SpacesAt(s, i, n)
    ensures n <= SpaceRun(s, i)
  {
  }

  lemma ScanMatchIsMatch(s: string, i: nat)
    requires i < |s| && TokenLen(s, i) > 0
    ensures IsMatch(s, ScanMatch(s, i))
  {
  }

  lemma SameStartFirstGroup(s: string, i: nat, m': Match)
    requires i < |s| && TokenLen(s, i) > 0
    requires IsMatch(s, m') && m'.start == i
    ensures m'.d1 == ScanMatch(s, i).d1 && m'.k1 <= ScanMatch(s, i).k1
  {
    TokenLenOfTimeAt(s, i, m'.d1);
    SpaceRunIsLongest(s, End1(m'), m'.k1);
  }

  lemma SameStartSecondGroup(s: string, i: nat, m': Match)
    requires i < |s| && TokenLen(s, i) > 0
    requires IsMatch(s, m') && m'.start == i
    requires m'.d1 == ScanMatch(s, i).d1 && m'.k1 == ScanMatch(s, i).k1
    ensures m'.d2 <= ScanMatch(s, i).d2
  {
    if m'.d2 > 0 {
      TokenLenOfTimeAt(s, Start2(m'), m'.d2);
    }
  }

  lemma SameStartPhone(s: string, i: nat, m': Match)
    requires i < |s| && TokenLen(s, i) > 0
    requires IsMatch(s, m') && m'.start == i
    requires m'.d1 == ScanMatch(s, i).d1 && m'.k1 == ScanMatch(s, i).k1 && m'.d2 == ScanMatch(s, i).d2
    ensures m'.k2 <= ScanMatch(s, i).k2
    ensures m'.k2 == ScanMatch(s, i).k2 && m'.phone ==> ScanMatch(s, i).phone
  {
    SpaceRunIsLongest(s, End2(m'), m'.k2);
  }

  /** Among the matches that start where the scanner's does, none is tried
      before the scanner's. */
  lemma ScanMatchFirstAtStart(s: string, i: nat, m': Match)
    requires i < |s| && TokenLen(s, i) > 0
    requires IsMatch(s, m') && m'.start == i
    ensures !TriedBefore(m', ScanMatch(s, i))
  {
    var m := ScanMatch(s, i);
    SameStartFirstGroup(s, i, m');
    if m'.k1 == m.k1 {
      SameStartSecondGroup(s, i, m');
      if m'.d2 == m.d2 {
        SameStartPhone(s, i, m');
      }
    }
  }

  /** The scanner returns the groups of the match `re.search` finds, and
      three empty strings exactly when the pattern matches nowhere. */
  lemma ParseTimeIsFirstMatch(s: string)
    ensures (forall m :: !IsMatch(s, m)) ==> ParseTime(s) == TimeFields("", "", "")
    ensures (exists m :: IsMatch(s, m)) ==>
              exists m :: IsFirstMatch(s, m) && ParseTime(s) == FieldsOf(s, m)
  {
    var i := FirstToken(s, 0);
    if i < |s| {
      var m := ScanMatch(s, i);
      ScanMatchIsMatch(s, i);
      forall m' | IsMatch(s, m')
        ensures !TriedBefore(m', m)
      {
        TokenLenOfTimeAt(s, m'.start, m'.d1);
        if m'.start == i {
          ScanMatchFirstAtStart(s, i, m');
        }
      }
      assert IsFirstMatch(s, m);
    } else {
      forall m | IsMatch(s, m)
        ensures false
      {
        TokenLenOfTimeAt(s, m.start, m.d1);
      }
    }
  }

  /** `\d:\d{2}` at `i`: the shortest form of the first time. */
  predicate ShortTimeAt(s: string, i: nat)
  {
    i + 4 <= |s| && IsDigit(s[i]) && s[i + 1] == ':' && IsDigit(s[i + 2]) && IsDigit(s[i + 3])
  }

  lemma TokenLenShortTime(s: string, i: nat)
    ensures ShortTimeAt(s, i) ==> TokenLen(s, i) > 0
    ensures TokenLen(s, i) > 0 ==> ShortTimeAt(s, i) || ShortTimeAt(s, i + 1)
  {
  }

  /** A first time is found exactly when the text contains a digit, a colon
      and two more digits in a row. */
  lemma FromTimeIffDigitColonDigits(s: string)
    ensures ParseTime(s).fromTime != "" <==> exists i: nat :: ShortTimeAt(s, i)
  {
    var i := FirstToken(s, 0);
    if exists k: nat :: ShortTimeAt(s, k) {
      var k: nat :| ShortTimeAt(s, k);
      TokenLenShortTime(s, k);
      assert i <= k;
    }
    if i < |s| {
      TokenLenShortTime(s, i);
      ScanMatchIsMatch(s, i);
      assert |ParseTime(s).fromTime| == TokenLen(s, i);
    }
  }

  /** Text without digits yields three empty fields. */
  lemma NoDigitNoTime(s: string)
    requires forall k :: 0 <= k < |s| ==> !IsDigit(s[k])
    ensures ParseTime(s) == TimeFields("", "", "")
  {
    FromTimeIffDigitColonDigits(s);
  }

  const FullExample: string := " 9:00 10:30 R extra"

  lemma ExampleFullStart()
    ensures FirstToken(FullExample, 0) == 1
  {
    var s := FullExample;
    assert TokenLen(s, 0) == 0;
    assert TokenLen(s, 1) == 4;
  }

  lemma ExampleFullTokens()
    ensures TokenLen(FullExample, 1) == 4 && TokenLen(FullExample, 6) == 5
  {
  }

  lemma ExampleFullSpaces()
    ensures SpaceRun(FullExample, 5) == 1 && SpaceRun(FullExample, 11) == 1
  {
    ExampleFullSpaceAt(5);
    ExampleFullSpaceAt(11);
  }

  lemma ExampleFullSpaceAt(i: nat)
    requires i == 5 || i == 11
    ensures SpaceRun(FullExample, i) == 1
  {
    var s := FullExample;
    assert s[i] == ' ' && !IsSpace(s[i + 1]);
    assert SpaceRun(s, i + 1) == 0;
  }

  lemma ExampleFullScan()
    ensures ScanMatch(FullExample, 1) == Match(1, 1, 1, 2, 1, true)
  {
    ExampleFullTokens();
    ExampleFullSpaces();
  }

  lemma ExampleFull()
    ensures ParseTime(FullExample) == TimeFields("9:00", "10:30", "R")
  {
    var s := FullExample;
    ExampleFullStart();
    ExampleFullScan();
    assert s[1..5] == "9:00" && s[6..11] == "10:30" && s[12] == 'R';
  }

  lemma ExampleFromOnly()
    ensures ParseTime(" 14:05") == TimeFields("14:05", "", "")
  {
    var s := " 14:05";
    assert FirstToken(s, 0) == 1;
    assert TokenLen(s, 1) == 5;
    assert s[1..6] == "14:05";
  }

  lemma ExampleShortFrom()
    ensures ParseTime(" 9:00") == TimeFields("9:00", "", "")
  {
    var s := " 9:00";
    assert TokenLen(s, 0) == 0;
    assert TokenLen(s, 1) == 4;
    assert FirstToken(s, 0) == 1;
    assert SpaceRun(s, 5) == 0;
    assert TokenLen(s, 5) == 0;
    assert ScanMatch(s, 1) == Match(1, 1, 0, 0, 0, false);
    assert s[1..5] == "9:00";
  }

  const NoTimeExample: string := " no time here"

  lemma ExampleNoTime()
    ensures ParseTime(NoTimeExample) == TimeFields("", "", "")
  {
    var s := NoTimeExample;
    forall k | 0 <= k < |s|
      ensures !IsDigit(s[k])
    {
    }
    NoDigitNoTime(s);
  }

  lemma ExampleLeftmostBacktrack()
    ensures ParseTime("123:45").fromTime == "23:45"
  {
    var s := "123:45";
    assert TokenLen(s, 0) == 0;
    assert TokenLen(s, 1) == 5;
    assert FirstToken(s, 0) == 1;
    assert s[1..6] == "23:45";
  }
}
