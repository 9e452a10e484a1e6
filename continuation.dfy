// The decision taken when the user types a line break: look at the line
// containing the break, trimmed of blanks, and continue a bullet
// list, continue a numbered list with the next number, or insert a plain
// line break.

module ListContinuation {
  import opened Attributes

  /** What handleNewLine inserts in place of the selection; `NoInsertion`
      when the line matched the numbered-list pattern but its number did not
      parse. */
  datatype Continuation = Insert(text: string) | NoInsertion

  /** The largest value of Swift's 64-bit Int. */
  const IntMax: int := 0x7FFF_FFFF_FFFF_FFFF

  /** CharacterSet.whitespaces: the tab and the Unicode space separators
      (general category Zs). */
  predicate IsBlank(c: char) {
    c == '\t' || c == ' ' || c == '\U{A0}' || c == '\U{1680}' || '\U{2000}' <= c <= '\U{200A}'
    || c == '\U{202F}' || c == '\U{205F}' || c == '\U{3000}'
  }

  /** `\s` of the ICU regular expression: the Unicode White_Space property,
      which adds the line and paragraph breaks to the blanks. */
  predicate IsRegexSpace(c: char) {
    IsBlank(c) || '\n' <= c <= '\r' || c == '\U{85}' || c == '\U{2028}' || c == '\U{2029}'
  }

  /** An ASCII digit: the only digits `Int(_:)` reads. */
  predicate IsDigit(c: char) { '0' <= c <= '9' }

  predicate AllDigits(s: string) { forall k :: 0 <= k < |s| ==> IsDigit(s[k]) }

  /** How many runs of ten decimal digits there are (general category Nd,
      Unicode 15.0). */
  const DigitRunCount: nat := 68

  /** The first code point of the `i`th run of ten decimal digits; together
      the runs are every Nd character. The mathematical digits U+1D7CE to
      U+1D7FF are five such runs. */
  function DigitRunStart(i: nat): int
    requires i < DigitRunCount
  {
    match i
    case 0 => 0x30 case 1 => 0x660 case 2 => 0x6F0 case 3 => 0x7C0
    case 4 => 0x966 case 5 => 0x9E6 case 6 => 0xA66 case 7 => 0xAE6
    case 8 => 0xB66 case 9 => 0xBE6 case 10 => 0xC66 case 11 => 0xCE6
    case 12 => 0xD66 case 13 => 0xDE6 case 14 => 0xE50 case 15 => 0xED0
    case 16 => 0xF20 case 17 => 0x1040 case 18 => 0x1090 case 19 => 0x17E0
    case 20 => 0x1810 case 21 => 0x1946 case 22 => 0x19D0 case 23 => 0x1A80
    case 24 => 0x1A90 case 25 => 0x1B50 case 26 => 0x1BB0 case 27 => 0x1C40
    case 28 => 0x1C50 case 29 => 0xA620 case 30 => 0xA8D0 case 31 => 0xA900
    case 32 => 0xA9D0 case 33 => 0xA9F0 case 34 => 0xAA50 case 35 => 0xABF0
    case 36 => 0xFF10 case 37 => 0x104A0 case 38 => 0x10D30 case 39 => 0x11066
    case 40 => 0x110F0 case 41 => 0x11136 case 42 => 0x111D0 case 43 => 0x112F0
    case 44 => 0x11450 case 45 => 0x114D0 case 46 => 0x11650 case 47 => 0x116C0
    case 48 => 0x11730 case 49 => 0x118E0 case 50 => 0x11950 case 51 => 0x11C50
    case 52 => 0x11D50 case 53 => 0x11DA0 case 54 => 0x11F50 case 55 => 0x16A60
    case 56 => 0x16AC0 case 57 => 0x16B50 case 58 => 0x1D7CE case 59 => 0x1D7D8
    case 60 => 0x1D7E2 case 61 => 0x1D7EC case 62 => 0x1D7F6 case 63 => 0x1E140
    case 64 => 0x1E2F0 case 65 => 0x1E4F0 case 66 => 0x1E950
    case _ => 0x1FBF0
  }

  /** `\d` of the ICU regular expression: a decimal digit of any script,
      the ASCII ones among them. */
  predicate IsDecimalDigit(c: char) { InDigitRun(c, 0) }

  /** `c` lies in one of the runs of digits from the `i`th on. */
  predicate InDigitRun(c: char, i: nat)
    decreases DigitRunCount - i
  {
    i < DigitRunCount
    && (DigitRunStart(i) <= c as int < DigitRunStart(i) + 10 || InDigitRun(c, i + 1))
  }

  predicate AllDecimalDigits(s: string) { forall k :: 0 <= k < |s| ==> IsDecimalDigit(s[k]) }

  /** Every run lies above "0" and holds no blank. */
  lemma RunAvoidsBlanks(i: nat)
    requires i < DigitRunCount
    ensures 0x30 <= DigitRunStart(i)
    ensures forall c: char :: DigitRunStart(i) <= c as int < DigitRunStart(i) + 10 ==> !IsBlank(c)
  {
  }

  lemma {:induction false} InDigitRunFacts(c: char, i: nat)
    requires InDigitRun(c, i)
    ensures '0' <= c && !IsBlank(c)
    decreases DigitRunCount - i
  {
    if DigitRunStart(i) <= c as int < DigitRunStart(i) + 10 {
      RunAvoidsBlanks(i);
    } else {
      InDigitRunFacts(c, i + 1);
    }
  }

  /** No decimal digit is a blank, nor a character below "0" such as "." or
      "-". */
  lemma DecimalDigitFacts(c: char)
    ensures IsDecimalDigit(c) ==> '0' <= c && !IsBlank(c)
  {
    if IsDecimalDigit(c) {
      InDigitRunFacts(c, 0);
    }
  }

  /** The ASCII digits are decimal digits. */
  lemma AsciiDigitsAreDecimal(s: string)
    requires AllDigits(s)
    ensures AllDecimalDigits(s)
  {
    assert DigitRunStart(0) == 0x30;
  }

  // ---- The line containing the break (NSString.lineRange(for:)) ----

  /** Where the line containing position `loc` starts. */
  function LineStart(s: string, loc: nat): (r: nat)
    requires loc <= |s|
    ensures r <= loc
    ensures r == 0 || s[r - 1] == '\n'
    ensures forall k :: r <= k < loc ==> s[k] != '\n'
    decreases loc
  {
    if loc == 0 || s[loc - 1] == '\n' then loc else LineStart(s, loc - 1)
  }

  /** Where the line running from `from` ends: just after its line break,
      or at the end of the string. */
  function LineEnd(s: string, from: nat): (r: nat)
    requires from <= |s|
    ensures from <= r <= |s|
    ensures (r == |s| && forall k :: from <= k < r ==> s[k] != '\n')
            || (from < r && s[r - 1] == '\n' && forall k :: from <= k < r - 1 ==> s[k] != '\n')
    decreases |s| - from
  {
    if from == |s| then |s|
    else if s[from] == '\n' then from + 1
    else LineEnd(s, from + 1)
  }

  /** The line containing position `loc`, with its terminating line break
      if it has one. */
  function LineAt(s: string, loc: nat): (line: string)
    requires loc <= |s|
    ensures exists start, end :: 0 <= start <= loc <= end <= |s| && line == s[start..end]
              && (start == 0 || s[start - 1] == '\n')
              && (forall k :: start <= k < loc ==> s[k] != '\n')
              && (end == |s| || (start < end && s[end - 1] == '\n'))
    ensures forall k :: 0 <= k < |line| - 1 ==> line[k] != '\n'
  {
    var start := LineStart(s, loc);
    var end := LineEnd(s, start);
    s[start..end]
  }

  // ---- trimmingCharacters(in: .whitespaces) ----

  /** Where the leading blanks of `s[from..]` end. */
  function LeadingBlanks(s: string, from: nat): (i: nat)
    requires from <= |s|
    ensures from <= i <= |s|
    ensures forall k :: from <= k < i ==> IsBlank(s[k])
    ensures i == |s| || !IsBlank(s[i])
    decreases |s| - from
  {
    if from < |s| && IsBlank(s[from]) then LeadingBlanks(s, from + 1) else from
  }

  /** Where the trailing blanks of `s[lo..hi]` start. */
  function TrailingBlanks(s: string, lo: nat, hi: nat): (j: nat)
    requires lo <= hi <= |s|
    ensures lo <= j <= hi
    ensures forall k :: j <= k < hi ==> IsBlank(s[k])
    ensures j == lo || !IsBlank(s[j - 1])
    decreases hi
  {
    if lo < hi && IsBlank(s[hi - 1]) then TrailingBlanks(s, lo, hi - 1) else hi
  }

  /** trimmingCharacters(in: .whitespaces) */
  function Trim(s: string): (r: string)
    ensures |r| <= |s|
    ensures r == [] || (!IsBlank(r[0]) && !IsBlank(r[|r| - 1]))
  {
    var i := LeadingBlanks(s, 0);
    s[i..TrailingBlanks(s, i, |s|)]
  }

  /** Trimming removes blanks from both ends, and nothing else. */
  lemma TrimStripsBlanks(s: string)
    ensures exists i, j :: 0 <= i <= j <= |s| && Trim(s) == s[i..j]
              && (forall k :: 0 <= k < i ==> IsBlank(s[k]))
              && (forall k :: j <= k < |s| ==> IsBlank(s[k]))
  {
    var i := LeadingBlanks(s, 0);
    var j := TrailingBlanks(s, i, |s|);
    assert Trim(s) == s[i..j];
  }

  // ---- The pattern ^\d+\.\s ----

  /** The number of decimal digits `s` starts with. */
  function DigitPrefixLength(s: string): (n: nat)
    ensures n <= |s| && AllDecimalDigits(s[..n])
    ensures n == |s| || !IsDecimalDigit(s[n])
  {
    if s != [] && IsDecimalDigit(s[0]) then
      var n := 1 + DigitPrefixLength(s[1..]);
      assert s[..n] == [s[0]] + s[1..][..n - 1];
      n
    else 0
  }

  /** The regular expression `^\d+\.\s` matches the first `m` characters of
      `line`. */
  ghost predicate MatchesNumberedMarker(line: string, m: nat) {
    2 < m <= |line| && AllDecimalDigits(line[..m - 2]) && line[m - 2] == '.' && IsRegexSpace(line[m - 1])
  }

  /** The length of the match of `^\d+\.\s` at the start of `line`. */
  function NumberedMarker(line: string): (r: Option<nat>)
    ensures r.Some? ==> MatchesNumberedMarker(line, r.value)
  {
    var n := DigitPrefixLength(line);
    if 0 < n && n + 2 <= |line| && line[n] == '.' && IsRegexSpace(line[n + 1]) then Some(n + 2)
    else None
  }

  // ---- Int(String) and the number's description ----

  function DigitValue(c: char): nat
    requires IsDigit(c)
  {
    (c - '0') as nat
  }

  function DigitChar(d: nat): char
    requires d < 10
  {
    ('0' as int + d) as char
  }

  function DecimalValue(s: string): nat
    requires AllDigits(s)
  {
    if s == [] then 0 else DecimalValue(s[..|s| - 1]) * 10 + DigitValue(s[|s| - 1])
  }

  /** Int(s) for the strings this code parses: one or more digits whose
      value fits a 64-bit Int. */
  function ParseInt(s: string): Option<nat> {
    if s != [] && AllDigits(s) && DecimalValue(s) <= IntMax then Some(DecimalValue(s)) else None
  }

  /** The decimal description of a number, as string interpolation writes it. */
  function NatToString(n: nat): (s: string)
    ensures s != [] && AllDigits(s)
    ensures n == 0 <==> s == "0"
    ensures n > 0 ==> s[0] != '0'
  {
    if n < 10 then [DigitChar(n)] else NatToString(n / 10) + [DigitChar(n % 10)]
  }

  /** replacingOccurrences(of: ".", with: "") */
  function RemoveDots(s: string): (r: string)
    ensures forall k :: 0 <= k < |r| ==> r[k] != '.'
  {
    if s == [] then []
    else RemoveDots(s[..|s| - 1]) + (if s[|s| - 1] == '.' then [] else [s[|s| - 1]])
  }

  // ---- The decision ----

  /** The continuation after the matched marker `numberString`: the next
      number when the marker, without its dot, parses as an Int. */
  function NextNumber(numberString: string): (r: Continuation)
    ensures r.Insert? ==> |r.text| >= 4 && r.text[0] == '\n' && r.text[|r.text| - 2..] == ". "
  {
    match ParseInt(RemoveDots(numberString))
    case Some(n) => Insert("\n" + NatToString(n + 1) + ". ")
    case None => NoInsertion
  }

  /** What handleNewLine inserts, given the trimmed line containing the
      break. */
  function NewLineContinuation(line: string): (r: Continuation)
    ensures r.Insert? ==> |r.text| > 0 && r.text[0] == '\n'
  {
    if |line| > 0 && line[0] == '-' then Insert("\n- ")
    else
      match NumberedMarker(line)
      case Some(m) => NextNumber(Trim(line[..m]))
      case None => Insert("\n")
  }

  /** The text handleNewLine bases its decision on. */
  function CurrentLine(text: string, loc: nat): (r: string)
    requires loc <= |text|
    ensures forall k :: 0 <= k < |r| - 1 ==> r[k] != '\n'
    ensures r == [] || (!IsBlank(r[0]) && !IsBlank(r[|r| - 1]))
  {
    var line := LineAt(text, loc);
    TrimOfLine(line);
    Trim(line)
  }

  lemma TrimOfLine(line: string)
    requires forall k :: 0 <= k < |line| - 1 ==> line[k] != '\n'
    ensures forall k :: 0 <= k < |Trim(line)| - 1 ==> Trim(line)[k] != '\n'
  {
    var i := LeadingBlanks(line, 0);
    var j := TrailingBlanks(line, i, |line|);
    assert Trim(line) == line[i..j];
    forall k | 0 <= k < |Trim(line)| - 1
      ensures Trim(line)[k] != '\n'
    {
      assert Trim(line)[k] == line[i + k];
    }
  }

  // ---- What the decision means ----

  /** NumberedMarker finds exactly the match of `^\d+\.\s`. */
  lemma NumberedMarkerMatches(line: string, m: nat)
    ensures NumberedMarker(line) == Some(m) <==> MatchesNumberedMarker(line, m)
  {
    var n := DigitPrefixLength(line);
    if MatchesNumberedMarker(line, m) {
      assert forall k :: 0 <= k < n ==> IsDecimalDigit(line[k]) by {
        forall k | 0 <= k < n ensures IsDecimalDigit(line[k]) { assert line[..n][k] == line[k]; }
      }
      assert forall k :: 0 <= k < m - 2 ==> IsDecimalDigit(line[k]) by {
        forall k | 0 <= k < m - 2 ensures IsDecimalDigit(line[k]) { assert line[..m - 2][k] == line[k]; }
      }
      DecimalDigitFacts(line[m - 2]);
    }
  }

  lemma {:induction false} DecimalOfNatToString(n: nat)
    ensures DecimalValue(NatToString(n)) == n
  {
    var s := NatToString(n);
    if n >= 10 {
      assert s[..|s| - 1] == NatToString(n / 10);
      DecimalOfNatToString(n / 10);
    }
  }

  /** Int(_:) reads back the description of any number that fits an Int. */
  lemma ParseIntOfNatToString(n: nat)
    requires n <= IntMax
    ensures ParseInt(NatToString(n)) == Some(n)
  {
    DecimalOfNatToString(n);
  }

  lemma {:induction false} RemoveDotsKeeps(s: string)
    requires forall k :: 0 <= k < |s| ==> s[k] != '.'
    ensures RemoveDots(s) == s
  {
    if s != [] {
      RemoveDotsKeeps(s[..|s| - 1]);
    }
  }

  /** The matched marker "<digits>.<w>" trimmed of blanks, with its dot
      removed: the digits alone when `w` is a blank, the digits followed by
      `w` otherwise. */
  lemma MarkerNumberString(digits: string, w: char)
    requires digits != [] && AllDigits(digits) && w != '.'
    ensures RemoveDots(Trim(digits + ['.', w])) == if IsBlank(w) then digits else digits + [w]
  {
    TrimMarker(digits, w);
    RemoveDotsOfMarker(digits, w);
  }

  lemma RemoveDotsOfMarker(digits: string, w: char)
    requires AllDigits(digits) && w != '.'
    ensures RemoveDots(digits + ".") == digits
    ensures RemoveDots(digits + ['.', w]) == digits + [w]
  {
    assert digits + ['.', w] == (digits + ".") + [w];
    DigitsHaveNoDot(digits);
    RemoveDotsAppend(digits, '.');
    RemoveDotsAppend(digits + ".", w);
  }

  lemma DigitsHaveNoDot(digits: string)
    requires AllDigits(digits)
    ensures RemoveDots(digits) == digits
  {
    forall k | 0 <= k < |digits|
      ensures digits[k] != '.'
    {
      assert IsDigit(digits[k]);
    }
    RemoveDotsKeeps(digits);
  }

  lemma RemoveDotsAppend(s: string, c: char)
    ensures RemoveDots(s + [c]) == RemoveDots(s) + (if c == '.' then [] else [c])
  {
    assert (s + [c])[..|s|] == s;
  }

  lemma TrimMarker(digits: string, w: char)
    requires digits != [] && AllDigits(digits)
    ensures Trim(digits + ['.', w]) == if IsBlank(w) then digits + "." else digits + ['.', w]
  {
    var x := digits + ['.', w];
    assert x[0] == digits[0];
    assert LeadingBlanks(x, 0) == 0;
    assert x[|x| - 2] == '.';
    if IsBlank(w) {
      assert TrailingBlanks(x, 0, |x|) == |x| - 1;
      assert x[..|x| - 1] == digits + ".";
    } else {
      assert TrailingBlanks(x, 0, |x|) == |x|;
    }
  }

  lemma ParseIntDigitsThenOther(digits: string, w: char)
    requires !IsDigit(w)
    ensures ParseInt(digits + [w]) == None
  {
    assert !IsDigit((digits + [w])[|digits|]);
  }

  /** A line that starts with `^\d+\.\s` continues with the next number when
      the white space after the dot is a blank and the number is written in
      ASCII digits and fits an Int; otherwise (a line or paragraph break after
      the dot, digits of another script, or a number too large) nothing is
      inserted. */
  lemma NumberedLineContinuation(line: string, n: nat)
    requires MatchesNumberedMarker(line, n + 2)
    ensures NewLineContinuation(line) ==
              if IsBlank(line[n + 1]) && AllDigits(line[..n]) && DecimalValue(line[..n]) <= IntMax
              then Insert("\n" + NatToString(DecimalValue(line[..n]) + 1) + ". ")
              else NoInsertion
  {
    var digits := line[..n];
    var w := line[n + 1];
    assert line[..n + 2] == digits + ['.', w];
    NumberedMarkerMatches(line, n + 2);
    assert line[0] == digits[0];
    DecimalDigitFacts(line[0]);
    assert NewLineContinuation(line) == NextNumber(Trim(digits + ['.', w]));
    if AllDigits(digits) {
      MarkerNumberString(digits, w);
      if !IsBlank(w) {
        ParseIntDigitsThenOther(digits, w);
      }
    } else {
      OtherScriptMarker(digits, w);
    }
  }

  /** A marker whose number has a digit of another script survives trimming
      and dot removal with that digit, so `Int(_:)` rejects it. */
  lemma OtherScriptMarker(digits: string, w: char)
    requires AllDecimalDigits(digits) && !AllDigits(digits)
    ensures ParseInt(RemoveDots(Trim(digits + ['.', w]))) == None
  {
    var p :| 0 <= p < |digits| && !IsDigit(digits[p]);
    var x := digits + ['.', w];
    assert x[0] == digits[0];
    DecimalDigitFacts(x[0]);
    DecimalDigitFacts(digits[p]);
    var i := LeadingBlanks(x, 0);
    assert i == 0;
    assert x[|digits|] == '.';
    var j := TrailingBlanks(x, 0, |x|);
    assert j > |digits|;
    var t := Trim(x);
    assert t == x[..j];
    assert t[p] == digits[p];
    RemoveDotsKeepsChar(t, p);
  }

  /** A character other than "." is still there after the dots are removed. */
  lemma {:induction false} RemoveDotsKeepsChar(s: string, p: nat)
    requires p < |s| && s[p] != '.'
    ensures s[p] in RemoveDots(s)
  {
    if p < |s| - 1 {
      RemoveDotsKeepsChar(s[..|s| - 1], p);
    }
  }

  /** "n. text" continues with "n+1. ", whichever blank follows the dot. */
  lemma NumberIncrements(n: nat, w: char, rest: string)
    requires n <= IntMax && IsBlank(w)
    ensures NewLineContinuation(NatToString(n) + ['.', w] + rest) == Insert("\n" + NatToString(n + 1) + ". ")
  {
    var line := NatToString(n) + ['.', w] + rest;
    var k := |NatToString(n)|;
    assert line[..k] == NatToString(n);
    AsciiDigitsAreDecimal(NatToString(n));
    DecimalOfNatToString(n);
    NumberedLineContinuation(line, k);
  }

  /** A line that neither starts with "-" nor with `^\d+\.\s` gets a plain
      line break. */
  lemma PlainLineContinuation(line: string)
    requires line == [] || line[0] != '-'
    requires forall m: nat :: !MatchesNumberedMarker(line, m)
    ensures NewLineContinuation(line) == Insert("\n")
  {
  }

  /** Nothing is inserted only for a line that matched the numbered-list
      pattern. */
  lemma NoInsertionOnlyAfterMarker(line: string)
    requires NewLineContinuation(line) == NoInsertion
    ensures exists m: nat :: MatchesNumberedMarker(line, m)
  {
    NumberedMarkerMatches(line, NumberedMarker(line).value);
  }

  /** A line starting with "-" continues the bullet list, whatever follows. */
  lemma BulletLineContinuation(line: string)
    requires |line| > 0 && line[0] == '-'
    ensures NewLineContinuation(line) == Insert("\n- ")
  {
  }

  /** An indented bullet continues its list: the indentation, spaces,
      tabs or any other blanks, is trimmed before the "-" is looked at. */
  lemma IndentedBulletContinuation(indent: string, rest: string)
    requires forall k :: 0 <= k < |indent| ==> IsBlank(indent[k])
    requires rest != [] && rest[0] == '-'
    ensures NewLineContinuation(Trim(indent + rest)) == Insert("\n- ")
  {
    var s := indent + rest;
    var i := LeadingBlanks(s, 0);
    assert s[|indent|] == '-';
    assert forall k :: 0 <= k < |indent| ==> s[k] == indent[k];
    assert i == |indent|;
    var j := TrailingBlanks(s, i, |s|);
    assert j > i;
    assert Trim(s)[0] == '-';
  }

  /** "٣. x", three in Arabic-Indic digits: the pattern matches, `Int(_:)`
      rejects the number, and nothing is inserted. */
  lemma ArabicIndicNumberExample()
    ensures NewLineContinuation(['\U{663}', '.', ' ', 'x']) == NoInsertion
  {
    var line := ['\U{663}', '.', ' ', 'x'];
    assert line[..1] == ['\U{663}'];
    assert InDigitRun('\U{663}', 1);
    NumberedLineContinuation(line, 1);
  }

  lemma LineBreakAfterDotExample()
    ensures NewLineContinuation("3.\n") == NoInsertion
  {
    assert "3.\n"[..1] == "3";
    assert AllDigits("3");
    AsciiDigitsAreDecimal("3");
    NumberedLineContinuation("3.\n", 1);
  }
}
