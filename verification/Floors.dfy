/** Floor numbers, their three-character labels, and arithmetic on the shaft.

    A floor is an integer without 0: 1, 2, ... above the ground and -1, -2, ... (B1, B2, ...)
    below it, with B1 directly under 1.  A label is a C string held in `char[4]`; here it is
    the text before the terminating NUL. */
module Floors {

  /** What the label parser returns when no number can be read.  The header redefines INT_MIN. */
  const INVALID_FLOOR: int := 999

  /** Room for label text in a `char[4]`. */
  const LABEL_CHARS: nat := 3

  // ----- C strings and the library's decimal conversions -----

  predicate IsDigit(c: char) {
    '0' <= c <= '9'
  }

  function DigitValue(c: char): nat
    requires IsDigit(c)
  {
    c as int - '0' as int
  }

  function DigitChar(d: nat): (c: char)
    requires d < 10
    ensures IsDigit(c) && DigitValue(c) == d
  {
    ('0' as int + d) as char
  }

  predicate AllDigits(s: string) {
    forall i :: 0 <= i < |s| ==> IsDigit(s[i])
  }

  /** The text `%d` prints for a non-negative number. */
  function Decimal(n: nat): (s: string)
    ensures |s| >= 1 && AllDigits(s)
  {
    if n < 10 then [DigitChar(n)] else Decimal(n / 10) + [DigitChar(n % 10)]
  }

  /** The number a digit string denotes. */
  function Value(s: string): nat
    requires AllDigits(s)
  {
    if s == [] then 0 else 10 * Value(s[..|s| - 1]) + DigitValue(s[|s| - 1])
  }

  /** The text `%d` prints. */
  function SignedDecimal(n: int): string {
    if n < 0 then "-" + Decimal(-n) else Decimal(n)
  }

  /** What `snprintf` keeps of a text when the buffer has room for `room` characters. */
  function Truncated(text: string, room: nat): string {
    if |text| <= room then text else text[..room]
  }

  predicate IsSpace(c: char) {
    c == ' ' || '\t' <= c <= '\r'
  }

  function SkipSpaces(s: string): string {
    if s != [] && IsSpace(s[0]) then SkipSpaces(s[1..]) else s
  }

  function DigitPrefix(s: string): (p: string)
    ensures AllDigits(p) && p <= s
    ensures |p| < |s| ==> !IsDigit(s[|p|])
  {
    if s != [] && IsDigit(s[0]) then [s[0]] + DigitPrefix(s[1..]) else []
  }

  datatype Option<+T> = None | Some(value: T)

  function ScanDigits(s: string): Option<int> {
    var p := DigitPrefix(s);
    if p == [] then None else Some(Value(p))
  }

  /** `sscanf(s, "%d", ...)`: blanks, an optional sign, then the longest run of digits. */
  function ScanInt(s: string): Option<int> {
    var t := SkipSpaces(s);
    if t != [] && t[0] == '-' then
      var r := ScanDigits(t[1..]);
      if r.Some? then Some(-r.value) else None
    else if t != [] && t[0] == '+' then
      ScanDigits(t[1..])
    else
      ScanDigits(t)
  }

  /** `atoi`, which answers 0 where `sscanf` reports no conversion. */
  function Atoi(s: string): int {
    var r := ScanInt(s);
    if r.Some? then r.value else 0
  }

  /** The C string at the start of a buffer. */
  function CString(buffer: seq<char>): string {
    if buffer == [] || buffer[0] == '\0' then [] else [buffer[0]] + CString(buffer[1..])
  }

  // ----- printing and parsing labels -----

  function FloorText(floor: int): string {
    if floor < 0 then "B" + Decimal(-floor) else if floor == 0 then Decimal(1) else Decimal(floor)
  }

  function FloorToLabel(floor: int): string {
    Truncated(FloorText(floor), LABEL_CHARS)
  }

  function LabelToFloor(text: string): int {
    if text != [] && text[0] == 'B' then
      var r := ScanInt(text[1..]);
      if r.Some? then -r.value else INVALID_FLOOR
    else
      var r := ScanInt(text);
      if r.Some? then r.value else INVALID_FLOOR
  }

  lemma {:induction false} CStringOfTerminated(buffer: seq<char>, text: string)
    requires |text| < |buffer| && text == buffer[..|text|] && buffer[|text|] == '\0'
    requires '\0' !in text
    ensures CString(buffer) == text
  {
    if text == [] {
    } else {
      assert buffer[0] == text[0];
      assert buffer[1..][..|text| - 1] == text[1..];
      CStringOfTerminated(buffer[1..], text[1..]);
    }
  }

  /** `snprintf(buffer, capacity, "%s", text)`. */
  method PrintInto(buffer: array<char>, capacity: nat, text: string)
    requires 1 <= capacity <= buffer.Length
    requires '\0' !in text
    modifies buffer
    ensures CString(buffer[..]) == Truncated(text, capacity - 1)
  {
    var i := 0;
    while i < |text| && i < capacity - 1
      invariant 0 <= i <= |text| && i <= capacity - 1
      invariant buffer[..i] == text[..i]
    {
      buffer[i] := text[i];
      i := i + 1;
    }
    buffer[i] := '\0';
    assert text[..i] == Truncated(text, capacity - 1);
    CStringOfTerminated(buffer[..], text[..i]);
  }

  /** Fills the caller's buffer with a floor's label. */
  method FloorToString(buffer: array<char>, floor: int)
    requires buffer.Length == LABEL_CHARS + 1
    modifies buffer
    ensures CString(buffer[..]) == FloorToLabel(floor)
  {
    if floor < 0 {
      PrintInto(buffer, 4, "B" + Decimal(-floor));
    } else if floor == 0 {
      PrintInto(buffer, 4, Decimal(1));
    } else {
      PrintInto(buffer, 4, Decimal(floor));
    }
  }

  // ----- labels and numbers are in bijection on B99..B1, 1..999 -----

  /** The floors that have a label of their own. */
  predicate InRange(floor: int) {
    floor != 0 && -99 <= floor <= 999
  }

  /** The documented label format, said without reference to the printer. */
  predicate CanonicalLabel(s: string) {
    || (1 <= |s| <= 3 && AllDigits(s) && s[0] != '0')
    || (2 <= |s| <= 3 && s[0] == 'B' && AllDigits(s[1..]) && s[1] != '0')
  }

  function Pow10(k: nat): nat {
    if k == 0 then 1 else 10 * Pow10(k - 1)
  }

  /** The leading `k` decimal digits of `n`. */
  function LeadingDigits(n: nat, k: nat): nat {
    if n < 10 || n < Pow10(k) then n else LeadingDigits(n / 10, k)
  }

  /** The floor a label really names after printing `floor` into it. */
  function PrintedFloor(floor: int): int {
    if floor == 0 then 1
    else if floor > 0 then LeadingDigits(floor, 3)
    else -(LeadingDigits(-floor, 2) as int)
  }

  lemma {:induction false} ValueOfDecimal(n: nat)
    ensures Value(Decimal(n)) == n
  {
    if n < 10 {
      assert Decimal(n)[..0] == [];
    } else {
      ValueOfDecimal(n / 10);
      assert Decimal(n)[..|Decimal(n)| - 1] == Decimal(n / 10);
    }
  }

  lemma DecimalAppend(v: nat, d: nat)
    requires v >= 1 && d < 10
    ensures Decimal(10 * v + d) == Decimal(v) + [DigitChar(d)]
  {
    assert (10 * v + d) / 10 == v && (10 * v + d) % 10 == d;
  }

  lemma {:induction false} DecimalOfValue(s: string)
    requires AllDigits(s) && s != [] && s[0] != '0'
    ensures Decimal(Value(s)) == s && 1 <= Value(s) < Pow10(|s|)
  {
    var front, last := s[..|s| - 1], s[|s| - 1];
    assert DigitChar(DigitValue(last)) == last;
    ValueBound(s);
    if front == [] {
      assert Value(front) == 0 && s == [last];
    } else {
      DecimalOfValue(front);
      DecimalAppend(Value(front), DigitValue(last));
      assert s == front + [last];
    }
  }

  lemma {:induction false} DecimalLength(n: nat, k: nat)
    requires k >= 1
    ensures |Decimal(n)| <= k <==> n < Pow10(k)
  {
    Pow10Positive(k - 1);
    if n >= 10 && k >= 2 {
      DecimalLength(n / 10, k - 1);
    }
  }

  lemma {:induction false} Pow10Positive(k: nat)
    ensures Pow10(k) >= 1
  {
    if k > 0 { Pow10Positive(k - 1); }
  }

  lemma {:induction false} TruncatedDecimal(n: nat, k: nat)
    requires k >= 1
    ensures Truncated(Decimal(n), k) == Decimal(LeadingDigits(n, k))
    decreases n
  {
    DecimalLength(n, k);
    Pow10Positive(k - 1);
    if n >= Pow10(k) {
      TruncatedDecimal(n / 10, k);
      DecimalLength(n / 10, k);
      assert Decimal(n)[..k] == Truncated(Decimal(n / 10), k);
    }
  }

  lemma {:induction false} LeadingDigitsRange(n: nat, k: nat)
    requires n >= 1 && k >= 1
    ensures 1 <= LeadingDigits(n, k) < Pow10(k) && LeadingDigits(n, k) <= n
    ensures LeadingDigits(n, k) == n <==> n < Pow10(k)
    decreases n
  {
    Pow10Positive(k - 1);
    if n >= Pow10(k) {
      assert Pow10(k) >= 10;
      LeadingDigitsRange(n / 10, k);
    }
  }

  lemma {:induction false} DigitPrefixOfDigits(s: string)
    requires AllDigits(s)
    ensures DigitPrefix(s) == s
  {
  }

  lemma ScanDecimal(s: string)
    requires AllDigits(s) && s != []
    ensures ScanInt(s) == Some(Value(s))
  {
    assert IsDigit(s[0]);
    DigitPrefixOfDigits(s);
  }

  /** The printed label, without `snprintf`: a plain or B-prefixed decimal of the floor it names. */
  lemma LabelOfPrinted(n: int)
    ensures FloorToLabel(n) == if n < 0 then "B" + Decimal(-PrintedFloor(n)) else Decimal(PrintedFloor(n))
    ensures InRange(PrintedFloor(n)) && (n != 0 ==> (PrintedFloor(n) < 0 <==> n < 0))
    ensures PrintedFloor(n) == n <==> InRange(n)
  {
    SmallPowers();
    if n < 0 {
      TruncatedDecimal(-n, 2);
      LeadingDigitsRange(-n, 2);
      var d := Decimal(-n);
      if |d| > 2 {
        assert ("B" + d)[..3] == "B" + d[..2];
      }
    } else if n == 0 {
    } else {
      TruncatedDecimal(n, 3);
      LeadingDigitsRange(n, 3);
    }
  }

  /** Printing then parsing keeps a floor exactly when it has a label of its own; any other floor
      becomes the signed leading digits that fit (and 0 becomes 1). */
  lemma LabelRoundTrip(n: int)
    ensures LabelToFloor(FloorToLabel(n)) == PrintedFloor(n)
    ensures LabelToFloor(FloorToLabel(n)) == n <==> InRange(n)
  {
    LabelOfPrinted(n);
    var m := PrintedFloor(n);
    if n < 0 {
      NumberReadsBack(-m);
    } else {
      NumberReadsBack(m);
    }
  }

  lemma NumberReadsBack(m: int)
    requires m >= 0
    ensures LabelToFloor(Decimal(m)) == m && LabelToFloor("B" + Decimal(m)) == -m
  {
    var d := Decimal(m);
    ValueOfDecimal(m);
    ScanDecimal(d);
    assert IsDigit(d[0]) && !IsDigit('B');
    assert ("B" + d)[1..] == d;
  }

  lemma {:induction false} DecimalHead(n: nat)
    requires n >= 1
    ensures Decimal(n)[0] != '0'
  {
    if n >= 10 { DecimalHead(n / 10); } else { assert DigitValue(Decimal(n)[0]) == n; }
  }

  /** Every printed label is in the documented format, whatever floor was printed. */
  lemma PrintedLabelIsCanonical(n: int)
    ensures CanonicalLabel(FloorToLabel(n))
  {
    LabelOfPrinted(n);
    var m := PrintedFloor(n);
    SmallPowers();
    if n < 0 {
      DecimalHead(-m);
      DecimalLength(-m, 2);
      assert FloorToLabel(n)[1..] == Decimal(-m);
    } else {
      DecimalHead(m);
      DecimalLength(m, 3);
    }
  }

  /** Parsing is the inverse of printing on documented labels, so the two sides are in bijection. */
  lemma CanonicalLabelRoundTrip(s: string)
    requires CanonicalLabel(s)
    ensures InRange(LabelToFloor(s)) && FloorToLabel(LabelToFloor(s)) == s
  {
    SmallPowers();
    var digits := if s[0] == 'B' then s[1..] else s;
    assert !IsDigit('B');
    assert s[0] != 'B' ==> s == digits;
    assert s[0] == 'B' ==> s == "B" + digits;
    ScanDecimal(digits);
    DecimalOfValue(digits);
    var v := LabelToFloor(s);
    LabelOfPrinted(v);
  }

  /** Two documented labels naming one floor are the same text, so `strcmp` compares floors. */
  lemma CanonicalLabelsCompare(s: string, t: string)
    requires CanonicalLabel(s) && CanonicalLabel(t)
    ensures LabelToFloor(s) == LabelToFloor(t) <==> s == t
  {
    CanonicalLabelRoundTrip(s);
    CanonicalLabelRoundTrip(t);
  }

  /** One-digit labels, spelt out. */
  lemma OneDigitLabels(n: int)
    requires 1 <= n <= 9
    ensures FloorToLabel(n) == [DigitChar(n)] && FloorToLabel(-n) == ['B', DigitChar(n)]
    ensures LabelToFloor([DigitChar(n)]) == n && LabelToFloor(['B', DigitChar(n)]) == -n
    ensures CanonicalLabel([DigitChar(n)]) && CanonicalLabel(['B', DigitChar(n)])
  {
    assert Decimal(n) == [DigitChar(n)];
    assert "B" + [DigitChar(n)] == ['B', DigitChar(n)];
    LabelRoundTrip(n);
    LabelRoundTrip(-n);
    PrintedLabelIsCanonical(n);
    PrintedLabelIsCanonical(-n);
  }

  lemma {:induction false} ValueBound(s: string)
    requires AllDigits(s)
    ensures Value(s) < Pow10(|s|)
  {
    if s != [] { ValueBound(s[..|s| - 1]); }
  }

  lemma {:induction false} SkipSpacesShortens(s: string)
    ensures |SkipSpaces(s)| <= |s|
  {
    if s != [] && IsSpace(s[0]) { SkipSpacesShortens(s[1..]); }
  }

  lemma ScanBound(s: string)
    requires ScanDigits(s).Some? && |s| <= 3
    ensures 0 <= ScanDigits(s).value <= 999
    ensures |s| <= 2 ==> ScanDigits(s).value <= 99
  {
    var p := DigitPrefix(s);
    ValueBound(p);
    SmallPowers();
    if |p| == 1 {
    } else if |p| == 2 {
    } else {
      assert |p| == 3;
    }
  }

  lemma SmallPowers()
    ensures Pow10(1) == 10 && Pow10(2) == 100 && Pow10(3) == 1000
  {
    assert Pow10(0) == 1;
    assert Pow10(1) == 10;
    assert Pow10(2) == 100;
  }

  /** No label that fits its buffer can name a floor outside B99..999, well-formed or not;
      the one floor it can name that has no label of its own is 0. */
  lemma ShortLabelRange(s: string)
    requires |s| <= LABEL_CHARS
    ensures -99 <= LabelToFloor(s) <= 999
    ensures InRange(LabelToFloor(s)) <==> LabelToFloor(s) != 0
  {
    var u := if s != [] && s[0] == 'B' then s[1..] else s;
    SkipSpacesShortens(u);
    var t := SkipSpaces(u);
    if t != [] && ScanDigits(t[1..]).Some? { ScanBound(t[1..]); }
    if ScanDigits(t).Some? { ScanBound(t); }
  }

  /** The part of a label that should be a number. */
  function NumberPart(s: string): string {
    if s != [] && s[0] == 'B' then s[1..] else s
  }

  predicate Unreadable(s: string) {
    ScanInt(NumberPart(s)).None?
  }

  /** Fewer than three characters, or a blank or a sign among them, leave room for two digits. */
  lemma ScanOfThree(s: string)
    requires |s| <= LABEL_CHARS
    ensures ScanInt(s).Some? && (|s| < 3 || !AllDigits(s)) ==> -99 <= ScanInt(s).value <= 99
  {
    SkipSpacesShortens(s);
    var t := SkipSpaces(s);
    SkipSpacesKeeps(s);
    if t != [] && ScanDigits(t[1..]).Some? { ScanBound(t[1..]); }
    if ScanDigits(t).Some? && (|s| < 3 || !AllDigits(s)) { ScanDigitsOfThree(t); }
  }

  lemma SkipSpacesKeeps(s: string)
    ensures |SkipSpaces(s)| == |s| ==> SkipSpaces(s) == s
  {
    if s != [] && IsSpace(s[0]) { SkipSpacesShortens(s[1..]); }
  }

  lemma ScanDigitsOfThree(s: string)
    requires ScanDigits(s).Some? && |s| <= 3 && (|s| < 3 || !AllDigits(s))
    ensures 0 <= ScanDigits(s).value <= 99
  {
    var p := DigitPrefix(s);
    assert |p| < 3;
    ValueBound(p);
    SmallPowers();
    if |p| == 1 {
    } else {
    }
  }

  lemma ValueOfThree(s: string)
    requires AllDigits(s) && |s| == 3
    ensures Value(s) == 999 <==> s == "999"
  {
    var a, b := s[..2], s[..2][..1];
    assert s == [s[0], s[1], s[2]] && a == [s[0], s[1]] && b == [s[0]] && b[..0] == [];
    assert Value(b) == DigitValue(s[0]);
    assert Value(a) == 10 * Value(b) + DigitValue(s[1]);
    assert Value(s) == 10 * Value(a) + DigitValue(s[2]);
    if Value(s) == 999 {
      assert DigitValue(s[0]) == 9 && DigitValue(s[1]) == 9 && DigitValue(s[2]) == 9;
      assert s == "999";
    }
  }

  /** The parser's answer for a label it cannot read is a floor: of labels that fit their buffer, exactly
      the unreadable ones and "999" are taken for floor 999. */
  lemma InvalidFloorExactly(s: string)
    requires |s| <= LABEL_CHARS
    ensures LabelToFloor(s) == INVALID_FLOOR <==> Unreadable(s) || s == "999"
  {
    var u := NumberPart(s);
    ScanOfThree(u);
    if |u| == 3 && AllDigits(u) {
      ScanDecimal(u);
      ValueOfThree(u);
    } else if s == "999" {
      assert IsDigit(s[0]) && IsDigit(s[1]) && IsDigit(s[2]) && u == s;
    }
  }

  // ----- the shaft: B1 lies directly under 1 -----

  /** Height above B1, in storeys: ..., B2 = -1, B1 = 0, 1 = 1, 2 = 2, ... */
  function Position(floor: int): int {
    if floor < 0 then floor + 1 else floor
  }

  function FloorAt(position: int): int {
    if position > 0 then position else position - 1
  }

  /** The new floor of a move, as the shared-memory operations compute it. */
  function Move(floor: int, shift: int): int {
    if (floor + shift >= 0 && floor < 0) || (floor + shift <= 0 && floor > 0) then
      if floor < 0 then floor + shift + 1
      else if floor > 0 then floor + shift - 1
      else floor
    else floor + shift
  }

  /** Moves are translations of the shaft; they compose, invert and never reach floor 0. */
  lemma MoveIsTranslation(floor: int, shift: int)
    requires floor != 0
    ensures Move(floor, shift) == FloorAt(Position(floor) + shift)
    ensures Move(floor, shift) != 0 && Position(Move(floor, shift)) == Position(floor) + shift
    ensures Move(Move(floor, shift), -shift) == floor
    ensures forall more :: Move(Move(floor, shift), more) == Move(floor, shift + more)
  {
  }

  /** A move applied to a label in place. */
  function MoveLabel(text: string, shift: int): string {
    FloorToLabel(Move(LabelToFloor(text), shift))
  }

  /** Labels may be moved in one go or step by step, as long as the stop between has a label. */
  lemma MoveLabelComposes(text: string, shift: int, more: int)
    requires CanonicalLabel(text) && InRange(Move(LabelToFloor(text), shift))
    ensures MoveLabel(MoveLabel(text, shift), more) == MoveLabel(text, shift + more)
  {
    CanonicalLabelRoundTrip(text);
    var n := LabelToFloor(text);
    MoveIsTranslation(n, shift);
    LabelRoundTrip(Move(n, shift));
  }

  /** The tests' own numbering: B1 is 0. */
  function Fti(text: string): int {
    if text != [] && text[0] == 'B' then 1 - Atoi(text[1..]) else Atoi(text)
  }

  function Itf(f: int): string {
    if f <= 0 then "B" + Decimal(1 - f) else Decimal(f)
  }

  /** The tests' numbering is the shaft position, and its labels are the untruncated ones. */
  lemma NumberingsAgree(n: int, shift: int)
    requires InRange(n)
    ensures Fti(FloorToLabel(n)) == Position(n)
    ensures Fti(Itf(Position(n) + shift)) == Position(n) + shift
    ensures MoveLabel(FloorToLabel(n), shift) == Truncated(Itf(Fti(FloorToLabel(n)) + shift), LABEL_CHARS)
  {
    FtiOfLabel(n);
    FtiOfItf(Position(n) + shift);
    LabelRoundTrip(n);
    MovedTextIsItf(n, shift);
  }

  lemma MovedTextIsItf(n: int, shift: int)
    requires n != 0
    ensures FloorToLabel(Move(n, shift)) == Truncated(Itf(Position(n) + shift), LABEL_CHARS)
  {
    MoveIsTranslation(n, shift);
    FloorTextIsItf(Move(n, shift));
  }

  lemma FloorTextIsItf(n: int)
    requires n != 0
    ensures FloorText(n) == Itf(Position(n))
  {
  }

  lemma FtiOfLabel(n: int)
    requires InRange(n)
    ensures Fti(FloorToLabel(n)) == Position(n)
  {
    LabelOfPrinted(n);
    FloorTextIsItf(n);
    FtiOfItf(Position(n));
  }

  lemma FtiOfItf(f: int)
    ensures Fti(Itf(f)) == f
  {
    var d := Decimal(if f <= 0 then 1 - f else f);
    ValueOfDecimal(if f <= 0 then 1 - f else f);
    ScanDecimal(d);
    assert IsDigit(d[0]) && !IsDigit('B');
    assert ("B" + d)[1..] == d;
  }
}
