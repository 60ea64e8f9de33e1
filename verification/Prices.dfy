/** etl/normalization.py: `normalize_prix`, which reads an amount printed the
    French way. */
module Prices {
  import opened Wrappers
  import opened Numerals
  import opened Text

  /** A finite `decimal.Decimal`: coefficient / 10^scale, with a sign. */
  datatype Decimal = Decimal(negative: bool, coefficient: nat, scale: nat) {
    predicate LessThanZero() { negative && coefficient > 0 }
    predicate Exceeds(n: nat) { !negative && coefficient > n * Pow10(scale) }
  }

  const MAX_PRICE := 100000

  // ------------------------------------------------------------ the function

  /** The class `[€ EUR]`, ignoring case. */
  predicate IsEuroMark(c: char) {
    c in ['\U{20AC}', ' ', 'E', 'U', 'R', 'e', 'u', 'r']
  }

  /** Deleting every character of a class. */
  function Without(s: string, drop: char -> bool): string {
    if s == "" then "" else (if drop(s[0]) then "" else [s[0]]) + Without(s[1..], drop)
  }

  /** Commas become dots. */
  function CommaToDot(s: string): (r: string)
    ensures |r| == |s| && forall i :: 0 <= i < |s| ==> r[i] == if s[i] == ',' then '.' else s[i]
  {
    seq(|s|, i requires 0 <= i < |s| => if s[i] == ',' then '.' else s[i])
  }

  /** A match of `\d+\.\d{3},` whose dot stands at i. */
  predicate DottedThousandAt(s: string, i: nat) {
    && 1 <= i && i + 4 < |s| && s[i] == '.'
    && IsDigit(s[i - 1]) && AllDigits(s[i + 1..i + 4]) && s[i + 4] == ','
  }

  predicate HasDottedThousand(s: string) {
    exists i: nat :: i < |s| && DottedThousandAt(s, i)
  }

  /** The first '.' of s, or |s|. */
  function DotPosition(s: string): (i: nat)
    ensures i <= |s| && (forall k :: 0 <= k < i ==> s[k] != '.') && (i < |s| ==> s[i] == '.')
  {
    if s == "" || s[0] == '.' then 0 else 1 + DotPosition(s[1..])
  }

  /** Digits with at most one dot among them, and at least one digit. */
  function ParseUnsigned(negative: bool, body: string): Option<Decimal> {
    var i := DotPosition(body);
    var whole, fraction := body[..i], if i < |body| then body[i + 1..] else "";
    if AllDigits(whole) && AllDigits(fraction) && |whole + fraction| > 0
    then Some(Decimal(negative, NatOf(whole + fraction), |fraction|))
    else None
  }

  /** `Decimal(s)` on strings without exponent letters; `None` stands for
      InvalidOperation. Python ignores underscores. */
  function ParseDecimal(s: string): Option<Decimal> {
    var bare := Without(s, IsUnderscore);
    if bare != "" && (bare[0] == '-' || bare[0] == '+') then ParseUnsigned(bare[0] == '-', bare[1..])
    else ParseUnsigned(false, bare)
  }

  /** `normalize_prix` of a string. Its initial `strip` only drops characters
      that the second substitution drops too. */
  function NormalizePrix(prix: string): Option<Decimal> {
    var unmarked := Without(prix, IsEuroMark);
    var clean := Without(unmarked, IsSpace);
    InRange(ParseDecimal(CommaToDot(WithoutGrouping(clean))))
  }

  predicate IsDot(c: char) { c == '.' }

  predicate IsUnderscore(c: char) { c == '_' }

  /** Dots are dropped when one of them groups thousands before a comma. */
  function WithoutGrouping(clean: string): string {
    if HasDottedThousand(clean) then Without(clean, IsDot) else clean
  }

  /** Amounts below zero or above the maximum are refused. */
  function InRange(parsed: Option<Decimal>): Option<Decimal> {
    match parsed
    case None => None
    case Some(d) => if d.LessThanZero() || d.Exceeds(MAX_PRICE) then None else Some(d)
  }

  // ------------------------------------------------------------- printing

  function Pad3(n: nat): (s: string)
    requires n < 1000
    ensures |s| == 3 && AllDigits(s)
  {
    [DigitChar(n / 100), DigitChar(n / 10 % 10), DigitChar(n % 10)]
  }

  /** n in groups of three digits. */
  function Grouped(n: nat, separator: string): string {
    if n < 1000 then Digits(n) else Grouped(n / 1000, separator) + separator + Pad3(n % 1000)
  }

  datatype Grouping = Ungrouped | Dots | Spaces(space: char) {
    predicate Valid() { Spaces? ==> IsSpace(space) }

    function Separator(): string {
      match this
      case Ungrouped => ""
      case Dots => "."
      case Spaces(c) => [c]
    }
  }

  /** A currency mark such as "€ " or " EUR". */
  predicate IsMark(s: string) {
    forall i :: 0 <= i < |s| ==> s[i] == '\U{20AC}' || s[i] in "EUReur" || IsSpace(s[i])
  }

  function French(n: nat, fraction: string, grouping: Grouping, before: string, after: string): string {
    before + ((Grouped(n, grouping.Separator()) + "," + fraction) + after)
  }

  // --------------------------------------------------------------- proofs

  lemma {:induction false} WithoutConcat(a: string, b: string, drop: char -> bool)
    ensures Without(a + b, drop) == Without(a, drop) + Without(b, drop)
  {
    if a == "" {
      assert a + b == b;
    } else {
      assert (a + b)[1..] == a[1..] + b;
      WithoutConcat(a[1..], b, drop);
    }
  }

  lemma {:induction false} WithoutNone(s: string, drop: char -> bool)
    requires forall i :: 0 <= i < |s| ==> !drop(s[i])
    ensures Without(s, drop) == s
  {
    if s != "" {
      WithoutNone(s[1..], drop);
    }
  }

  /** Dropping marks and spaces in two passes empties any mark. */
  lemma {:induction false} MarkVanishes(s: string)
    requires IsMark(s)
    ensures Without(Without(s, IsEuroMark), IsSpace) == ""
  {
    if s != "" {
      MarkVanishes(s[1..]);
      WithoutConcat(if IsEuroMark(s[0]) then "" else [s[0]], Without(s[1..], IsEuroMark), IsSpace);
    }
  }

  function Cleaned(s: string): string {
    Without(Without(s, IsEuroMark), IsSpace)
  }

  lemma CleanedConcat(a: string, b: string)
    ensures Cleaned(a + b) == Cleaned(a) + Cleaned(b)
  {
    WithoutConcat(a, b, IsEuroMark);
    WithoutConcat(Without(a, IsEuroMark), Without(b, IsEuroMark), IsSpace);
  }

  lemma CleanedKeeps(s: string)
    requires forall i :: 0 <= i < |s| ==> IsDigit(s[i]) || s[i] == ',' || s[i] == '.'
    ensures Cleaned(s) == s
  {
    WithoutNone(s, IsEuroMark);
    WithoutNone(s, IsSpace);
  }

  lemma DigitsStep(n: nat)
    requires n >= 10
    ensures Digits(n) == Digits(n / 10) + [DigitChar(n % 10)]
  {
  }

  lemma LastThree(n: nat)
    ensures n / 10 / 10 / 10 == n / 1000
    ensures n % 10 == n % 1000 % 10 && n / 10 % 10 == n % 1000 / 10 % 10 && n / 10 / 10 % 10 == n % 1000 / 100
  {
  }

  lemma DigitsSplit(n: nat)
    requires n >= 1000
    ensures Digits(n) == Digits(n / 1000) + Pad3(n % 1000)
  {
    LastThree(n);
    DigitsStep(n);
    DigitsStep(n / 10);
    DigitsStep(n / 10 / 10);
  }

  predicate DigitsOrDots(s: string) {
    forall i :: 0 <= i < |s| ==> IsDigit(s[i]) || s[i] == '.'
  }

  lemma {:induction false} GroupedShape(n: nat)
    ensures var s := Grouped(n, "."); s != "" && IsDigit(s[0]) && IsDigit(s[|s| - 1]) && DigitsOrDots(s)
  {
    if n >= 1000 {
      GroupedShape(n / 1000);
    }
  }

  lemma {:induction false} GroupedWithoutDots(n: nat)
    ensures Without(Grouped(n, "."), IsDot) == Digits(n)
  {
    if n < 1000 {
      WithoutNone(Digits(n), IsDot);
    } else {
      GroupedWithoutDots(n / 1000);
      WithoutConcat(Grouped(n / 1000, ".") + ".", Pad3(n % 1000), IsDot);
      WithoutConcat(Grouped(n / 1000, "."), ".", IsDot);
      WithoutNone(Pad3(n % 1000), IsDot);
      DigitsSplit(n);
    }
  }

  lemma {:induction false} GroupedUngrouped(n: nat)
    ensures Grouped(n, "") == Digits(n)
  {
    if n >= 1000 {
      GroupedUngrouped(n / 1000);
      DigitsSplit(n);
    }
  }

  lemma CleanedGroup(front: string, space: char, group: string)
    requires IsSpace(space) && AllDigits(group)
    ensures Cleaned(front + [space] + group) == Cleaned(front) + group
  {
    CleanedConcat(front + [space], group);
    CleanedConcat(front, [space]);
    MarkVanishes([space]);
    CleanedKeeps(group);
  }

  lemma {:induction false} CleanedSpaces(n: nat, space: char)
    requires IsSpace(space)
    ensures Cleaned(Grouped(n, [space])) == Digits(n)
  {
    if n < 1000 {
      CleanedKeeps(Digits(n));
    } else {
      CleanedSpaces(n / 1000, space);
      CleanedGroup(Grouped(n / 1000, [space]), space, Pad3(n % 1000));
      DigitsSplit(n);
    }
  }

  /** The grouped whole part, cleaned. */
  lemma CleanedWhole(n: nat, grouping: Grouping)
    requires grouping.Valid()
    ensures Cleaned(Grouped(n, grouping.Separator())) == if grouping.Dots? then Grouped(n, ".") else Digits(n)
  {
    match grouping
    case Ungrouped =>
      GroupedUngrouped(n);
      CleanedKeeps(Digits(n));
    case Dots =>
      GroupedShape(n);
      CleanedKeeps(Grouped(n, "."));
    case Spaces(c) => CleanedSpaces(n, c);
  }

  /** Marks around an amount vanish; its decimals stay. */
  lemma CleanedAmount(before: string, whole: string, fraction: string, after: string)
    requires AllDigits(fraction) && IsMark(before) && IsMark(after)
    ensures Cleaned(before + ((whole + "," + fraction) + after)) == Cleaned(whole) + "," + fraction
  {
    var amount := whole + "," + fraction;
    CleanedConcat(before, amount + after);
    CleanedConcat(amount, after);
    MarkVanishes(before);
    MarkVanishes(after);
    CleanedConcat(whole + ",", fraction);
    CleanedConcat(whole, ",");
    CleanedKeeps(",");
    CleanedKeeps(fraction);
  }

  lemma WithoutDotsAmount(whole: string, fraction: string)
    requires AllDigits(fraction)
    ensures Without(whole + "," + fraction, IsDot) == Without(whole, IsDot) + "," + fraction
  {
    WithoutConcat(whole + ",", fraction, IsDot);
    WithoutConcat(whole, ",", IsDot);
    WithoutNone(",", IsDot);
    WithoutNone(fraction, IsDot);
  }

  lemma FindsDottedThousand(front: string, group: string, fraction: string)
    requires front != "" && IsDigit(front[|front| - 1]) && |group| == 3 && AllDigits(group)
    ensures HasDottedThousand(front + "." + group + "," + fraction)
  {
    var s := front + "." + group + "," + fraction;
    assert s[|front| + 1..|front| + 4] == group;
    assert DottedThousandAt(s, |front|);
  }

  /** Ungrouping finds the dots when there are any, and is harmless when not. */
  lemma DotsRemoved(n: nat, fraction: string, dots: bool)
    requires AllDigits(fraction)
    ensures WithoutGrouping((if dots then Grouped(n, ".") else Digits(n)) + "," + fraction)
         == Digits(n) + "," + fraction
  {
    WithoutDotsAmount(Grouped(n, "."), fraction);
    WithoutDotsAmount(Digits(n), fraction);
    GroupedWithoutDots(n);
    WithoutNone(Digits(n), IsDot);
    if dots && n >= 1000 {
      GroupedShape(n / 1000);
      FindsDottedThousand(Grouped(n / 1000, "."), Pad3(n % 1000), fraction);
    }
  }

  lemma CommaBecomesDot(whole: string, fraction: string)
    requires AllDigits(whole) && AllDigits(fraction)
    ensures CommaToDot(whole + "," + fraction) == whole + "." + fraction
  {
  }

  lemma {:induction false} DotPositionAt(whole: string, rest: string)
    requires AllDigits(whole)
    ensures DotPosition(whole + "." + rest) == |whole|
  {
    var s := whole + "." + rest;
    if whole != "" {
      assert s[0] == whole[0];
      assert s[1..] == whole[1..] + "." + rest;
      DotPositionAt(whole[1..], rest);
    }
  }

  lemma ParseStartingWithDigit(s: string)
    requires s != "" && IsDigit(s[0]) && DigitsOrDots(s)
    ensures ParseDecimal(s) == ParseUnsigned(false, s)
  {
    WithoutNone(s, IsUnderscore);
  }

  lemma ParsePlain(whole: string, fraction: string)
    requires AllDigits(whole) && AllDigits(fraction) && whole != ""
    ensures ParseDecimal(whole + "." + fraction) == Some(Decimal(false, NatOf(whole + fraction), |fraction|))
  {
    var s := whole + "." + fraction;
    ParseStartingWithDigit(s);
    DotPositionAt(whole, fraction);
    assert s[..|whole|] == whole && s[|whole| + 1..] == fraction;
  }

  lemma FrenchRead(n: nat, fraction: string, grouping: Grouping, before: string, after: string)
    requires AllDigits(fraction) && grouping.Valid() && IsMark(before) && IsMark(after)
    ensures NormalizePrix(French(n, fraction, grouping, before, after))
         == InRange(ParseDecimal(Digits(n) + "." + fraction))
  {
    CleanedAmount(before, Grouped(n, grouping.Separator()), fraction, after);
    CleanedWhole(n, grouping);
    DotsRemoved(n, fraction, grouping.Dots?);
    CommaBecomesDot(Digits(n), fraction);
  }

  /** The round trip: a French amount of at most 100000 reads back as exactly
      itself, and a larger one is refused. */
  lemma FrenchRoundTrip(n: nat, fraction: string, grouping: Grouping, before: string, after: string)
    requires AllDigits(fraction) && grouping.Valid() && IsMark(before) && IsMark(after)
    ensures var coefficient := n * Pow10(|fraction|) + NatOf(fraction);
      NormalizePrix(French(n, fraction, grouping, before, after))
        == if coefficient <= MAX_PRICE * Pow10(|fraction|)
           then Some(Decimal(false, coefficient, |fraction|)) else None
  {
    FrenchRead(n, fraction, grouping, before, after);
    ParsePlain(Digits(n), fraction);
    NatOfConcat(Digits(n), fraction);
  }

  // ------------------------------------------------------- dots, no comma

  lemma NatOfThree(a: char, b: char, c: char)
    requires IsDigit(a) && IsDigit(b) && IsDigit(c)
    ensures NatOf([a, b, c]) == 100 * DigitValue(a) + 10 * DigitValue(b) + DigitValue(c)
  {
    assert [a, b, c][..2] == [a, b] && [a, b][..1] == [a] && [a][..0] == "";
    assert NatOf([a]) == DigitValue(a);
    assert NatOf([a, b]) == 10 * NatOf([a]) + DigitValue(b);
  }

  lemma ThreeDigits(m: nat)
    ensures 100 * (m / 100) + 10 * (m / 10 % 10) + m % 10 == m
  {
    var tens := m / 10;
    assert tens / 10 == m / 100 && tens == 10 * (tens / 10) + tens % 10 && m == 10 * tens + m % 10;
  }

  lemma NatOfPad3(m: nat)
    requires m < 1000
    ensures NatOf(Pad3(m)) == m
  {
    NatOfThree(DigitChar(m / 100), DigitChar(m / 10 % 10), DigitChar(m % 10));
    ThreeDigits(m);
  }

  lemma Pow10Of3()
    ensures Pow10(3) == 1000
  {
    assert Pow10(3) == 10 * Pow10(2) && Pow10(2) == 10 * Pow10(1) && Pow10(1) == 10;
  }

  lemma NatOfGroup(n: nat)
    ensures NatOf(Digits(n / 1000) + Pad3(n % 1000)) == n
  {
    NatOfPad3(n % 1000);
    Pow10Of3();
    NatOfConcat(Digits(n / 1000), Pad3(n % 1000));
  }

  lemma ParseWhole(s: string)
    requires AllDigits(s) && s != ""
    ensures ParseDecimal(s) == Some(Decimal(false, NatOf(s), 0))
  {
    ParseStartingWithDigit(s);
    assert DotPosition(s) == |s| && s[..|s|] == s && s + "" == s;
  }

  lemma ParseTwoDots(a: string, b: string, c: string)
    requires a != "" && IsDigit(a[0]) && DigitsOrDots(a) && AllDigits(b) && AllDigits(c)
    ensures ParseDecimal(a + "." + b + "." + c) == None
  {
    var s := a + "." + b + "." + c;
    ParseStartingWithDigit(s);
    var i := DotPosition(s);
    assert s[|a|] == '.';
    var fraction := s[i + 1..];
    assert fraction[|a| + 1 + |b| - i - 1] == '.';
  }

  lemma NoCommaNoGrouping(s: string)
    requires DigitsOrDots(s)
    ensures WithoutGrouping(s) == s && CommaToDot(s) == s && Cleaned(s) == s
  {
    CleanedKeeps(s);
  }

  lemma DottedOnce(n: nat)
    requires 1000 <= n < 1000000
    ensures ParseDecimal(Grouped(n, ".")) == Some(Decimal(false, n, 3))
  {
    ParsePlain(Digits(n / 1000), Pad3(n % 1000));
    NatOfGroup(n);
  }

  lemma DottedMore(n: nat)
    requires n >= 1000000
    ensures ParseDecimal(Grouped(n, ".")) == None
  {
    GroupedShape(n / 1000 / 1000);
    ParseTwoDots(Grouped(n / 1000 / 1000, "."), Pad3(n / 1000 % 1000), Pad3(n % 1000));
  }

  lemma DottedRead(n: nat)
    ensures NormalizePrix(Grouped(n, ".")) == InRange(ParseDecimal(Grouped(n, ".")))
  {
    GroupedShape(n);
    NoCommaNoGrouping(Grouped(n, "."));
  }

  /** Without decimals a dot-grouped amount is not recognised as French: it is
      read as a decimal number when it has one dot, and refused when it has more.
      So it reads back as itself exactly when it is below 1000. */
  lemma DottedInteger(n: nat)
    ensures NormalizePrix(Grouped(n, "."))
      == if n < 1000 then Some(Decimal(false, n, 0))
         else if n < 1000000 then Some(Decimal(false, n, 3))
         else None
  {
    DottedRead(n);
    if n < 1000 {
      ParseWhole(Digits(n));
    } else if n < 1000000 {
      DottedOnce(n);
      Pow10Of3();
    } else {
      DottedMore(n);
    }
  }

  // -------------------------------------------------------- other inputs

  /** A dot groups thousands when a digit stands before it and three digits and a
      comma follow. */
  lemma DottedThousandIff(s: string)
    ensures HasDottedThousand(s) <==>
      exists front, d, a, b, c, back ::
        s == front + [d, '.', a, b, c, ','] + back && IsDigit(d) && IsDigit(a) && IsDigit(b) && IsDigit(c)
  {
    if HasDottedThousand(s) {
      var i: nat :| i < |s| && DottedThousandAt(s, i);
      var group := s[i + 1..i + 4];
      assert group[0] == s[i + 1] && group[1] == s[i + 2] && group[2] == s[i + 3];
      assert s[i - 1..i + 5] == [s[i - 1], '.', s[i + 1], s[i + 2], s[i + 3], ','];
      assert s == s[..i - 1] + s[i - 1..i + 5] + s[i + 5..];
    }
    forall front, d, a, b, c, back |
        s == front + [d, '.', a, b, c, ','] + back && IsDigit(d) && IsDigit(a) && IsDigit(b) && IsDigit(c)
      ensures HasDottedThousand(s)
    {
      var i := |front| + 1;
      assert s[i - 1] == d && s[i] == '.' && s[i + 4] == ',';
      assert s[i + 1..i + 4] == [a, b, c];
      assert DottedThousandAt(s, i);
    }
  }

  /** A plus sign is dropped, and an amount below zero is refused. */
  lemma SignedWhole(digits: string)
    requires AllDigits(digits) && digits != ""
    ensures NormalizePrix("+" + digits) == InRange(Some(Decimal(false, NatOf(digits), 0)))
    ensures NatOf(digits) > 0 ==> NormalizePrix("-" + digits) == None
    ensures NatOf(digits) == 0 ==> NormalizePrix("-" + digits) == Some(Decimal(true, 0, 0))
  {
    SignedRead("+", digits);
    SignedRead("-", digits);
  }

  lemma SignedRead(sign: string, digits: string)
    requires sign == "+" || sign == "-"
    requires AllDigits(digits) && digits != ""
    ensures NormalizePrix(sign + digits) == InRange(Some(Decimal(sign == "-", NatOf(digits), 0)))
  {
    SignedCleaned(sign + digits);
    SignedParsed(sign, digits);
  }

  lemma SignedCleaned(s: string)
    requires forall i :: 0 <= i < |s| ==> IsDigit(s[i]) || s[i] == '+' || s[i] == '-'
    ensures NormalizePrix(s) == InRange(ParseDecimal(s))
  {
    WithoutNone(s, IsEuroMark);
    WithoutNone(s, IsSpace);
    assert !HasDottedThousand(s);
    assert CommaToDot(s) == s;
  }

  lemma SignedParsed(sign: string, digits: string)
    requires sign == "+" || sign == "-"
    requires AllDigits(digits) && digits != ""
    ensures ParseDecimal(sign + digits) == Some(Decimal(sign == "-", NatOf(digits), 0))
  {
    var s := sign + digits;
    WithoutNone(s, IsUnderscore);
    assert s[1..] == digits && s[0] == sign[0];
    assert DotPosition(digits) == |digits| && digits[..|digits|] == digits && digits + "" == digits;
  }

  /** The characters dropped besides white space. */
  lemma EuroMarksAre(c: char)
    ensures IsEuroMark(c) <==> c as int == 0x20AC || c == ' ' || c in "EUR" || c in "eur"
  {
  }

  /** What holds no digit is no amount. */
  lemma NoDigitsNoAmount(before: string, after: string)
    requires IsMark(before) && IsMark(after)
    ensures NormalizePrix(before) == None && NormalizePrix(before + ("," + after)) == None
  {
    MarkVanishes(before);
    MarkVanishes(after);
    CleanedConcat(before, "," + after);
    CleanedConcat(",", after);
    CleanedKeeps(",");
    assert "" + ("," + "") == ",";
    assert !HasDottedThousand("") && !HasDottedThousand(",");
    assert CommaToDot("") == "" && CommaToDot(",") == ".";
    WithoutNone(".", IsUnderscore);
    assert DotPosition(".") == 0 && "."[1..] == "" && DotPosition("") == 0;
  }
}
