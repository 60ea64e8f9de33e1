/** `normalize_ean`, in etl/normalization.py and in PL/pgSQL in
    alembic/versions/u1b28o4t6p8r_add_etl_staging_normalization.py, against the
    check-digit rule of section 7.9 of the GS1 General Specifications. */
module Ean {
  import opened Wrappers
  import opened Numerals

  /** Everything but the digits is dropped. */
  function KeepDigits(s: string): (r: string)
    ensures AllDigits(r)
  {
    if s == "" then "" else (if IsDigit(s[0]) then [s[0]] else "") + KeepDigits(s[1..])
  }

  function Weight(i: nat): nat {
    if i % 2 == 0 then 1 else 3
  }

  /** The weighted sum of the first n digits, weights 1, 3, 1, 3, ... */
  function WeightedSum(s: string, n: nat): nat
    requires n <= |s| && AllDigits(s)
  {
    if n == 0 then 0 else WeightedSum(s, n - 1) + DigitValue(s[n - 1]) * Weight(n - 1)
  }

  /** `calculate_ean_checksum` */
  function CalculateEanChecksum(ean: string): int
    requires AllDigits(ean)
  {
    if |ean| < 12 then -1 else (10 - WeightedSum(ean, 12) % 10) % 10
  }

  /** The 13 digits of a cleaned code, or None. */
  function ToThirteen(digits: string): (r: Option<string>)
    requires AllDigits(digits)
    ensures r.Some? ==> |r.value| == 13 && AllDigits(r.value)
  {
    var clean := if |digits| == 14 && digits[0] == '0' then digits[1..] else digits;
    if |clean| != 8 && |clean| != 13 then None
    else Some(if |clean| == 8 then "00000" + clean else clean)
  }

  /** `normalize_ean`: the checksum is compared, but a mismatch is let through. */
  function NormalizeEan(ean: string): (r: Option<string>)
    ensures r.Some? ==> |r.value| == 13 && AllDigits(r.value)
  {
    if ean == "" then None else ToThirteen(KeepDigits(ean))
  }

  predicate Blank(s: string) {
    forall i :: 0 <= i < |s| ==> s[i] == ' '
  }

  /** `staging.normalize_ean`; `warned` tells whether it raises its warning. */
  method SqlNormalizeEan(ean: string) returns (r: Option<string>, warned: bool)
    ensures r == NormalizeEan(ean)
    ensures r.Some? ==> (warned <==> CalculateEanChecksum(r.value) != DigitValue(r.value[12]))
  {
    warned := false;
    if Blank(ean) {
      BlankHasNoDigits(ean);
      return None, warned;
    }
    var vEan := KeepDigits(ean);
    if |vEan| == 14 && vEan[0] == '0' {
      vEan := vEan[1..];
    }
    if |vEan| != 8 && |vEan| != 13 {
      return None, warned;
    }
    if |vEan| == 8 {
      vEan := "00000" + vEan;
    }
    var vSum := 0;
    for i := 1 to 13
      invariant vSum == WeightedSum(vEan, i - 1)
    {
      vSum := vSum + DigitValue(vEan[i - 1]) * (if i % 2 == 0 then 3 else 1);
    }
    var vChecksum := (10 - vSum % 10) % 10;
    if vChecksum != DigitValue(vEan[12]) {
      warned := true;
    }
    r := Some(vEan);
  }

  lemma {:induction false} BlankHasNoDigits(s: string)
    requires Blank(s)
    ensures KeepDigits(s) == ""
  {
    if s != "" {
      assert s[0] == ' ';
      BlankHasNoDigits(s[1..]);
    }
  }

  lemma {:induction false} KeepDigitsOfDigits(s: string)
    requires AllDigits(s)
    ensures KeepDigits(s) == s
  {
    if s != "" {
      KeepDigitsOfDigits(s[1..]);
    }
  }

  /** The digits of a text are its digits, in order. */
  lemma {:induction false} DigitsInOrder(a: string, b: string, c: char)
    ensures KeepDigits(a + b) == KeepDigits(a) + KeepDigits(b)
    ensures KeepDigits([c]) == if '0' <= c <= '9' then [c] else ""
  {
    assert [c][1..] == "" && KeepDigits("") == "";
    if a == "" {
      assert a + b == b;
    } else {
      assert (a + b)[1..] == a[1..] + b;
      DigitsInOrder(a[1..], b, c);
    }
  }

  /** A code is accepted exactly if it has 8 or 13 digits, or 14 beginning with a
      zero; its value is never changed, only its leading zeros. */
  lemma AcceptedIff(ean: string)
    ensures var d := KeepDigits(ean);
      && (NormalizeEan(ean).Some? <==> |d| == 8 || |d| == 13 || (|d| == 14 && d[0] == '0'))
      && (NormalizeEan(ean).Some? ==> NatOf(NormalizeEan(ean).value) == NatOf(d) && |NormalizeEan(ean).value| == 13)
  {
    var d := KeepDigits(ean);
    if |d| == 8 {
      NatOfConcat("00000", d);
      FiveZeros();
    } else if |d| == 14 && d[0] == '0' {
      NatOfConcat([d[0]], d[1..]);
      assert d == [d[0]] + d[1..];
      assert [d[0]][..0] == "" && NatOf([d[0]]) == 0;
    }
  }

  lemma FiveZeros()
    ensures NatOf("00000") == 0
  {
    assert "00000"[..4] == "0000" && "0000"[..3] == "000" && "000"[..2] == "00" && "00"[..1] == "0" && "0"[..0] == "";
  }

  /** Fewer than twelve digits have no check digit. */
  lemma NoShortChecksum(ean: string)
    requires AllDigits(ean)
    ensures CalculateEanChecksum(ean) == -1 <==> |ean| < 12
    ensures |ean| >= 12 ==> 0 <= CalculateEanChecksum(ean) < 10
  {
  }

  lemma NormalizeEanIdempotent(ean: string)
    ensures NormalizeEan(ean).Some? ==> NormalizeEan(NormalizeEan(ean).value) == NormalizeEan(ean)
  {
    if NormalizeEan(ean).Some? {
      KeepDigitsOfDigits(NormalizeEan(ean).value);
    }
  }

  // ----------------------------------------------------------- the GS1 rule

  function Values(s: string): (d: seq<int>)
    requires AllDigits(s)
    ensures |d| == |s| && forall i :: 0 <= i < |s| ==> d[i] == DigitValue(s[i])
  {
    seq(|s|, i requires 0 <= i < |s| => DigitValue(s[i]))
  }

  /** The sum of the digits weighted w, 4 - w, w, ... from the right. */
  function SumFromRight(d: seq<int>, w: int): int {
    if d == [] then 0 else d[|d| - 1] * w + SumFromRight(d[..|d| - 1], 4 - w)
  }

  /** A GTIN of any length: check digit weighted 1, its neighbour 3, and so on,
      to a multiple of ten. */
  predicate ValidDigits(d: seq<int>) {
    SumFromRight(d, 1) % 10 == 0
  }

  predicate ValidGtin(s: string)
    requires AllDigits(s)
  {
    ValidDigits(Values(s))
  }

  /** Leading zeros do not matter to the rule. */
  lemma {:induction false} LeadingZero(d: seq<int>, w: int)
    ensures SumFromRight([0] + d, w) == SumFromRight(d, w)
  {
    if d == [] {
      assert ([0] + d)[..0] == [];
    } else {
      var n := |d| - 1;
      LeadingZero(d[..n], 4 - w);
      assert ([0] + d)[..n + 1] == [0] + d[..n];
    }
  }

  lemma {:induction false} LeadingZeros(zeros: nat, d: seq<int>)
    ensures SumFromRight(seq(zeros, _ => 0) + d, 1) == SumFromRight(d, 1)
  {
    if zeros == 0 {
      assert seq(0, _ => 0) + d == d;
    } else {
      LeadingZeros(zeros - 1, d);
      LeadingZero(seq(zeros - 1, _ => 0) + d, 1);
      assert seq(zeros, _ => 0) + d == [0] + (seq(zeros - 1, _ => 0) + d);
    }
  }

  lemma {:induction false} SumsAgree(s: string, n: nat)
    requires AllDigits(s) && n <= |s|
    ensures SumFromRight(Values(s)[..n], if n % 2 == 0 then 3 else 1) == WeightedSum(s, n)
  {
    if n > 0 {
      SumsAgree(s, n - 1);
      assert Values(s)[..n][..n - 1] == Values(s)[..n - 1];
    }
  }

  lemma CheckDigit(sum: nat, d: nat)
    requires d < 10
    ensures (10 - sum % 10) % 10 == d <==> (sum + d) % 10 == 0
  {
    var m := sum % 10;
    assert (sum + d) % 10 == (m + d) % 10;
  }

  /** The comparison both implementations make is the GS1 rule on 13 digits. */
  lemma ChecksumIsGtinRule(ean: string)
    requires |ean| == 13 && AllDigits(ean)
    ensures CalculateEanChecksum(ean) == DigitValue(ean[12]) <==> ValidGtin(ean)
  {
    SumsAgree(ean, 12);
    CheckDigit(WeightedSum(ean, 12), DigitValue(ean[12]));
  }

  /** Padding an EAN-8 and stripping a 14-digit code keep the verdict: the code
      returned passes the checksum exactly if the digits given were a valid GTIN. */
  lemma NormalizeKeepsValidity(ean: string)
    ensures NormalizeEan(ean).Some? ==>
      (CalculateEanChecksum(NormalizeEan(ean).value) == DigitValue(NormalizeEan(ean).value[12])
       <==> ValidGtin(KeepDigits(ean)))
  {
    if NormalizeEan(ean).Some? {
      var r, d := NormalizeEan(ean).value, KeepDigits(ean);
      ChecksumIsGtinRule(r);
      if |d| == 14 {
        LeadingZero(Values(r), 1);
        assert Values(d) == [0] + Values(r);
      } else if |d| == 8 {
        LeadingZeros(5, Values(d));
        assert Values(r) == seq(5, _ => 0) + Values(d);
      }
    }
  }

  // -------------------------------------------------------- error detection

  /** Changing the digit at position k of a code of length n moves the sum by
      its weight times the change. */
  lemma {:induction false} ChangeOne(d: seq<int>, k: nat, v: int, w: int)
    requires k < |d|
    ensures SumFromRight(d[k := v], w)
         == SumFromRight(d, w) + (if (|d| - 1 - k) % 2 == 0 then w else 4 - w) * (v - d[k])
  {
    var n := |d| - 1;
    if k == n {
      assert d[k := v][..n] == d[..n];
    } else {
      ChangeOne(d[..n], k, v, 4 - w);
      assert d[k := v][..n] == d[..n][k := v];
    }
  }

  lemma ValuesOfChange(s: string, k: nat, c: char)
    requires AllDigits(s) && k < |s| && IsDigit(c)
    ensures AllDigits(s[k := c]) && Values(s[k := c]) == Values(s)[k := DigitValue(c)]
  {
  }

  /** A single wrong digit is always detected. */
  lemma SingleErrorDetected(s: string, k: nat, c: char)
    requires AllDigits(s) && k < |s| && IsDigit(c) && c != s[k]
    requires ValidGtin(s)
    ensures AllDigits(s[k := c]) && !ValidGtin(s[k := c])
  {
    var d, v := Values(s), DigitValue(c);
    ValuesOfChange(s, k, c);
    ChangeOne(d, k, v, 1);
    if (|d| - 1 - k) % 2 == 0 {
      OneIsNoMultiple(SumFromRight(d, 1), v - d[k]);
    } else {
      ThreeIsNoMultiple(SumFromRight(d, 1), v - d[k]);
    }
  }

  lemma OneIsNoMultiple(sum: int, d: int)
    requires sum % 10 == 0 && d != 0 && -10 < d < 10
    ensures (sum + 1 * d) % 10 != 0
  {
  }

  lemma ThreeIsNoMultiple(sum: int, d: int)
    requires sum % 10 == 0 && d != 0 && -10 < d < 10
    ensures (sum + 3 * d) % 10 != 0
  {
    assert (sum + 3 * d) % 10 == (3 * d) % 10;
  }

  lemma SwapSum(d: seq<int>, k: nat)
    requires k + 1 < |d|
    ensures SumFromRight(d[k := d[k + 1]][k + 1 := d[k]], 1)
         == SumFromRight(d, 1) + (if (|d| - 1 - k) % 2 == 0 then -2 else 2) * (d[k + 1] - d[k])
  {
    ChangeOne(d, k, d[k + 1], 1);
    ChangeOne(d[k := d[k + 1]], k + 1, d[k], 1);
  }

  /** Swapping two unequal neighbours goes unnoticed exactly when they differ
      by five. */
  lemma SwapUndetectedIff(s: string, k: nat)
    requires AllDigits(s) && k + 1 < |s| && s[k] != s[k + 1]
    requires ValidGtin(s)
    ensures var t := s[k := s[k + 1]][k + 1 := s[k]];
      AllDigits(t) && (ValidGtin(t) <==> DigitValue(s[k]) - DigitValue(s[k + 1]) in {5, -5})
  {
    ValuesOfChange(s, k, s[k + 1]);
    ValuesOfChange(s[k := s[k + 1]], k + 1, s[k]);
    SwapSum(Values(s), k);
    TwiceModTen(SumFromRight(Values(s), 1), DigitValue(s[k + 1]) - DigitValue(s[k]));
  }

  lemma TwiceModTen(sum: int, d: int)
    requires sum % 10 == 0 && d != 0 && -10 < d < 10
    ensures (sum + 2 * d) % 10 == 0 <==> d in {5, -5}
    ensures (sum - 2 * d) % 10 == 0 <==> d in {5, -5}
  {
    assert (sum + 2 * d) % 10 == (2 * d) % 10 && (sum - 2 * d) % 10 == (-2 * d) % 10;
  }
}
