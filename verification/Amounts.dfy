/** `calculate_montants`, in etl/normalization.py and, again, in PL/pgSQL in
    alembic/versions/u1b28o4t6p8r_add_etl_staging_normalization.py.

    Prices and rates are exact; amounts are whole cents. Python's `quantize`
    rounds ties to even, PostgreSQL's ROUND on NUMERIC away from zero. */
module Amounts {
  import opened Wrappers

  const DEFAULT_RATE: real := 20.0

  datatype Montants = Montants(ht: int, tva: int, ttc: int)

  function Abs(x: real): real {
    if x >= 0.0 then x else -x
  }

  function RoundHalfEven(x: real): int {
    var f := x.Floor;
    var d := x - f as real;
    if d < 0.5 then f
    else if d > 0.5 then f + 1
    else if f % 2 == 0 then f else f + 1
  }

  function RoundHalfAway(x: real): int {
    if x >= 0.0 then (x + 0.5).Floor else -((-x + 0.5).Floor)
  }

  /** x lies halfway between an even integer and the next: where the two
      roundings part, for x >= 0. */
  predicate EvenTie(x: real) {
    x - x.Floor as real == 0.5 && x.Floor % 2 == 0
  }

  /** price * quantity, in cents. */
  function Net(price: real, quantity: int): real {
    price * quantity as real * 100.0
  }

  /** A percentage of an amount. */
  function Percent(ht: int, rate: real): real {
    ht as real * (rate / 100.0)
  }

  function RateOf(rate: Option<real>): real {
    if rate.None? then DEFAULT_RATE else rate.value
  }

  function PythonMontants(price: real, quantity: int, rate: real): Montants {
    var ht := RoundHalfEven(Net(price, quantity));
    var tva := RoundHalfEven(Percent(ht, rate));
    Montants(ht, tva, ht + tva)
  }

  /** `calculate_montants` in Python. */
  function CalculateMontants(price: Option<real>, quantity: Option<int>, rate: Option<real>): Option<Montants> {
    if price.None? || quantity.None? then None
    else Some(PythonMontants(price.value, quantity.value, RateOf(rate)))
  }

  function SqlMontants(price: real, quantity: int, rate: real): Montants {
    var ht := RoundHalfAway(Net(price, quantity));
    var tva := RoundHalfAway(Percent(ht, rate));
    Montants(ht, tva, ht + tva)
  }

  function SqlAmounts(price: Option<real>, quantity: Option<int>, rate: Option<real>): Option<Montants> {
    if price.None? || quantity.None? then None
    else Some(SqlMontants(price.value, quantity.value, RateOf(rate)))
  }

  /** `staging.calculate_montants`, whose NULL arguments give NULL amounts. */
  method SqlCalculateMontants(price: Option<real>, quantity: Option<int>, rate: Option<real>)
    returns (m: Option<Montants>)
    ensures m == SqlAmounts(price, quantity, rate)
  {
    if price.None? || quantity.None? {
      return None;
    }
    var taux := if rate.Some? then rate.value else DEFAULT_RATE;
    var vHt := RoundHalfAway(Net(price.value, quantity.value));
    var vTva := RoundHalfAway(Percent(vHt, taux));
    var vTtc := vHt + vTva;
    m := Some(Montants(vHt, vTva, vTtc));
  }

  // -------------------------------------------------------------- rounding

  /** Both roundings give a nearest integer; they differ, for x >= 0, exactly on
      even ties and then by one. */
  lemma RoundingsNearest(x: real)
    ensures Abs(RoundHalfEven(x) as real - x) <= 0.5
    ensures Abs(RoundHalfAway(x) as real - x) <= 0.5
  {
  }

  lemma RoundingsDiffer(x: real)
    requires x >= 0.0
    ensures RoundHalfAway(x) == RoundHalfEven(x) + if EvenTie(x) then 1 else 0
  {
    var f := x.Floor;
    assert (x + 0.5).Floor == if x - f as real < 0.5 then f else f + 1;
  }

  /** On ties one gives the even neighbour, the other the one farther from zero. */
  lemma TiesEvenAndAway(n: int)
    ensures RoundHalfEven(n as real + 0.5) in {n, n + 1} && RoundHalfEven(n as real + 0.5) % 2 == 0
    ensures RoundHalfAway(n as real + 0.5) == if n >= 0 then n + 1 else n
  {
    assert (n as real + 0.5).Floor == n;
    if n < 0 {
      assert (-(n as real + 0.5) + 0.5) == (-n) as real;
    } else {
      assert (n as real + 0.5 + 0.5) == (n + 1) as real;
    }
  }

  /** Without a rate both versions take 20 %, and both totals are exact sums. */
  lemma DefaultRateAndTotals(price: real, quantity: int, rate: Option<real>)
    ensures CalculateMontants(Some(price), Some(quantity), None)
         == CalculateMontants(Some(price), Some(quantity), Some(20.0))
    ensures SqlAmounts(Some(price), Some(quantity), None) == SqlAmounts(Some(price), Some(quantity), Some(20.0))
    ensures var p := CalculateMontants(Some(price), Some(quantity), rate);
      p.Some? && p.value.ttc == p.value.ht + p.value.tva
    ensures var s := SqlAmounts(Some(price), Some(quantity), rate); s.Some? && s.value.ttc == s.value.ht + s.value.tva
    ensures CalculateMontants(None, Some(quantity), rate) == CalculateMontants(Some(price), None, rate) == None
  {
  }

  lemma RoundHalfAwayMonotone(x: real, y: real)
    requires 0.0 <= x <= y
    ensures RoundHalfAway(x) <= RoundHalfAway(y)
  {
  }

  // ----------------------------------------------------------- total error

  datatype Line = Line(price: real, quantity: int, rate: real)

  /** The exact amount including tax, in cents. */
  function Exact(l: Line): real {
    l.price * l.quantity as real * 100.0 * (1.0 + l.rate / 100.0)
  }

  /** Half a cent of the amount before tax, taxed, and half a cent of the tax. */
  function ErrorBound(l: Line): real {
    0.5 * Abs(1.0 + l.rate / 100.0) + 0.5
  }

  lemma MulMonotone(a: real, b: real, c: real)
    requires a <= b && c >= 0.0
    ensures a * c <= b * c
  {
    assert (b - a) * c >= 0.0;
  }

  lemma Negate(e: real, f: real)
    ensures e * -f == -(e * f)
  {
  }

  lemma ScaledByPositive(e: real, f: real)
    requires -0.5 <= e <= 0.5 && f >= 0.0
    ensures -0.5 * f <= e * f <= 0.5 * f
  {
    MulMonotone(-0.5, e, f);
    MulMonotone(e, 0.5, f);
  }

  lemma ScaledError(e: real, f: real)
    requires -0.5 <= e <= 0.5
    ensures -0.5 * Abs(f) <= e * f <= 0.5 * Abs(f)
  {
    if f >= 0.0 {
      ScaledByPositive(e, f);
    } else {
      ScaledByPositive(e, -f);
      Negate(e, f);
    }
  }

  lemma Distribute(a: real, b: real, r: real)
    ensures (a - b) * (1.0 + r) == a + a * r - b * (1.0 + r)
  {
  }

  lemma Combine(ht: real, exactTax: real, tax: real, exact: real, error: real, bound: real)
    requires error == ht + exactTax - exact && -bound <= error <= bound && Abs(tax - exactTax) <= 0.5
    ensures Abs(ht + tax - exact) <= bound + 0.5
  {
  }

  /** One rounding, taxed exactly, then a second rounding of the tax. */
  lemma TwoRoundings(l: Line, ht: int, tax: int)
    requires Abs(ht as real - Net(l.price, l.quantity)) <= 0.5 && Abs(tax as real - Percent(ht, l.rate)) <= 0.5
    ensures Abs((ht + tax) as real - Exact(l)) <= ErrorBound(l)
  {
    RoundedTotal(ht as real, Net(l.price, l.quantity), l.rate / 100.0, tax as real);
  }

  lemma RoundedTotal(h: real, x: real, r: real, tax: real)
    requires Abs(h - x) <= 0.5 && Abs(tax - h * r) <= 0.5
    ensures Abs(h + tax - x * (1.0 + r)) <= 0.5 * Abs(1.0 + r) + 0.5
  {
    Distribute(h, x, r);
    ScaledError(h - x, 1.0 + r);
    Combine(h, h * r, tax, x * (1.0 + r), (h - x) * (1.0 + r), 0.5 * Abs(1.0 + r));
  }

  lemma LineError(l: Line)
    ensures Abs(PythonMontants(l.price, l.quantity, l.rate).ttc as real - Exact(l)) <= ErrorBound(l)
    ensures Abs(SqlMontants(l.price, l.quantity, l.rate).ttc as real - Exact(l)) <= ErrorBound(l)
    ensures l.rate >= 0.0 ==> ErrorBound(l) == 1.0 + l.rate / 200.0
  {
    RoundingsNearest(Net(l.price, l.quantity));
    var p, s := PythonMontants(l.price, l.quantity, l.rate), SqlMontants(l.price, l.quantity, l.rate);
    RoundingsNearest(Percent(p.ht, l.rate));
    RoundingsNearest(Percent(s.ht, l.rate));
    TwoRoundings(l, p.ht, p.tva);
    TwoRoundings(l, s.ht, s.tva);
  }

  function TotalTtc(lines: seq<Line>): int {
    if lines == [] then 0 else
      var l := lines[0];
      PythonMontants(l.price, l.quantity, l.rate).ttc + TotalTtc(lines[1..])
  }

  function TotalExact(lines: seq<Line>): real {
    if lines == [] then 0.0 else Exact(lines[0]) + TotalExact(lines[1..])
  }

  function TotalBound(lines: seq<Line>): real {
    if lines == [] then 0.0 else ErrorBound(lines[0]) + TotalBound(lines[1..])
  }

  /** However many lines an invoice has, its total stays within the sum of the
      lines' bounds; at rates of 0 or more, 0.5 * (1 + rate/100) + 0.5 cents each. */
  lemma {:induction false} InvoiceError(lines: seq<Line>)
    ensures Abs(TotalTtc(lines) as real - TotalExact(lines)) <= TotalBound(lines)
  {
    if lines != [] {
      LineError(lines[0]);
      InvoiceError(lines[1..]);
    }
  }

  // --------------------------------------------------------- Python and SQL

  /** Both versions give amounts for the same arguments. On non-negative lines
      SQL never charges less. It charges one cent more
      before tax exactly on even ties, at most one cent more tax for rates below
      100, and the totals agree exactly when neither rounding meets an even tie. */
  lemma SqlAgainstPython(price: Option<real>, quantity: Option<int>, rate: Option<real>)
    requires price.Some? ==> price.value >= 0.0
    requires quantity.Some? ==> quantity.value >= 0
    requires rate.Some? ==> rate.value >= 0.0
    ensures CalculateMontants(price, quantity, rate).Some? <==> SqlAmounts(price, quantity, rate).Some?
    ensures CalculateMontants(price, quantity, rate).Some? ==>
      var (p, s) := (CalculateMontants(price, quantity, rate).value, SqlAmounts(price, quantity, rate).value);
      && s.ht == p.ht + (if EvenTie(Net(price.value, quantity.value)) then 1 else 0)
      && s.tva >= p.tva && s.ttc >= p.ttc
      && (RateOf(rate) < 100.0 ==> s.tva <= p.tva + 1 && s.ttc <= p.ttc + 2)
      && (s.ttc == p.ttc <==> !EvenTie(Net(price.value, quantity.value)) && !EvenTie(Percent(p.ht, RateOf(rate))))
  {
    if price.Some? && quantity.Some? {
      var x := Net(price.value, quantity.value);
      NetNonNegative(price.value, quantity.value);
      RoundingsDiffer(x);
      var h, k := RoundHalfEven(x), RoundHalfAway(x);
      PercentOfNext(h, RateOf(rate));
      TaxDifference(Percent(h, RateOf(rate)), Percent(k, RateOf(rate)), RateOf(rate) / 100.0, k - h);
    }
  }

  lemma NetNonNegative(price: real, quantity: int)
    requires price >= 0.0 && quantity >= 0
    ensures Net(price, quantity) >= 0.0
  {
    MulMonotone(0.0, price, quantity as real);
  }

  lemma PercentOfNext(h: int, rate: real)
    requires h >= 0 && rate >= 0.0
    ensures Percent(h, rate) >= 0.0 && Percent(h + 1, rate) == Percent(h, rate) + rate / 100.0
  {
    MulMonotone(0.0, h as real, rate / 100.0);
  }

  /** The taxes of two amounts that are `cents` apart. */
  lemma TaxDifference(x: real, y: real, r: real, cents: int)
    requires 0.0 <= x && r >= 0.0 && 0 <= cents <= 1 && y == if cents == 1 then x + r else x
    ensures RoundHalfAway(y) >= RoundHalfEven(x)
    ensures r < 1.0 ==> RoundHalfAway(y) <= RoundHalfEven(x) + 1
    ensures cents == 0 ==> (RoundHalfAway(y) == RoundHalfEven(x) <==> !EvenTie(x))
  {
    RoundingsDiffer(x);
    RoundHalfAwayMonotone(x, y);
    RoundingsNearest(x);
    RoundingsNearest(y);
  }

  /** Both differences occur together: half a cent taxed at 50 %. */
  lemma TwoCentsApart()
    ensures PythonMontants(0.005, 1, 50.0) == Montants(0, 0, 0)
    ensures SqlMontants(0.005, 1, 50.0) == Montants(1, 1, 2)
  {
    assert 0.005 * 1.0 * 100.0 == 0.5;
    assert RoundHalfEven(0.5) == 0 && RoundHalfAway(0.5) == 1;
    assert 1.0 * (50.0 / 100.0) == 0.5;
  }
}
