/** The signed sum of decimals recomputed by a DECIMAL(38) engine, its precision guard, and the exact sum
    it is compared with. */
module DecimalSum {
  import opened Wrappers

  /** `coefficient * 10^exponent`; a JSON number read as a decimal is always finite. */
  datatype Decimal = Decimal(coefficient: int, exponent: int)

  const WIDTH: nat := 38

  /** Ten to the width. */
  const LIMIT: nat := 100_000_000_000_000_000_000_000_000_000_000_000_000

  /** `x` with `n` zeros appended. */
  function Append(x: int, n: nat): int {
    if n == 0 then x else 10 * Append(x, n - 1)
  }

  function Pow10(n: nat): (p: nat)
    ensures p > 0
  {
    if n == 0 then 1 else 10 * Pow10(n - 1)
  }

  lemma {:induction false} Pow10Grows(a: nat, b: nat)
    requires a <= b
    ensures Pow10(a) <= Pow10(b)
  {
    if a < b { Pow10Grows(a, b - 1); }
  }

  lemma {:induction false} AppendTimes(x: int, n: nat)
    ensures Append(x, n) == x * Pow10(n)
  {
    if n > 0 {
      AppendTimes(x, n - 1);
      var p := Pow10(n - 1);
      assert 10 * (x * p) == x * (10 * p);
    }
  }

  lemma {:induction false} Pow10Splits(a: nat, b: nat)
    ensures Pow10(a + b) == Pow10(a) * Pow10(b)
  {
    AppendTimes(Pow10(a), b);
    AppendPow(a, b);
  }

  lemma {:induction false} AppendPow(a: nat, b: nat)
    ensures Append(Pow10(a), b) == Pow10(a + b)
  {
    if b > 0 { AppendPow(a, b - 1); }
  }

  lemma Doubled(n: nat, p: nat)
    requires Pow10(n) == p
    ensures Pow10(n + n) == p * p
  {
    Pow10Splits(n, n);
  }

  lemma LimitIsPower()
    ensures LIMIT == Pow10(WIDTH)
  {
    assert Pow10(2) == 10 * Pow10(1) && Pow10(1) == 10;
    Doubled(2, 100);
    assert Pow10(4) == 10_000;
    Doubled(4, 10_000);
    assert Pow10(9) == 10 * Pow10(8);
    Doubled(9, 1_000_000_000);
    assert Pow10(19) == 10 * Pow10(18);
    Doubled(19, 10_000_000_000_000_000_000);
  }

  function Abs(x: int): nat {
    if x < 0 then -x else x
  }

  function Max(a: int, b: int): int {
    if a < b then b else a
  }

  /** The number of decimal digits; zero has one. */
  function Digits(n: nat): (d: nat)
    ensures d > 0 && n < Pow10(d)
    ensures n > 0 ==> Pow10(d - 1) <= n
  {
    if n < 10 then assert Pow10(1) == 10 * Pow10(0); 1
    else
      var d := Digits(n / 10);
      assert Pow10(d + 1) == 10 * Pow10(d);
      assert d > 1 || Pow10(d - 1) == 1;
      assert Pow10(d) == 10 * Pow10(d - 1);
      d + 1
  }

  // ---------------------------------------------------------------- the guard

  function Adjusted(d: Decimal): int {
    d.exponent + Digits(Abs(d.coefficient)) - 1
  }

  function MaxFraction(ds: seq<Decimal>): int
    requires ds != []
  {
    if |ds| == 1 then -ds[0].exponent else Max(-ds[0].exponent, MaxFraction(ds[1..]))
  }

  function Scale(ds: seq<Decimal>): nat
    requires ds != []
  {
    Max(0, MaxFraction(ds))
  }

  function IntegerDigits(ds: seq<Decimal>): nat
    requires ds != []
  {
    var first := Max(1, Adjusted(ds[0]) + 1);
    if |ds| == 1 then first else Max(first, IntegerDigits(ds[1..]))
  }

  /** The digits of the number of terms. */
  function CountDigits(terms: nat): nat {
    Digits(Max(1, terms))
  }

  predicate GuardPasses(ds: seq<Decimal>)
    requires ds != []
  {
    IntegerDigits(ds) + Scale(ds) + CountDigits(|ds|) <= WIDTH
  }

  lemma {:induction false} GuardCovers(ds: seq<Decimal>, i: nat)
    requires i < |ds|
    ensures -ds[i].exponent <= MaxFraction(ds) && Adjusted(ds[i]) + 1 <= IntegerDigits(ds)
  {
    if i > 0 { GuardCovers(ds[1..], i - 1); }
  }

  // ---------------------------------------------------------------- the engine

  /** A DECIMAL(38, s) holds an integer number of units below 10^38 in absolute value. */
  predicate Fits(units: int) {
    Abs(units) < LIMIT
  }

  predicate IsBigint(c: int) {
    -0x8000_0000_0000_0000 <= c < 0x8000_0000_0000_0000
  }

  /** CAST(value AS DECIMAL(38, scale)), in units, for a value with no digit beyond the scale. */
  function Units(d: Decimal, scale: nat): int
    requires -d.exponent <= scale
  {
    Append(d.coefficient, d.exponent + scale)
  }

  predicate Scalable(ds: seq<Decimal>, scale: nat) {
    forall i | 0 <= i < |ds| :: -ds[i].exponent <= scale
  }

  /** The running sum the engine keeps after the terms seen so far; nothing once a cast, a product or a
      sum does not fit. */
  function Engine(ds: seq<Decimal>, coefficients: seq<int>, scale: nat): (r: Option<int>)
    requires |ds| == |coefficients| && Scalable(ds, scale)
  {
    if ds == [] then Some(0)
    else
      var last := |ds| - 1;
      Add(Engine(ds[..last], coefficients[..last], scale), Units(ds[last], scale), coefficients[last])
  }

  function Add(before: Option<int>, units: int, coefficient: int): Option<int> {
    if before.None? || !Fits(units) || !IsBigint(coefficient) then None
    else if !Fits(units * coefficient) || !Fits(before.value + units * coefficient) then None
    else Some(before.value + units * coefficient)
  }

  datatype Outcome = NoTerms | PrecisionNotSupported | Overflow | Sum(units: int, scale: nat)

  function DuckSum(ds: seq<Decimal>, coefficients: seq<int>): Outcome
    requires |ds| == |coefficients|
  {
    if ds == [] then NoTerms
    else if !GuardPasses(ds) then PrecisionNotSupported
    else
      ScaleCovers(ds);
      match Engine(ds, coefficients, Scale(ds))
      case None => Overflow
      case Some(units) => Sum(units, Scale(ds))
  }

  lemma ScaleCovers(ds: seq<Decimal>)
    requires ds != []
    ensures Scalable(ds, Scale(ds))
  {
    forall i | 0 <= i < |ds| ensures -ds[i].exponent <= Scale(ds) { GuardCovers(ds, i); }
  }

  // ---------------------------------------------------------------- the exact sum

  /** `x * 10^e`. */
  function Shift(x: real, e: int): real
    decreases if e < 0 then -e else e
  {
    if e == 0 then x
    else if e > 0 then 10.0 * Shift(x, e - 1)
    else Shift(x, e + 1) / 10.0
  }

  /** The number a decimal denotes. */
  function Exact(d: Decimal): real {
    Shift(d.coefficient as real, d.exponent)
  }

  function ExactSum(ds: seq<Decimal>, coefficients: seq<int>): real
    requires |ds| == |coefficients|
  {
    if ds == [] then 0.0
    else
      var last := |ds| - 1;
      Weighted(ExactSum(ds[..last], coefficients[..last]), Exact(ds[last]), coefficients[last])
  }

  function Weighted(sum: real, x: real, c: int): real {
    sum + x * c as real
  }

  function AbsSum(coefficients: seq<int>): nat {
    if coefficients == [] then 0
    else AbsSum(coefficients[..|coefficients| - 1]) + Abs(coefficients[|coefficients| - 1])
  }

  // ---------------------------------------------------------------- scaled values are exact

  lemma {:induction false} ShiftAgain(x: real, e: int, n: nat)
    ensures Shift(Shift(x, e), n) == Shift(x, e + n)
    decreases n
  {
    if n > 0 { ShiftAgain(x, e, n - 1); }
  }

  lemma {:induction false} ShiftAdds(x: real, y: real, n: nat)
    ensures Shift(x + y, n) == Shift(x, n) + Shift(y, n)
    decreases n
  {
    if n > 0 { ShiftAdds(x, y, n - 1); }
  }

  lemma {:induction false} ShiftTimes(x: real, c: real, n: nat)
    ensures Shift(x * c, n) == Shift(x, n) * c
    decreases n
  {
    if n > 0 {
      ShiftTimes(x, c, n - 1);
      var s := Shift(x, n - 1);
      assert 10.0 * (s * c) == (10.0 * s) * c;
    }
  }

  lemma {:induction false} AppendShifts(x: int, n: nat)
    ensures Append(x, n) as real == Shift(x as real, n)
  {
    if n > 0 { AppendShifts(x, n - 1); }
  }

  lemma UnitsExact(d: Decimal, scale: nat)
    requires -d.exponent <= scale
    ensures Units(d, scale) as real == Shift(Exact(d), scale)
  {
    AppendShifts(d.coefficient, d.exponent + scale);
    ShiftAgain(d.coefficient as real, d.exponent, scale);
  }

  lemma CastTimes(a: int, b: int)
    ensures (a * b) as real == a as real * b as real
  {
  }

  lemma TermExact(units: int, c: int, x: real, scale: nat)
    requires units as real == Shift(x, scale)
    ensures (units * c) as real == Shift(x * c as real, scale)
  {
    ShiftTimes(x, c as real, scale);
    CastTimes(units, c);
  }

  lemma SumExact(a: int, b: int, s: real, t: real, scale: nat)
    requires a as real == Shift(s, scale) && b as real == Shift(t, scale)
    ensures (a + b) as real == Shift(s + t, scale)
  {
    ShiftAdds(s, t, scale);
  }

  lemma AddExact(before: Option<int>, units: int, c: int, sum: real, x: real, scale: nat)
    requires Add(before, units, c).Some?
    requires before.value as real == Shift(sum, scale) && units as real == Shift(x, scale)
    ensures Add(before, units, c).value as real == Shift(Weighted(sum, x, c), scale)
  {
    TermExact(units, c, x, scale);
    SumExact(before.value, units * c, sum, x * c as real, scale);
  }

  /** Whatever the engine returns is the exact sum, in units. */
  lemma {:induction false} EngineExact(ds: seq<Decimal>, coefficients: seq<int>, scale: nat)
    requires |ds| == |coefficients| && Scalable(ds, scale) && Engine(ds, coefficients, scale).Some?
    ensures Engine(ds, coefficients, scale).value as real == Shift(ExactSum(ds, coefficients), scale)
  {
    if ds == [] {
      ShiftTimes(0.0, 0.0, scale);
    } else {
      var last := |ds| - 1;
      EngineExact(ds[..last], coefficients[..last], scale);
      UnitsExact(ds[last], scale);
      AddExact(Engine(ds[..last], coefficients[..last], scale), Units(ds[last], scale), coefficients[last],
        ExactSum(ds[..last], coefficients[..last]), Exact(ds[last]), scale);
      assert ExactSum(ds, coefficients) == Weighted(ExactSum(ds[..last], coefficients[..last]), Exact(ds[last]),
          coefficients[last]);
    }
  }

  // ---------------------------------------------------------------- and bounded

  lemma {:induction false} AppendBounded(x: int, digits: nat, n: nat)
    requires Abs(x) < Pow10(digits)
    ensures Abs(Append(x, n)) < Pow10(digits + n)
  {
    if n > 0 { AppendBounded(x, digits, n - 1); }
  }

  lemma UnitsBounded(ds: seq<Decimal>, i: nat)
    requires ds != [] && i < |ds|
    ensures -ds[i].exponent <= Scale(ds)
    ensures Abs(Units(ds[i], Scale(ds))) < Pow10(IntegerDigits(ds) + Scale(ds))
  {
    GuardCovers(ds, i);
    var d, shift := ds[i], ds[i].exponent + Scale(ds);
    AppendBounded(d.coefficient, Digits(Abs(d.coefficient)), shift);
    Pow10Grows(Digits(Abs(d.coefficient)) + shift, IntegerDigits(ds) + Scale(ds));
  }

  lemma TimesBounded(a: int, b: int, limit: nat)
    requires Abs(a) <= limit
    ensures Abs(a * b) <= limit * Abs(b)
  {
    if b >= 0 {
      assert -(limit * b) <= a * b <= limit * b;
    } else {
      var c := -b;
      assert -(limit * c) <= a * c <= limit * c;
      assert a * b == -(a * c);
    }
  }

  lemma AtMost(a: nat, b: nat, factor: nat)
    requires a <= b
    ensures factor * a <= factor * b
  {
  }

  /** Every scaled value is within the limit, and so is every sum of the weighted values. */
  ghost predicate Bounded(ds: seq<Decimal>, coefficients: seq<int>, scale: nat, limit: nat)
    requires |ds| == |coefficients| && Scalable(ds, scale)
  {
    && (forall i | 0 <= i < |ds| :: Abs(Units(ds[i], scale)) <= limit)
    && (forall c | c in coefficients :: IsBigint(c))
    && limit < LIMIT && limit * AbsSum(coefficients) < LIMIT
  }

  lemma AddBounded(before: Option<int>, units: int, c: int, limit: nat, weight: nat)
    requires before.Some? && Abs(before.value) <= limit * weight && Abs(units) <= limit && IsBigint(c)
    requires limit < LIMIT && limit * (weight + Abs(c)) < LIMIT
    ensures Add(before, units, c).Some? && Abs(Add(before, units, c).value) <= limit * (weight + Abs(c))
  {
    TimesBounded(units, c, limit);
    assert limit * (weight + Abs(c)) == limit * weight + limit * Abs(c);
  }

  /** Nothing overflows, and every running sum stays within the limit times the coefficients seen. */
  lemma {:induction false} EngineBounded(ds: seq<Decimal>, coefficients: seq<int>, scale: nat, limit: nat)
    requires |ds| == |coefficients| && Scalable(ds, scale) && Bounded(ds, coefficients, scale, limit)
    ensures Engine(ds, coefficients, scale).Some?
    ensures Abs(Engine(ds, coefficients, scale).value) <= limit * AbsSum(coefficients)
  {
    if ds != [] {
      var last := |ds| - 1;
      AtMost(AbsSum(coefficients[..last]), AbsSum(coefficients), limit);
      EngineBounded(ds[..last], coefficients[..last], scale, limit);
      AddBounded(Engine(ds[..last], coefficients[..last], scale), Units(ds[last], scale), coefficients[last],
        limit, AbsSum(coefficients[..last]));
    }
  }

  /** The guard leaves room for the largest scaled value times a power of ten of the term count's length. */
  lemma GuardBounds(ds: seq<Decimal>, coefficients: seq<int>) returns (limit: nat)
    requires |ds| == |coefficients| && ds != [] && GuardPasses(ds)
    requires forall c | c in coefficients :: IsBigint(c)
    requires AbsSum(coefficients) <= Pow10(CountDigits(|ds|))
    ensures Scalable(ds, Scale(ds)) && Bounded(ds, coefficients, Scale(ds), limit)
  {
    var scale, width, count := Scale(ds), IntegerDigits(ds) + Scale(ds), CountDigits(|ds|);
    limit := Pow10(width) - 1;
    forall i | 0 <= i < |ds|
      ensures -ds[i].exponent <= scale && Abs(Units(ds[i], scale)) <= limit
    {
      UnitsBounded(ds, i);
    }
    AtMost(AbsSum(coefficients), Pow10(count), limit);
    AppendTimes(limit, count);
    AppendBounded(limit, width, count);
    Pow10Grows(width + count, WIDTH);
    Pow10Grows(width, WIDTH);
    LimitIsPower();
  }

  /** The guard is a real overflow bound: whatever passes it, with absolute coefficients summing to at most
      a power of ten of the term count's length, is summed without overflow, and the result is the exact
      sum. */
  lemma GuardSuffices(ds: seq<Decimal>, coefficients: seq<int>)
    requires |ds| == |coefficients| && ds != [] && GuardPasses(ds)
    requires forall c | c in coefficients :: IsBigint(c)
    requires AbsSum(coefficients) <= Pow10(CountDigits(|ds|))
    ensures DuckSum(ds, coefficients).Sum?
    ensures DuckSum(ds, coefficients).scale == Scale(ds)
    ensures DuckSum(ds, coefficients).units as real == Shift(ExactSum(ds, coefficients), Scale(ds))
  {
    var limit := GuardBounds(ds, coefficients);
    EngineBounded(ds, coefficients, Scale(ds), limit);
    EngineExact(ds, coefficients, Scale(ds));
  }

  // ---------------------------------------------------------------- how sharp it is, and the cross-check

  function Signed(c: int, limit: int): int {
    if c < 0 then -limit else limit
  }

  /** The same magnitude everywhere, with the sign of the coefficient. */
  predicate Aligned(ds: seq<Decimal>, coefficients: seq<int>, limit: nat) {
    && |ds| == |coefficients|
    && forall i | 0 <= i < |ds| :: ds[i] == Decimal(Signed(coefficients[i], limit), 0)
  }

  lemma {:induction false} NoExponents(ds: seq<Decimal>, coefficients: seq<int>, limit: nat)
    requires ds != [] && Aligned(ds, coefficients, limit)
    ensures Scale(ds) == 0 && MaxFraction(ds) == 0 && IntegerDigits(ds) == Digits(limit)
  {
    if |ds| > 1 { NoExponents(ds[1..], coefficients[1..], limit); }
  }

  lemma SignedTimes(c: int, limit: nat)
    ensures Signed(c, limit) * c == limit * Abs(c)
  {
    if c < 0 {
      var m := -c;
      var l: int := limit;
      assert (-l) * c == l * m;
    }
  }

  lemma AddAligned(before: Option<int>, units: int, c: int, limit: nat, weight: nat)
    requires units == Signed(c, limit)
    requires Add(before, units, c).Some? && before.value == limit * weight
    ensures Add(before, units, c).value == limit * (weight + Abs(c))
  {
    SignedTimes(c, limit);
    Distributes(limit, weight, Abs(c));
  }

  lemma Distributes(a: int, b: int, c: int)
    ensures a * (b + c) == a * b + a * c
  {
  }

  lemma {:induction false} EngineAligned(ds: seq<Decimal>, coefficients: seq<int>, limit: nat)
    requires Aligned(ds, coefficients, limit) && Engine(ds, coefficients, 0).Some?
    ensures Engine(ds, coefficients, 0).value == limit * AbsSum(coefficients)
  {
    if ds != [] {
      var last := |ds| - 1;
      EngineAligned(ds[..last], coefficients[..last], limit);
      AddAligned(Engine(ds[..last], coefficients[..last], 0), Units(ds[last], 0), coefficients[last],
        limit, AbsSum(coefficients[..last]));
    }
  }

  lemma NinesOverflow(width: nat, count: nat, weight: nat)
    requires width + count == WIDTH && count < width && weight > Pow10(count)
    ensures (Pow10(width) - 1) * weight >= LIMIT
  {
    LimitIsPower();
    AtMost(Pow10(count) + 1, weight, Pow10(width) - 1);
    NinesTimes(width, count);
  }

  /** With any larger sum of absolute coefficients there are values that pass the guard and still overflow. */
  lemma GuardNeeds(coefficients: seq<int>) returns (ds: seq<Decimal>)
    requires coefficients != [] && 2 * CountDigits(|coefficients|) < WIDTH
    requires AbsSum(coefficients) > Pow10(CountDigits(|coefficients|))
    ensures |ds| == |coefficients| && GuardPasses(ds) && DuckSum(ds, coefficients) == Overflow
  {
    var count := CountDigits(|coefficients|);
    var width := WIDTH - count;
    var limit: nat := Pow10(width) - 1;
    ds := seq(|coefficients|, i requires 0 <= i < |coefficients| => Decimal(Signed(coefficients[i], limit), 0));
    DigitsOfNines(width, limit);
    ScaleCovers(ds);
    NoExponents(ds, coefficients, limit);
    if DuckSum(ds, coefficients) != Overflow {
      EngineAligned(ds, coefficients, limit);
      NinesOverflow(width, count, AbsSum(coefficients));
      assert false;
    }
  }

  /** No values that pass the guard can overflow the sum. */
  ghost predicate NeverOverflows(coefficients: seq<int>) {
    forall ds: seq<Decimal> | |ds| == |coefficients| && ds != [] && GuardPasses(ds) ::
      DuckSum(ds, coefficients) != Overflow
  }

  /** The exact condition on the coefficients under which the guard protects every list of values. */
  lemma GuardProtectsExactly(coefficients: seq<int>)
    requires coefficients != [] && 2 * CountDigits(|coefficients|) < WIDTH
    requires forall c | c in coefficients :: IsBigint(c)
    ensures NeverOverflows(coefficients) <==> AbsSum(coefficients) <= Pow10(CountDigits(|coefficients|))
  {
    if AbsSum(coefficients) <= Pow10(CountDigits(|coefficients|)) {
      forall ds: seq<Decimal> | |ds| == |coefficients| && ds != [] && GuardPasses(ds)
        ensures DuckSum(ds, coefficients) != Overflow
      {
        GuardSuffices(ds, coefficients);
      }
    } else {
      var ds := GuardNeeds(coefficients);
    }
  }

  /** In particular it does when the absolute coefficients sum to at most the number of terms. */
  lemma TermsAreProtected(coefficients: seq<int>)
    requires coefficients != [] && 2 * CountDigits(|coefficients|) < WIDTH
    requires forall c | c in coefficients :: IsBigint(c)
    requires AbsSum(coefficients) <= |coefficients|
    ensures NeverOverflows(coefficients)
  {
    GuardProtectsExactly(coefficients);
  }

  lemma DigitsOfNines(width: nat, n: nat)
    requires width > 0 && n == Pow10(width) - 1
    ensures Digits(n) == width
  {
    var d := Digits(n);
    assert Pow10(width) == 10 * Pow10(width - 1);
    Pow10Grows(width, if d > width then d - 1 else width);
  }

  lemma NinesTimes(width: nat, count: nat)
    requires count < width
    ensures (Pow10(width) - 1) * (Pow10(count) + 1) >= Pow10(width + count)
  {
    var p, q := Pow10(width), Pow10(count);
    Pow10Grows(count, width - 1);
    assert p == 10 * Pow10(width - 1);
    Pow10Splits(width, count);
    assert (p - 1) * (q + 1) == p * q + p - q - 1;
  }

  /** The status of a check: the value, the exact sum and the engine's sum all agree. */
  predicate CrossCheckPasses(value: real, ds: seq<Decimal>, coefficients: seq<int>)
    requires |ds| == |coefficients| && DuckSum(ds, coefficients).Sum?
  {
    var s := DuckSum(ds, coefficients);
    value == ExactSum(ds, coefficients) && value == Shift(s.units as real, -(s.scale as int))
  }

  lemma {:induction false} ShiftAround(x: real, a: int, b: int)
    ensures Shift(Shift(x, a), b) == Shift(x, a + b)
    decreases if b < 0 then -b else b
  {
    if b > 0 {
      ShiftAround(x, a, b - 1);
    } else if b < 0 {
      ShiftAround(x, a, b + 1);
    }
  }

  /** The engine never disagrees with the exact sum: wherever it answers, the check is a comparison of the
      value with the exact sum alone. */
  lemma CrossCheckIsExact(value: real, ds: seq<Decimal>, coefficients: seq<int>)
    requires |ds| == |coefficients| && DuckSum(ds, coefficients).Sum?
    ensures CrossCheckPasses(value, ds, coefficients) <==> value == ExactSum(ds, coefficients)
    ensures var s := DuckSum(ds, coefficients); Shift(s.units as real, -(s.scale as int)) == ExactSum(ds, coefficients)
  {
    ScaleCovers(ds);
    EngineExact(ds, coefficients, Scale(ds));
    var scale: int := Scale(ds);
    ShiftAround(ExactSum(ds, coefficients), scale, -scale);
  }
}
