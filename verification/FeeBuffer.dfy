// src/client/stellarClient.ts, applyFeeBuffer: exact decimal arithmetic for raising
// simulated fees and resources by a configured multiplier.
module FeeBuffer {
  import opened Wrappers

  // A multiplier as JavaScript prints it, without an exponent: the digits before
  // and after the point.
  datatype Decimal = Decimal(whole: seq<Digit>, frac: seq<Digit>)

  type Digit = n: nat | n < 10

  datatype Fraction = Fraction(numerator: nat, denominator: nat)

  datatype FeeError =
    | NegativeValue
    | LimitBelowSimulated
    | LimitExceeded

  function Pow10(n: nat): (r: nat)
    ensures r >= 1
  {
    if n == 0 then 1 else 10 * Pow10(n - 1)
  }

  // The number a digit string denotes, read from the left.
  function Number(s: seq<Digit>): nat {
    if s == [] then 0 else 10 * Number(s[..|s| - 1]) + s[|s| - 1]
  }

  function ToFraction(m: Decimal): Fraction {
    Fraction(Number(m.whole + m.frac), Pow10(|m.frac|))
  }

  // The number written with a decimal point.
  function Value(m: Decimal): real {
    Number(m.whole) as real + Number(m.frac) as real / Pow10(|m.frac|) as real
  }

  // ---------- Arithmetic ----------

  lemma Distribute(a: int, b: int, c: int)
    ensures (a + b) * c == a * c + b * c
  {
  }

  lemma Associate(a: int, b: int, c: int)
    ensures a * (b * c) == b * (a * c)
  {
  }

  lemma ProductOrder(a: int, b: int, c: nat)
    requires a <= b
    ensures a * c <= b * c
  {
  }

  // Of two multiples of d, the lower one has the lower quotient.
  lemma QuotientOrder(q: int, r: int, d: nat)
    requires q * d < r * d
    ensures q < r
  {
    if r <= q {
      ProductOrder(r, q, d);
    }
  }

  lemma RealDistribute(a: real, b: real, c: real)
    ensures (a + b) * c == a * c + b * c
  {
  }

  lemma RealAssociate(a: real, b: real, c: real)
    ensures (a * b) * c == a * (b * c)
  {
  }

  lemma RealProductOrder(x: real, y: real, d: real)
    requires d > 0.0
    ensures x * d < y * d <==> x < y
  {
  }

  lemma DivideBack(n: real, d: real)
    requires d > 0.0
    ensures (n / d) * d == n
  {
  }

  lemma SameQuotient(x: real, n: real, d: real)
    requires d > 0.0 && x * d == n
    ensures x == n / d
  {
    DivideBack(n, d);
    RealProductOrder(x, n / d, d);
    RealProductOrder(n / d, x, d);
  }

  lemma AddWhole(w: real, n: real, d: real)
    requires d > 0.0
    ensures w + n / d == (w * d + n) / d
  {
    RealDistribute(w, n / d, d);
    DivideBack(n, d);
    SameQuotient(w + n / d, w * d + n, d);
  }

  lemma {:induction false} NumberConcat(a: seq<Digit>, b: seq<Digit>)
    ensures Number(a + b) == Number(a) * Pow10(|b|) + Number(b)
  {
    if b == [] {
      assert a + b == a;
    } else {
      var n := |b| - 1;
      assert (a + b)[..|a + b| - 1] == a + b[..n];
      NumberConcat(a, b[..n]);
      Associate(10, Number(a), Pow10(n));
    }
  }

  // The fraction is the exact value of the decimal.
  lemma FractionIsExact(m: Decimal)
    ensures Value(m) == ToFraction(m).numerator as real / ToFraction(m).denominator as real
  {
    NumberConcat(m.whole, m.frac);
    DecimalRatio(Number(m.whole), Number(m.frac), Pow10(|m.frac|), ToFraction(m).numerator);
  }

  // The multiplier 1.15.
  lemma ValueExample()
    ensures Value(Decimal([1], [1, 5])) == 1.15
  {
    assert [1, 5][..1] == [1] && [1][..0] == [] && Number([1]) == 1 && Number([1, 5]) == 15;
    assert Pow10(2) == 100;
  }

  lemma DecimalRatio(w: nat, n: nat, d: nat, sum: nat)
    requires d > 0 && sum == w * d + n
    ensures w as real + n as real / d as real == sum as real / d as real
  {
    AddWhole(w as real, n as real, d as real);
    CastProduct(w, d);
  }

  lemma RatioAtLeastOne(n: nat, d: nat)
    requires d > 0
    ensures n as real / d as real >= 1.0 <==> n >= d
  {
    var q := n as real / d as real;
    DivideBack(n as real, d as real);
    RealProductOrder(q, 1.0, d as real);
    assert q * d as real < 1.0 * d as real <==> n < d;
  }

  lemma CastProduct(a: int, b: int)
    ensures (a * b) as real == a as real * b as real
  {
  }

  function MultiplyAndCeil(value: int, m: Decimal): Result<nat, FeeError> {
    if value < 0 then Err(NegativeValue)
    else
      var f := ToFraction(m);
      Ok((value * f.numerator + (f.denominator - 1)) / f.denominator)
  }

  function Ceil(a: nat, d: nat): nat
    requires d > 0
  {
    (a + (d - 1)) / d
  }

  lemma CeilBounds(a: nat, d: nat)
    requires d > 0
    ensures a <= Ceil(a, d) * d < a + d
  {
    var x := a + (d - 1);
    assert x == d * (x / d) + x % d;
  }

  // Comparing with value times a fraction, in whole numbers.
  lemma AboveProduct(value: nat, n: nat, d: nat, r: int)
    requires d > 0
    ensures value as real * (n as real / d as real) <= r as real <==> value * n <= r * d
  {
    var v, q := value as real, n as real / d as real;
    DivideBack(n as real, d as real);
    RealAssociate(v, q, d as real);
    CastProduct(value, n);
    CastProduct(r, d);
    RealProductOrder(r as real, v * q, d as real);
  }

  // The result is the least integer at or above value times multiplier.
  lemma MultiplyAndCeilIsLeast(value: nat, m: Decimal, other: int)
    ensures MultiplyAndCeil(value, m).Ok?
    ensures value as real * Value(m) <= MultiplyAndCeil(value, m).value as real
    ensures value as real * Value(m) <= other as real ==> MultiplyAndCeil(value, m).value <= other
  {
    var f := ToFraction(m);
    FractionIsExact(m);
    CeilOfProduct(value, Value(m), f.numerator, f.denominator, other);
  }

  lemma CeilOfProduct(value: nat, q: real, n: nat, d: nat, other: int)
    requires d > 0 && q == n as real / d as real
    ensures value as real * q <= Ceil(value * n, d) as real
    ensures value as real * q <= other as real ==> Ceil(value * n, d) <= other
  {
    AboveProduct(value, n, d, Ceil(value * n, d));
    AboveProduct(value, n, d, other);
    CeilIsLeast(value * n, d, other);
  }

  lemma CeilIsLeast(a: nat, d: nat, other: int)
    requires d > 0
    ensures a <= Ceil(a, d) * d
    ensures a <= other * d ==> Ceil(a, d) <= other
  {
    CeilBounds(a, d);
    if a <= other * d {
      Distribute(other, 1, d);
      QuotientOrder(Ceil(a, d), other + 1, d);
    }
  }

  lemma AtLeastOneIff(m: Decimal)
    ensures Value(m) >= 1.0 <==> ToFraction(m).numerator >= ToFraction(m).denominator
  {
    FractionIsExact(m);
    RatioAtLeastOne(ToFraction(m).numerator, ToFraction(m).denominator);
  }

  // ---------- Fees ----------

  datatype Simulated = Simulated(
    totalFee: int, resourceFee: int, instructions: int, diskReadBytes: int, writeBytes: int)

  datatype Buffered = Buffered(baseFee: nat, resourceFee: nat, instructions: nat, diskReadBytes: nat, writeBytes: nat)

  function BaseFee(s: Simulated): int {
    if s.totalFee > s.resourceFee then s.totalFee - s.resourceFee else 0
  }

  // What applying the buffer yields, None standing for a transaction without contract
  // data, which is left as it is.
  method ApplyFeeBuffer(tx: Option<Simulated>, m: Decimal, maxFeeLimit: Option<int>)
    returns (r: Result<Option<Buffered>, FeeError>)
    ensures tx.None? ==> r == Ok(None)
    ensures tx.Some? ==> (r.Ok? <==> NotNegative(tx.value) && (maxFeeLimit.Some? ==>
      tx.value.totalFee <= maxFeeLimit.value && TotalBuffered(tx.value, m) <= maxFeeLimit.value))
    ensures tx.Some? && r.Ok? ==> r.value == Some(BufferedBy(tx.value, m))
    ensures tx.Some? && r.Err? && tx.value.resourceFee >= 0 && maxFeeLimit.Some? ==>
      && (r.error == LimitBelowSimulated <==> maxFeeLimit.value < tx.value.totalFee)
      && (r.error == LimitExceeded <==> tx.value.totalFee <= maxFeeLimit.value < TotalBuffered(tx.value, m))
    ensures tx.Some? && r.Err? && (tx.value.resourceFee < 0 || maxFeeLimit.None?) ==> r.error == NegativeValue
  {
    if tx.None? {
      return Ok(None);
    }
    var s := tx.value;
    var resourceFee := MultiplyAndCeil(s.resourceFee, m);
    if resourceFee.Err? {
      return Err(resourceFee.error);
    }
    var baseFee := MultiplyAndCeil(BaseFee(s), m);
    var total := baseFee.value + resourceFee.value;
    if maxFeeLimit.Some? {
      if maxFeeLimit.value < s.totalFee {
        return Err(LimitBelowSimulated);
      }
      if total > maxFeeLimit.value {
        return Err(LimitExceeded);
      }
    }
    var instructions := MultiplyAndCeil(s.instructions, m);
    var diskReadBytes := MultiplyAndCeil(s.diskReadBytes, m);
    var writeBytes := MultiplyAndCeil(s.writeBytes, m);
    if instructions.Err? || diskReadBytes.Err? || writeBytes.Err? {
      return Err(NegativeValue);
    }
    return Ok(Some(Buffered(baseFee.value, resourceFee.value, instructions.value,
                            diskReadBytes.value, writeBytes.value)));
  }

  predicate NotNegative(s: Simulated) {
    s.resourceFee >= 0 && s.instructions >= 0 && s.diskReadBytes >= 0 && s.writeBytes >= 0
  }

  function Raised(value: nat, m: Decimal): nat {
    MultiplyAndCeil(value, m).value
  }

  function BufferedBy(s: Simulated, m: Decimal): Buffered
    requires NotNegative(s)
  {
    Buffered(Raised(BaseFee(s), m), Raised(s.resourceFee, m),
             Raised(s.instructions, m), Raised(s.diskReadBytes, m), Raised(s.writeBytes, m))
  }

  function TotalBuffered(s: Simulated, m: Decimal): nat
    requires s.resourceFee >= 0
  {
    Raised(BaseFee(s), m) + Raised(s.resourceFee, m)
  }

  lemma RaisedNotBelow(value: nat, m: Decimal)
    requires Value(m) >= 1.0
    ensures Raised(value, m) >= value
  {
    var f := ToFraction(m);
    AtLeastOneIff(m);
    CeilNotBelow(value, f.numerator, f.denominator);
  }

  lemma CeilNotBelow(value: nat, n: nat, d: nat)
    requires n >= d > 0
    ensures Ceil(value * n, d) >= value
  {
    CeilBounds(value * n, d);
    ProductOrder(d, n, value);
    Distribute(Ceil(value * n, d), 1, d);
    QuotientOrder(value, Ceil(value * n, d) + 1, d);
  }

  // With a multiplier of at least one the separately rounded fees cover the
  // simulated total.
  lemma BufferedCoversSimulated(s: Simulated, m: Decimal)
    requires s.resourceFee >= 0 && Value(m) >= 1.0
    ensures TotalBuffered(s, m) >= s.totalFee
  {
    RaisedNotBelow(BaseFee(s), m);
    RaisedNotBelow(s.resourceFee, m);
  }

  lemma CeilSum(a: nat, b: nat, d: nat)
    requires d > 0
    ensures Ceil(a + b, d) <= Ceil(a, d) + Ceil(b, d) <= Ceil(a + b, d) + 1
  {
    CeilBounds(a, d);
    CeilBounds(b, d);
    CeilBounds(a + b, d);
    QuotientSum(a, b, d, Ceil(a, d), Ceil(b, d), Ceil(a + b, d));
  }

  lemma QuotientSum(a: nat, b: nat, d: nat, p: nat, q: nat, r: nat)
    requires a <= p * d < a + d && b <= q * d < b + d && a + b <= r * d < a + b + d
    ensures r <= p + q <= r + 1
  {
    Distribute(p, q, d);
    Distribute(p + q, 1, d);
    Distribute(r, 2, d);
    QuotientOrder(r, p + q + 1, d);
    QuotientOrder(p + q, r + 2, d);
  }

  // Rounding the two parts separately costs at most one stroop more than rounding
  // their sum once.
  lemma RoundingCostsAtMostOne(s: Simulated, m: Decimal)
    requires s.resourceFee >= 0
    ensures Raised(BaseFee(s) + s.resourceFee, m) <= TotalBuffered(s, m) <= Raised(BaseFee(s) + s.resourceFee, m) + 1
  {
    var f := ToFraction(m);
    Distribute(BaseFee(s), s.resourceFee, f.numerator);
    CeilSum(BaseFee(s) * f.numerator, s.resourceFee * f.numerator, f.denominator);
  }

  // The fees charged are the simulated total raised, but for at most one stroop; a
  // multiplier of one charges it exactly. A resource fee above the total stands alone.
  lemma TotalIsRaised(s: Simulated, m: Decimal)
    requires s.resourceFee >= 0
    ensures s.resourceFee <= s.totalFee ==>
      && Raised(s.totalFee, m) <= TotalBuffered(s, m) <= Raised(s.totalFee, m) + 1
      && (Value(m) == 1.0 ==> TotalBuffered(s, m) == s.totalFee)
    ensures s.totalFee < s.resourceFee ==> TotalBuffered(s, m) == Raised(s.resourceFee, m)
  {
    var f := ToFraction(m);
    if s.resourceFee <= s.totalFee {
      RoundingCostsAtMostOne(s, m);
      if Value(m) == 1.0 {
        RaisedByOne(s.totalFee - s.resourceFee, m);
        RaisedByOne(s.resourceFee, m);
      }
    } else {
      ExactMultiple(f.numerator, f.denominator);
      assert Raised(0, m) == 0;
    }
  }

  lemma RaisedByOne(value: nat, m: Decimal)
    requires Value(m) == 1.0
    ensures Raised(value, m) == value
  {
    var f := ToFraction(m);
    FractionIsExact(m);
    DivideBack(f.numerator as real, f.denominator as real);
    assert f.numerator == f.denominator;
    ExactMultiple(value, f.denominator);
  }

  // Each limit of the buffered transaction is the least integer at or above its
  // simulated value times the multiplier.
  lemma EachIsRaised(s: Simulated, m: Decimal)
    requires NotNegative(s)
    ensures var b := BufferedBy(s, m);
      && IsRaised(s.resourceFee, m, b.resourceFee) && IsRaised(s.instructions, m, b.instructions)
      && IsRaised(s.diskReadBytes, m, b.diskReadBytes) && IsRaised(s.writeBytes, m, b.writeBytes)
      && IsRaised(if s.totalFee > s.resourceFee then s.totalFee - s.resourceFee else 0, m, b.baseFee)
  {
    forall value: nat
      ensures IsRaised(value, m, Raised(value, m))
    {
      RaisedIsLeast(value, m);
    }
  }

  ghost predicate IsRaised(value: nat, m: Decimal, raised: nat) {
    && value as real * Value(m) <= raised as real
    && forall other: nat {:trigger AtLeast(value, m, other)} :: AtLeast(value, m, other) ==> raised <= other
  }

  ghost predicate AtLeast(value: nat, m: Decimal, other: nat) {
    value as real * Value(m) <= other as real
  }

  lemma RaisedIsLeast(value: nat, m: Decimal)
    ensures IsRaised(value, m, Raised(value, m))
  {
    forall other: nat | AtLeast(value, m, other)
      ensures Raised(value, m) <= other
    {
      MultiplyAndCeilIsLeast(value, m, other);
    }
    MultiplyAndCeilIsLeast(value, m, 0);
  }

  ghost predicate FirstCheckImplied(s: Simulated, m: Decimal, limit: int) {
    NotNegative(s) && TotalBuffered(s, m) <= limit ==> s.totalFee <= limit
  }

  // Comparing the limit with the simulated total is implied by comparing it with
  // the buffered total, for all fees, exactly when the multiplier is at least one.
  lemma FirstCheckRedundantIff(m: Decimal)
    ensures (forall s, limit :: FirstCheckImplied(s, m, limit)) <==> Value(m) >= 1.0
  {
    if Value(m) >= 1.0 {
      forall s, limit
        ensures FirstCheckImplied(s, m, limit)
      {
        if NotNegative(s) {
          BufferedCoversSimulated(s, m);
        }
      }
    } else {
      var f := ToFraction(m);
      AtLeastOneIff(m);
      var s := Simulated(f.denominator, 0, 0, 0, 0);
      ExactMultiple(f.numerator, f.denominator);
      assert TotalBuffered(s, m) == f.numerator;
      assert !FirstCheckImplied(s, m, f.numerator);
    }
  }

  lemma ExactMultiple(n: nat, d: nat)
    requires d > 0
    ensures Ceil(d * n, d) == n && Ceil(0, d) == 0
  {
    CeilBounds(d * n, d);
    var q := Ceil(d * n, d);
    Distribute(q, 1, d);
    Distribute(n, 1, d);
    QuotientOrder(n, q + 1, d);
    QuotientOrder(q, n + 1, d);
  }
}
