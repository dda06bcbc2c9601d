/** Jain's fairness index as `PrintFairness` computes it, in unsigned 64-bit arithmetic, against the
    index over the integers. */
module Fairness {
  import opened Words

  function Sum(xs: seq<nat>): nat
  {
    if xs == [] then 0 else Sum(xs[..|xs| - 1]) + xs[|xs| - 1]
  }

  function SumSquares(xs: seq<nat>): nat
  {
    if xs == [] then 0 else SumSquares(xs[..|xs| - 1]) + xs[|xs| - 1] * xs[|xs| - 1]
  }

  /** What a floating-point quotient can be: a zero divisor gives no number or infinity. */
  datatype Index = NotANumber | Infinite | Value(value: real)

  /** The index computed without overflow. */
  ghost function Jain(xs: seq<nat>): Index
  {
    if SumSquares(xs) == 0 || |xs| == 0 then NotANumber
    else Value((Sum(xs) * Sum(xs)) as real / (|xs| * SumSquares(xs)) as real)
  }

  // ---------------------------------------------------------------- Cauchy-Schwarz

  ghost function Spread(xs: seq<nat>, x: int): int
  {
    if xs == [] then 0
    else Spread(xs[..|xs| - 1], x) + (xs[|xs| - 1] - x) * (xs[|xs| - 1] - x)
  }

  lemma Square(x: int)
    ensures x * x >= 0
    ensures x * x == 0 <==> x == 0
  {
  }

  lemma SpreadAlgebra(q: int, t: int, n: int, x: int, y: int)
    ensures (q - 2 * (x * t) + n * (x * x)) + (y - x) * (y - x) == (q + y * y) - 2 * (x * (t + y)) + (n + 1) * (x * x)
  {
    assert (y - x) * (y - x) == y * y - 2 * (x * y) + x * x;
    assert x * (t + y) == x * t + x * y;
    assert (n + 1) * (x * x) == n * (x * x) + x * x;
  }

  lemma {:induction false} SpreadExpanded(xs: seq<nat>, x: int)
    ensures Spread(xs, x) == SumSquares(xs) - 2 * (x * Sum(xs)) + |xs| * (x * x)
  {
    if xs != [] {
      var n := |xs| - 1;
      SpreadExpanded(xs[..n], x);
      SpreadAlgebra(SumSquares(xs[..n]), Sum(xs[..n]), n, x, xs[n]);
    }
  }

  lemma {:induction false} SpreadSign(xs: seq<nat>, x: int)
    ensures Spread(xs, x) >= 0
    ensures Spread(xs, x) == 0 <==> forall i :: 0 <= i < |xs| ==> xs[i] == x
  {
    if xs != [] {
      var n := |xs| - 1;
      SpreadSign(xs[..n], x);
      Square(xs[n] - x);
      assert forall i :: 0 <= i < n ==> xs[..n][i] == xs[i];
    }
  }

  ghost predicate AllEqual(xs: seq<nat>)
  {
    forall i, j :: 0 <= i < |xs| && 0 <= j < |xs| ==> xs[i] == xs[j]
  }

  ghost function Gap(xs: seq<nat>): int { |xs| * SumSquares(xs) - Sum(xs) * Sum(xs) }

  lemma GapAlgebra(q: int, t: int, n: int, x: int)
    ensures (n + 1) * (q + x * x) - (t + x) * (t + x) == (n * q - t * t) + (q - 2 * (x * t) + n * (x * x))
  {
    assert (n + 1) * (q + x * x) == n * q + q + n * (x * x) + x * x;
    assert (t + x) * (t + x) == t * t + 2 * (x * t) + x * x;
  }

  /** n times the sum of squares exceeds the square of the sum by the spreads of all prefixes. */
  lemma GapStep(xs: seq<nat>)
    requires xs != []
    ensures Gap(xs) == Gap(xs[..|xs| - 1]) + Spread(xs[..|xs| - 1], xs[|xs| - 1])
  {
    var n := |xs| - 1;
    SpreadExpanded(xs[..n], xs[n]);
    GapAlgebra(SumSquares(xs[..n]), Sum(xs[..n]), n, xs[n]);
  }

  lemma {:induction false} CauchySchwarz(xs: seq<nat>)
    ensures Gap(xs) >= 0
    ensures Gap(xs) == 0 <==> AllEqual(xs)
  {
    if xs != [] {
      var n := |xs| - 1;
      CauchySchwarz(xs[..n]);
      GapStep(xs);
      SpreadSign(xs[..n], xs[n]);
      assert forall i :: 0 <= i < n ==> xs[..n][i] == xs[i];
      if AllEqual(xs[..n]) && forall i :: 0 <= i < n ==> xs[..n][i] == xs[n] {
        assert forall i :: 0 <= i < |xs| ==> xs[i] == xs[n];
      }
    }
  }

  /** At most one entry is not zero. */
  ghost predicate AtMostOne(xs: seq<nat>)
  {
    forall i, j :: 0 <= i < j < |xs| ==> xs[i] == 0 || xs[j] == 0
  }

  lemma {:induction false} SumZero(xs: seq<nat>)
    ensures Sum(xs) == 0 <==> forall i :: 0 <= i < |xs| ==> xs[i] == 0
    ensures SumSquares(xs) == 0 <==> Sum(xs) == 0
  {
    if xs != [] {
      var n := |xs| - 1;
      SumZero(xs[..n]);
      Square(xs[n]);
      assert forall i :: 0 <= i < n ==> xs[..n][i] == xs[i];
    }
  }

  lemma SquareOfSum(q: int, t: nat, x: nat)
    requires q <= t * t
    ensures q + x * x <= (t + x) * (t + x)
    ensures q + x * x == (t + x) * (t + x) <==> q == t * t && t * x == 0
  {
    assert (t + x) * (t + x) == t * t + 2 * (t * x) + x * x;
    ProductZero(t, x);
  }

  lemma {:induction false} SumSquaresBelow(xs: seq<nat>)
    ensures SumSquares(xs) <= Sum(xs) * Sum(xs)
    ensures SumSquares(xs) == Sum(xs) * Sum(xs) <==> AtMostOne(xs)
  {
    if xs != [] {
      var n := |xs| - 1;
      var t, x := Sum(xs[..n]), xs[n];
      SumSquaresBelow(xs[..n]);
      SumZero(xs[..n]);
      SquareOfSum(SumSquares(xs[..n]), t, x);
      ProductZero(t, x);
      assert forall i :: 0 <= i < n ==> xs[..n][i] == xs[i];
      LastOrRest(xs);
    }
  }

  lemma LastOrRest(xs: seq<nat>)
    requires xs != []
    ensures var n := |xs| - 1;
            AtMostOne(xs) <==> AtMostOne(xs[..n]) && (xs[n] == 0 || forall i :: 0 <= i < n ==> xs[..n][i] == 0)
  {
    var n := |xs| - 1;
    assert forall i :: 0 <= i < n ==> xs[..n][i] == xs[i];
  }

  lemma ProductZero(a: nat, b: nat)
    ensures a * b >= 0
    ensures a * b == 0 <==> a == 0 || b == 0
  {
  }

  // ---------------------------------------------------------------- bounds of the index

  lemma AtMostQuotient(x: real, a: real, b: real, y: real)
    requires b > 0.0 && x * b == a
    ensures x <= y <==> a <= y * b
    ensures x >= y <==> a >= y * b
  {
  }

  lemma CrossMultiply(a: real, b: real, c: real)
    requires b > 0.0 && c > 0.0
    ensures a / b >= 1.0 / c <==> c * a >= b
    ensures a / b <= 1.0 / c <==> c * a <= b
  {
    var x, y := a / b, 1.0 / c;
    assert x * b == a && y * c == 1.0;
    AtMostQuotient(x, a, b, y);
    assert y * b * c == b;
    AtMostQuotient(y * b, b, c, a);
  }

  lemma Quotient(a: int, b: int, c: int)
    requires b > 0 && c > 0
    ensures a <= b <==> a as real / b as real <= 1.0
    ensures a == b <==> a as real / b as real == 1.0
    ensures c * a >= b <==> a as real / b as real >= 1.0 / c as real
    ensures c * a == b <==> a as real / b as real == 1.0 / c as real
  {
    QuotientOne(a, b);
    QuotientShare(a, b, c);
  }

  lemma QuotientOne(a: int, b: int)
    requires b > 0
    ensures a <= b <==> a as real / b as real <= 1.0
    ensures a == b <==> a as real / b as real == 1.0
  {
    var x, y := a as real, b as real;
    var q := x / y;
    assert q * y == x;
    AtMostQuotient(q, x, y, 1.0);
  }

  lemma QuotientShare(a: int, b: int, c: int)
    requires b > 0 && c > 0
    ensures c * a >= b <==> a as real / b as real >= 1.0 / c as real
    ensures c * a == b <==> a as real / b as real == 1.0 / c as real
  {
    var x, y, z := a as real, b as real, c as real;
    assert (c * a) as real == z * x;
    CrossMultiply(x, y, z);
  }

  /** For every vector that is not all zero the index lies between 1/n and 1; it is 1 exactly when all
      counts are equal and 1/n exactly when one flow got everything. */
  lemma JainBounds(xs: seq<nat>)
    requires Sum(xs) > 0
    ensures Jain(xs).Value?
    ensures 1.0 / |xs| as real <= Jain(xs).value <= 1.0
    ensures Jain(xs).value == 1.0 <==> AllEqual(xs)
    ensures Jain(xs).value == 1.0 / |xs| as real <==> AtMostOne(xs)
  {
    SumZero(xs);
    CauchySchwarz(xs);
    SumSquaresBelow(xs);
    var a, q, n := Sum(xs) * Sum(xs), SumSquares(xs), |xs|;
    Positive(n, q);
    Quotient(a, n * q, n);
    Scale(n, a, q);
  }

  lemma Positive(n: int, q: int)
    requires n > 0 && q > 0
    ensures n * q > 0 && n * q >= q
  {
  }

  lemma Scale(n: int, a: int, q: int)
    requires n > 0
    ensures n * a >= n * q <==> a >= q
    ensures n * a == n * q <==> a == q
  {
  }

  // ---------------------------------------------------------------- overflow

  /** Every value the computation forms fits in 64 bits. */
  ghost predicate Fits(xs: seq<nat>)
  {
    && (forall k :: 0 <= k <= |xs| ==> Sum(xs[..k]) < TWO_64 && SumSquares(xs[..k]) < TWO_64)
    && (forall k :: 0 <= k < |xs| ==> xs[k] * xs[k] < TWO_64)
    && Sum(xs) * Sum(xs) < TWO_64
    && |xs| * SumSquares(xs) < TWO_64
  }

  lemma {:induction false} PrefixBelow(xs: seq<nat>, k: nat)
    requires k <= |xs|
    ensures Sum(xs[..k]) <= Sum(xs) && SumSquares(xs[..k]) <= SumSquares(xs)
    ensures k < |xs| ==> xs[k] * xs[k] <= SumSquares(xs)
    decreases |xs|
  {
    if k == |xs| {
      assert xs[..k] == xs;
    } else {
      var n := |xs| - 1;
      Square(xs[n]);
      SquaresNonNegative(xs[..n]);
      if k < n {
        PrefixBelow(xs[..n], k);
        assert xs[..n][..k] == xs[..k];
      }
    }
  }

  lemma SquaresNonNegative(xs: seq<nat>)
    ensures SumSquares(xs) >= 0
  {
  }

  lemma BelowSquare(t: nat)
    ensures t <= t * t
  {
  }

  /** The divisor is the largest value formed, so the computation is overflow-free exactly when the
      number of flows times the sum of squares is below 2^64. */
  lemma FitsExactlyWhen(xs: seq<nat>)
    requires xs != []
    ensures Fits(xs) <==> |xs| * SumSquares(xs) < TWO_64
  {
    if |xs| * SumSquares(xs) < TWO_64 {
      CauchySchwarz(xs);
      BelowSquare(Sum(xs));
      assert SumSquares(xs) == 0 || SumSquares(xs) <= |xs| * SumSquares(xs) by {
        if SumSquares(xs) > 0 { Positive(|xs|, SumSquares(xs)); }
      }
      forall k | 0 <= k <= |xs|
        ensures Sum(xs[..k]) < TWO_64 && SumSquares(xs[..k]) < TWO_64
        ensures k < |xs| ==> xs[k] * xs[k] < TWO_64
      {
        PrefixBelow(xs, k);
      }
    }
  }

  lemma {:induction false} SumSquaresBounded(xs: seq<nat>, b: nat)
    requires forall i :: 0 <= i < |xs| ==> xs[i] <= b
    ensures SumSquares(xs) <= |xs| * (b * b)
  {
    if xs != [] {
      var n := |xs| - 1;
      SumSquaresBounded(xs[..n], b);
      MonotoneProduct(xs[n], b, xs[n], b);
      assert (n + 1) * (b * b) == n * (b * b) + b * b;
    }
  }

  lemma MonotoneProduct(a: nat, b: nat, c: nat, d: nat)
    requires a <= b && c <= d
    ensures a * c <= b * d
  {
    assert a * c <= b * c;
    assert b * c <= b * d;
  }

  /** Counts bounded by b with n * b below 2^32 never overflow. */
  lemma BoundedCountsFit(xs: seq<nat>, b: nat)
    requires xs != [] && (forall i :: 0 <= i < |xs| ==> xs[i] <= b) && |xs| * b < 0x1_0000_0000
    ensures Fits(xs)
  {
    var n, m := |xs|, |xs| * b;
    SumSquaresBounded(xs, b);
    MonotoneProduct(n, n, SumSquares(xs), n * (b * b));
    assert n * (n * (b * b)) == m * m;
    MonotoneProduct(m, 0xFFFF_FFFF, m, 0xFFFF_FFFF);
    FitsExactlyWhen(xs);
  }

  lemma {:induction false} Constant(xs: seq<nat>, b: nat)
    requires forall i :: 0 <= i < |xs| ==> xs[i] == b
    ensures Sum(xs) == |xs| * b && SumSquares(xs) == |xs| * (b * b)
  {
    if xs != [] {
      var n := |xs| - 1;
      Constant(xs[..n], b);
      assert (n + 1) * (b * b) == n * (b * b) + b * b;
      assert (n + 1) * b == n * b + b;
    }
  }

  // ---------------------------------------------------------------- the program

  /** What the program computes: every intermediate result is reduced to 64 bits. */
  function Computed(xs: seq<nat>): Index
  {
    var sum, sumSquares := Wrap(Sum(xs)), Wrap(SumSquares(xs));
    var divisor := Wrap(|xs| * sumSquares);
    Divide(Wrap(sum * sum), divisor)
  }

  function Divide(a: nat, b: nat): Index
  {
    if b != 0 then Value(a as real / b as real) else if a == 0 then NotANumber else Infinite
  }

  /** Reducing the intermediate results is the same as reducing the exact square and divisor. */
  lemma ComputedFromExact(xs: seq<nat>)
    ensures Computed(xs) == Divide(Wrap(Sum(xs) * Sum(xs)), Wrap(|xs| * SumSquares(xs)))
  {
    WrapSquare(Sum(xs));
    WrapTimes(|xs|, SumSquares(xs));
  }

  lemma SameQuotient(a: int, b: int, c: int, d: int)
    requires b > 0 && d > 0
    ensures a as real / b as real == c as real / d as real <==> a * d == c * b
  {
    var x, y := a as real / b as real, c as real / d as real;
    assert x * b as real == a as real && y * d as real == c as real;
    assert (a * d) as real == x * (b as real * d as real);
    assert (c * b) as real == y * (b as real * d as real);
    CancelFactor(x, y, b as real * d as real);
  }

  lemma CancelFactor(x: real, y: real, f: real)
    requires f > 0.0
    ensures x == y <==> x * f == y * f
  {
  }

  /** The remainders are in the ratio of the numbers exactly when the quotients are. */
  lemma SameRatio(a: nat, b: nat)
    ensures Wrap(a) * b == a * Wrap(b) <==> (a / TWO_64) * b == a * (b / TWO_64)
  {
    var p, q := a / TWO_64, b / TWO_64;
    assert a * b == Wrap(a) * b + TWO_64 * (p * b);
    assert a * b == a * Wrap(b) + TWO_64 * (a * q);
  }

  /** The program computes the index exactly when all counts are zero, or the divisor does not wrap to
      zero and the overflows of the square and the divisor are in the ratio of these two; so always
      without overflow. */
  lemma ComputedIsJain(xs: seq<nat>)
    requires xs != []
    ensures var square, divisor := Sum(xs) * Sum(xs), |xs| * SumSquares(xs);
            Computed(xs) == Jain(xs) <==>
              || Sum(xs) == 0
              || (divisor % TWO_64 != 0 && (square / TWO_64) * divisor == square * (divisor / TWO_64))
    ensures |xs| * SumSquares(xs) < TWO_64 ==> Computed(xs) == Jain(xs)
  {
    var a, b := Sum(xs) * Sum(xs), |xs| * SumSquares(xs);
    ComputedFromExact(xs);
    SumZero(xs);
    CauchySchwarz(xs);
    if Sum(xs) > 0 {
      Positive(|xs|, SumSquares(xs));
      SameRatio(a, b);
      if Wrap(b) != 0 { SameQuotient(Wrap(a), Wrap(b), a, b); }
      assert b < TWO_64 ==> a / TWO_64 == 0 && b / TWO_64 == 0;
    }
  }

  /** Three flows with 1, 2 and 3 bytes. */
  lemma ExampleIndex()
    ensures Jain([1, 2, 3]) == Value(36.0 / 42.0) && Computed([1, 2, 3]) == Value(36.0 / 42.0)
  {
    var xs: seq<nat> := [1, 2, 3];
    assert xs[..0] == [] && xs[..1] == [1] && xs[..2] == [1, 2] && xs[..2][..1] == xs[..1];
    assert Sum(xs[..1]) == 1 && Sum(xs[..2]) == 3 && Sum(xs) == 6;
    assert SumSquares(xs[..1]) == 1 && SumSquares(xs[..2]) == 5 && SumSquares(xs) == 14;
    ComputedIsJain(xs);
  }

  // ---------------------------------------------------------------- what the program says about equality

  /** Whether the square of the sum and the divisor agree modulo 2^64. */
  lemma SameWrapped(xs: seq<nat>)
    ensures Wrap(Sum(xs) * Sum(xs)) == Wrap(|xs| * SumSquares(xs)) <==> Gap(xs) % TWO_64 == 0
  {
    CauchySchwarz(xs);
    SameWrap(Sum(xs) * Sum(xs), |xs| * SumSquares(xs));
  }

  /** For every vector, overflow or not: 1 is reported exactly when the gap of Cauchy and Schwarz is a
      multiple of 2^64 and the sum is no multiple of 2^32; no number when both are, and infinity when
      the divisor alone is a multiple of 2^64. */
  lemma ReportsOneExactlyWhen(xs: seq<nat>)
    requires xs != []
    ensures Computed(xs) == Value(1.0) <==> Gap(xs) % TWO_64 == 0 && Sum(xs) % TWO_32 != 0
    ensures Computed(xs) == NotANumber <==> Gap(xs) % TWO_64 == 0 && Sum(xs) % TWO_32 == 0
    ensures Computed(xs) == Infinite <==> (|xs| * SumSquares(xs)) % TWO_64 == 0 && Sum(xs) % TWO_32 != 0
  {
    var a, b := Wrap(Sum(xs) * Sum(xs)), Wrap(|xs| * SumSquares(xs));
    ComputedFromExact(xs);
    SameWrapped(xs);
    SquareWrapsToZero(Sum(xs));
    if b != 0 { Quotient(a, b, 1); }
  }

  /** Equal counts are reported as such exactly when their sum is no multiple of 2^32. */
  lemma EqualCountsReported(xs: seq<nat>)
    requires xs != [] && AllEqual(xs)
    ensures Computed(xs) == if Sum(xs) % TWO_32 == 0 then NotANumber else Value(1.0)
  {
    CauchySchwarz(xs);
    ReportsOneExactlyWhen(xs);
  }

  /** Both directions fail. Ten equal counts of 2^32 have index 1, but no number is reported. */
  lemma OverflowLosesIndex()
    ensures var xs := seq(10, _ => 0x1_0000_0000);
            && AllEqual(xs) && Computed(xs) == NotANumber
            && Sum(xs) == 10 * 0x1_0000_0000
  {
    var xs: seq<nat> := seq(10, _ => 0x1_0000_0000);
    Constant(xs, 0x1_0000_0000);
    EqualCountsReported(xs);
  }

  /** Nine counts of 1 and one of 2^32 + 1 are far from equal, but 1 is reported. */
  lemma OverflowFakesEquality()
    ensures var xs := seq(9, _ => 1) + [0x1_0000_0001];
            !AllEqual(xs) && Computed(xs) == Value(1.0)
  {
    var ones: seq<nat> := seq(9, _ => 1);
    var xs := ones + [0x1_0000_0001];
    Constant(ones, 1);
    assert xs[..9] == ones;
    assert xs[0] != xs[9];
    ReportsOneExactlyWhen(xs);
  }

  /** One group of flows: the loop over the counters and the quotient. */
  method ComputeFairness(bytes: array<nat>) returns (fairness: Index)
    ensures fairness == Computed(bytes[..])
  {
    hide Wrap;
    var sum: nat, sumSquares: nat := 0, 0;
    for i := 0 to bytes.Length
      invariant sum == Wrap(Sum(bytes[..i])) && sumSquares == Wrap(SumSquares(bytes[..i]))
    {
      var square := bytes[i] * bytes[i];
      assert bytes[..i + 1][..i] == bytes[..i];
      WrapAdd(Sum(bytes[..i]), bytes[i]);
      WrapAdd(SumSquares(bytes[..i]), square);
      sum := Wrap(sum + bytes[i]);
      sumSquares := Wrap(sumSquares + Wrap(square));
    }
    assert bytes[..bytes.Length] == bytes[..];
    var divisor := Wrap(bytes.Length * sumSquares);
    fairness := Divide(Wrap(sum * sum), divisor);
  }

  // ---------------------------------------------------------------- the counters

  datatype Group = S1R1 | S2R2 | S3R1

  function Flows(group: Group): nat { if group == S2R2 then 20 else 10 }

  /** A packet received by the sink of one flow; the sinks are numbered within their group. */
  datatype Packet = Packet(group: Group, index: nat, size: nat)

  ghost predicate Deliverable(packets: seq<Packet>)
  {
    forall k :: 0 <= k < |packets| ==> packets[k].index < Flows(packets[k].group)
  }

  /** The bytes a flow received. */
  function BytesOf(packets: seq<Packet>, group: Group, index: nat): nat
  {
    if packets == [] then 0
    else
      var n := |packets| - 1;
      BytesOf(packets[..n], group, index)
      + (if packets[n].group == group && packets[n].index == index then packets[n].size else 0)
  }

  /** What the counters of a group hold after the packets, having been zero before. */
  function Received(packets: seq<Packet>, group: Group): (r: seq<nat>)
    ensures |r| == Flows(group)
  {
    seq(Flows(group), i requires 0 <= i => Wrap(BytesOf(packets, group, i)))
  }

  lemma ReceivedNext(packets: seq<Packet>, k: nat, group: Group)
    requires k < |packets| && packets[k].index < Flows(packets[k].group)
    ensures var p, before := packets[k], Received(packets[..k], group);
            Received(packets[..k + 1], group) ==
              if p.group == group then before[p.index := Wrap(before[p.index] + p.size)] else before
  {
    hide Wrap;
    var p := packets[k];
    assert packets[..k + 1][..k] == packets[..k];
    if p.group == group { WrapAdd(BytesOf(packets[..k], group, p.index), p.size); }
  }

  /** The byte counters of the three groups of flows. */
  class Counters {
    const rxS1R1Bytes: array<nat>
    const rxS2R2Bytes: array<nat>
    const rxS3R1Bytes: array<nat>

    ghost predicate Valid()
      reads this
    {
      && rxS1R1Bytes.Length == 10 && rxS2R2Bytes.Length == 20 && rxS3R1Bytes.Length == 10
      && rxS1R1Bytes != rxS2R2Bytes && rxS1R1Bytes != rxS3R1Bytes && rxS2R2Bytes != rxS3R1Bytes
    }

    /** The counters of the group. */
    function Bytes(group: Group): array<nat>
    {
      match group
      case S1R1 => rxS1R1Bytes
      case S2R2 => rxS2R2Bytes
      case S3R1 => rxS3R1Bytes
    }

    /** The counters hold what the packets brought. */
    ghost predicate Holds(packets: seq<Packet>)
      reads this, rxS1R1Bytes, rxS2R2Bytes, rxS3R1Bytes
    {
      && rxS1R1Bytes[..] == Received(packets, S1R1)
      && rxS2R2Bytes[..] == Received(packets, S2R2)
      && rxS3R1Bytes[..] == Received(packets, S3R1)
    }

    constructor ()
      ensures Valid() && fresh(rxS1R1Bytes) && fresh(rxS2R2Bytes) && fresh(rxS3R1Bytes)
    {
      rxS1R1Bytes, rxS2R2Bytes, rxS3R1Bytes := new nat[10], new nat[20], new nat[10];
    }

    /** The sink callback of a group: only the counter of the flow the packet belongs to changes. */
    method TraceSink(p: Packet)
      requires Valid() && p.index < Flows(p.group)
      modifies Bytes(p.group)
      ensures Bytes(p.group)[..] == old(Bytes(p.group)[..])[p.index := Wrap(old(Bytes(p.group)[p.index]) + p.size)]
    {
      var bytes := Bytes(p.group);
      bytes[p.index] := Wrap(bytes[p.index] + p.size);
    }

    method InitializeCounters()
      requires Valid()
      modifies rxS1R1Bytes, rxS2R2Bytes, rxS3R1Bytes
      ensures Holds([])
    {
      Clear(rxS1R1Bytes);
      Clear(rxS2R2Bytes);
      Clear(rxS3R1Bytes);
    }

    method Clear(bytes: array<nat>)
      modifies bytes
      ensures forall k :: 0 <= k < bytes.Length ==> bytes[k] == 0
    {
      for i := 0 to bytes.Length
        invariant forall k :: 0 <= k < i ==> bytes[k] == 0
      {
        bytes[i] := 0;
      }
    }

    /** Packets arriving one after the other; from zero the counters come to hold what they brought. */
    method Receive(packets: seq<Packet>)
      requires Valid() && Deliverable(packets)
      modifies rxS1R1Bytes, rxS2R2Bytes, rxS3R1Bytes
      ensures old(Holds([])) ==> Holds(packets)
    {
      for k := 0 to |packets|
        invariant old(Holds([])) ==> Holds(packets[..k])
      {
        ReceiveOne(packets, k);
      }
      assert packets[..|packets|] == packets;
    }

    method ReceiveOne(packets: seq<Packet>, k: nat)
      requires Valid() && k < |packets| && packets[k].index < Flows(packets[k].group)
      modifies rxS1R1Bytes, rxS2R2Bytes, rxS3R1Bytes
      ensures old(Holds(packets[..k])) ==> Holds(packets[..k + 1])
    {
      hide Received, Wrap;
      ReceivedNext(packets, k, S1R1);
      ReceivedNext(packets, k, S2R2);
      ReceivedNext(packets, k, S3R1);
      TraceSink(packets[k]);
    }

    /** The three indices printed at the end of the measurement window. */
    method PrintFairness() returns (s1: Index, s2: Index, s3: Index)
      requires Valid()
      ensures Reported(rxS1R1Bytes[..], s1) && Reported(rxS2R2Bytes[..], s2) && Reported(rxS3R1Bytes[..], s3)
    {
      hide Reported, Computed;
      s1 := ComputeFairness(rxS1R1Bytes);
      ReportedFairness(rxS1R1Bytes[..]);
      s2 := ComputeFairness(rxS2R2Bytes);
      ReportedFairness(rxS2R2Bytes[..]);
      s3 := ComputeFairness(rxS3R1Bytes);
      ReportedFairness(rxS3R1Bytes[..]);
    }
  }

  /** A whole run: whatever arrives while the flows converge, the indices are those of the bytes each flow
      receives between the reset and the report. */
  method Measure(converging: seq<Packet>, measured: seq<Packet>) returns (s1: Index, s2: Index, s3: Index)
    requires Deliverable(converging) && Deliverable(measured)
    ensures Reported(Received(measured, S1R1), s1)
    ensures Reported(Received(measured, S2R2), s2)
    ensures Reported(Received(measured, S3R1), s3)
  {
    hide Reported, Received;
    var counters := new Counters();
    counters.Receive(converging);
    counters.InitializeCounters();
    counters.Receive(measured);
    s1, s2, s3 := counters.PrintFairness();
  }

  /** What is reported for the counts: the computed quotient, with the exact conditions under which it
      is 1, no number or infinite; without overflow the index, with its bounds and what 1 means. */
  ghost predicate Reported(xs: seq<nat>, fairness: Index)
  {
    && fairness == Computed(xs)
    && (fairness == Value(1.0) <==> Gap(xs) % TWO_64 == 0 && Sum(xs) % TWO_32 != 0)
    && (fairness == NotANumber <==> Gap(xs) % TWO_64 == 0 && Sum(xs) % TWO_32 == 0)
    && (fairness == Infinite <==> (|xs| * SumSquares(xs)) % TWO_64 == 0 && Sum(xs) % TWO_32 != 0)
    && (AllEqual(xs) ==> fairness == if Sum(xs) % TWO_32 == 0 then NotANumber else Value(1.0))
    && (|xs| * SumSquares(xs) < TWO_64 ==>
          if Sum(xs) == 0 then fairness.NotANumber?
          else
            && fairness == Jain(xs)
            && fairness.Value?
            && 1.0 / |xs| as real <= fairness.value <= 1.0
            && (fairness.value == 1.0 <==> AllEqual(xs)))
  }

  lemma ReportedFairness(xs: seq<nat>)
    requires |xs| > 0
    ensures Reported(xs, Computed(xs))
  {
    ReportsOneExactlyWhen(xs);
    if AllEqual(xs) { EqualCountsReported(xs); }
    if |xs| * SumSquares(xs) < TWO_64 {
      ComputedIsJain(xs);
      SumZero(xs);
      if Sum(xs) > 0 { JainBounds(xs); }
    }
  }
}
