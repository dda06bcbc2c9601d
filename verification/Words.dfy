/** Unsigned 64-bit arithmetic: values are reduced modulo 2^64 after every operation. */
module Words {

  const TWO_32: nat := 0x1_0000_0000
  const TWO_64: nat := 0x1_0000_0000_0000_0000

  function Wrap(x: nat): (r: nat)
    ensures r < TWO_64
    ensures x < TWO_64 ==> r == x
  {
    x % TWO_64
  }

  lemma WrapAdd(a: nat, b: nat)
    ensures Wrap(Wrap(a) + b) == Wrap(a + b)
    ensures Wrap(Wrap(a) + Wrap(b)) == Wrap(a + b)
  {
    var p, q := a / TWO_64, b / TWO_64;
    assert a + b == (Wrap(a) + b) + TWO_64 * p;
    SameRemainder(Wrap(a) + b, p);
    assert a + b == (Wrap(a) + Wrap(b)) + TWO_64 * (p + q);
    SameRemainder(Wrap(a) + Wrap(b), p + q);
  }

  /** Reducing a factor first makes no difference to the reduced product. */
  lemma WrapTimes(a: nat, b: nat)
    ensures Wrap(a * Wrap(b)) == Wrap(a * b)
  {
    var q := b / TWO_64;
    assert b == Wrap(b) + TWO_64 * q;
    assert a * b == a * Wrap(b) + TWO_64 * (a * q);
    SameRemainder(a * Wrap(b), a * q);
  }

  lemma WrapSquare(a: nat)
    ensures Wrap(Wrap(a) * Wrap(a)) == Wrap(a * a)
  {
    WrapTimes(Wrap(a), a);
    WrapTimes(a, a);
  }

  lemma SameWrap(a: nat, b: nat)
    requires a <= b
    ensures Wrap(a) == Wrap(b) <==> (b - a) % TWO_64 == 0
  {
    var d, p := b - a, a / TWO_64;
    var q, r := d / TWO_64, d % TWO_64;
    assert b == (Wrap(a) + r) + TWO_64 * (p + q);
    SameRemainder(Wrap(a) + r, p + q);
  }

  lemma SameRemainder(x: nat, k: nat)
    ensures (x + TWO_64 * k) % TWO_64 == x % TWO_64
  {
  }

  // ---------------------------------------------------------------- squares and powers of two

  function Power2(k: nat): nat { if k == 0 then 1 else 2 * Power2(k - 1) }

  lemma {:induction false} Power2Positive(k: nat)
    ensures Power2(k) > 0
  {
    if k > 0 { Power2Positive(k - 1); }
  }

  lemma {:induction false} Power2Sum(j: nat, k: nat)
    ensures Power2(j + k) == Power2(j) * Power2(k)
  {
    if j > 0 {
      Power2Sum(j - 1, k);
      assert Power2(j) * Power2(k) == 2 * (Power2(j - 1) * Power2(k));
    }
  }

  lemma Remainder(x: int, d: int, q: int, r: int)
    requires x == d * q + r && 0 <= r < d
    ensures x % d == r
  {
    var e := x / d - q;
    assert x == d * (x / d) + x % d;
    assert d * e == d * (x / d) - d * q;
    NoMultipleBetween(d, e);
  }

  lemma NoMultipleBetween(d: int, e: int)
    requires -d < d * e < d
    ensures e == 0
  {
  }

  lemma ScaledRemainder(c: nat, x: nat, d: nat)
    requires c > 0 && d > 0
    ensures c * d > 0 && (c * x) % (c * d) == c * (x % d)
  {
    var q, r := x / d, x % d;
    assert x == d * q + r;
    assert c * x == (c * d) * q + c * r;
    assert 0 <= c * r < c * d;
    Remainder(c * x, c * d, q, c * r);
  }

  lemma EvenMultiple(x: nat, d: nat)
    requires d > 0 && x % (2 * d) == 0
    ensures x % 2 == 0
  {
    var q := x / (2 * d);
    assert x == 2 * (d * q);
  }

  lemma OddSquare(t: nat)
    ensures (t * t) % 2 == t % 2
  {
    var u, r := t / 2, t % 2;
    Distribute(t, u, r);
    if r == 0 {
      SameParity(t * t, t * u, 0);
    } else {
      SameParity(t * t, t * u, t);
    }
  }

  lemma SameParity(x: nat, v: nat, t: nat)
    requires x == 2 * v + t
    ensures x % 2 == t % 2
  {
  }

  lemma Distribute(t: nat, u: nat, r: nat)
    ensures t * (2 * u + r) == 2 * (t * u) + t * r
  {
  }

  /** A square is a multiple of 4^k exactly when its root is a multiple of 2^k. */
  lemma {:induction false} SquareMultiple(t: nat, k: nat)
    ensures Power2(k) > 0 && Power2(2 * k) > 0
    ensures (t * t) % Power2(2 * k) == 0 <==> t % Power2(k) == 0
  {
    Power2Positive(k);
    Power2Positive(2 * k);
    if k > 0 {
      var p, s := Power2(k - 1), Power2(2 * k - 2);
      Power2Positive(k - 1);
      Power2Positive(2 * k - 2);
      assert Power2(2 * k) == 2 * (2 * s) && Power2(k) == 2 * p;
      if t % 2 == 1 {
        OddSquare(t);
        if (t * t) % (2 * (2 * s)) == 0 { EvenMultiple(t * t, 2 * s); }
        if t % (2 * p) == 0 { EvenMultiple(t, p); }
      } else {
        var u := t / 2;
        assert t == 2 * u && t * t == 4 * (u * u);
        SquareMultiple(u, k - 1);
        ScaledRemainder(2, u, p);
        ScaledRemainder(4, u * u, s);
      }
    }
  }

  /** The square of a number wraps to zero exactly when the number is a multiple of 2^32. */
  lemma SquareWrapsToZero(t: nat)
    ensures Wrap(t * t) == 0 <==> t % TWO_32 == 0
  {
    hide Power2;
    SquareMultiple(t, 32);
    WordSizes();
  }

  lemma PowerSquared(k: nat, v: nat)
    requires Power2(k) == v
    ensures Power2(2 * k) == v * v
  {
    Power2Sum(k, k);
  }

  lemma WordSizes()
    ensures Power2(32) == TWO_32 && Power2(64) == TWO_64
  {
    assert Power2(4) == 16;
    hide Power2;
    PowerSquared(4, 16);
    PowerSquared(8, 0x100);
    PowerSquared(16, 0x1_0000);
    PowerSquared(32, 0x1_0000_0000);
  }
}
