/** Bitwise operations on naturals, defined bit by bit, and the arithmetic of powers of two. */
module Bits {

  function Pow2(n: nat): (p: nat)
    ensures p >= 1
  {
    if n == 0 then 1 else 2 * Pow2(n - 1)
  }

  /** Bitwise exclusive or. */
  function Xor(a: nat, b: nat): nat
    decreases a + b
  {
    if a == 0 && b == 0 then 0
    else (if a % 2 != b % 2 then 1 else 0) + 2 * Xor(a / 2, b / 2)
  }

  /** Bitwise and. */
  function And(a: nat, b: nat): nat
  {
    if a == 0 || b == 0 then 0
    else (if a % 2 == 1 && b % 2 == 1 then 1 else 0) + 2 * And(a / 2, b / 2)
  }

  lemma MulGap(m: int, d: int)
    requires m >= 0
    ensures d >= 1 ==> m * d >= m
    ensures d <= -1 ==> m * d <= -m
  {
  }

  lemma QuotientIsNat(i: nat, m: nat)
    requires m > 0
    ensures i / m >= 0
  {
    MulGap(m, i / m);
    assert i == m * (i / m) + i % m;
  }

  lemma DivMonotone(i: nat, j: nat, m: nat)
    requires i <= j && m > 0
    ensures i / m <= j / m
  {
    var p, q := i / m, j / m;
    assert i == m * p + i % m && j == m * q + j % m;
    MulGap(m, p - q);
    assert m * p == m * q + m * (p - q);
  }

  lemma MulOrder(a: nat, b: nat, m: nat)
    ensures a >= b ==> a * m >= b * m
  {
    if a >= b {
      assert a * m == b * m + (a - b) * m;
    }
  }

  lemma QuotientAtMost(x: nat, m: nat)
    requires m > 0
    ensures 0 <= x / m <= x
  {
    QuotientIsNat(x, m);
    var q := x / m;
    assert x == m * q + x % m;
    MulOrder(m, 1, q);
  }

  lemma DoubleFactor(x: nat, y: nat)
    ensures (2 * x) * y == 2 * (x * y)
  {
  }

  lemma ModUnique(a: nat, m: nat, q: nat, r: nat)
    requires m > 0 && r < m && a == m * q + r
    ensures a % m == r && a / m == q
  {
    var d := q - a / m;
    assert m * d == a % m - r;
    MulGap(m, d);
  }

  /** Taking the low bit off a residue modulo a power of two. */
  lemma ModSplit(a: nat, k: nat)
    requires k > 0
    ensures a % Pow2(k) == a % 2 + 2 * ((a / 2) % Pow2(k - 1))
  {
    var m := Pow2(k - 1);
    var q, r := (a / 2) / m, (a / 2) % m;
    assert a / 2 == m * q + r;
    assert a == (2 * m) * q + (2 * r + a % 2);
    ModUnique(a, 2 * m, q, 2 * r + a % 2);
  }

  lemma {:induction false} XorCommutes(a: nat, b: nat)
    ensures Xor(a, b) == Xor(b, a)
    decreases a + b
  {
    if a != 0 || b != 0 {
      XorCommutes(a / 2, b / 2);
    }
  }

  lemma {:induction false} XorCancels(a: nat, b: nat)
    ensures Xor(Xor(a, b), b) == a
    decreases a + b
  {
    if a != 0 || b != 0 {
      XorCancels(a / 2, b / 2);
      var x := Xor(a, b);
      assert x / 2 == Xor(a / 2, b / 2);
      if x == 0 && b == 0 {
        XorZero(a);
      }
    }
  }

  lemma {:induction false} XorZero(a: nat)
    ensures Xor(a, 0) == a
  {
    if a != 0 {
      XorZero(a / 2);
    }
  }

  lemma XorHalves(a: nat, b: nat)
    ensures Xor(a, b) / 2 == Xor(a / 2, b / 2)
    ensures Xor(a, b) % 2 == if a % 2 != b % 2 then 1 else 0
  {
  }

  lemma LowBitFirst(x: nat, bit: nat, rest: nat)
    requires x == bit + 2 * rest && bit < 2
    ensures x % 2 == bit && x / 2 == rest
  {
  }

  lemma {:induction false} XorMod(a: nat, b: nat, k: nat)
    ensures Xor(a, b) % Pow2(k) == Xor(a % Pow2(k), b % Pow2(k))
    decreases k
  {
    if k > 0 {
      ModSplit(a, k);
      ModSplit(b, k);
      ModSplit(Xor(a, b), k);
      XorMod(a / 2, b / 2, k - 1);
      XorHalves(a, b);
      XorHalves(a % Pow2(k), b % Pow2(k));
      LowBitFirst(a % Pow2(k), a % 2, (a / 2) % Pow2(k - 1));
      LowBitFirst(b % Pow2(k), b % 2, (b / 2) % Pow2(k - 1));
      hide Pow2, Xor;
    }
  }

  lemma XorBound(a: nat, b: nat, k: nat)
    requires a < Pow2(k) && b < Pow2(k)
    ensures Xor(a, b) < Pow2(k)
  {
    XorMod(a, b, k);
    ModUnique(a, Pow2(k), 0, a);
    ModUnique(b, Pow2(k), 0, b);
  }

  /** Masking with 2^k - 1 is reduction modulo 2^k. */
  lemma {:induction false} MaskIsMod(x: nat, k: nat)
    ensures And(x, Pow2(k) - 1) == x % Pow2(k)
    decreases k
  {
    if k > 0 {
      ModSplit(x, k);
      MaskIsMod(x / 2, k - 1);
      var mask := Pow2(k) - 1;
      assert mask % 2 == 1 && mask / 2 == Pow2(k - 1) - 1;
    }
  }

  lemma {:induction false} Pow2Monotone(a: nat, b: nat)
    requires a <= b
    ensures Pow2(a) <= Pow2(b)
    ensures a < b ==> Pow2(a) < Pow2(b)
    decreases b - a
  {
    if a < b {
      Pow2Monotone(a + 1, b);
    }
  }

  lemma {:induction false} Pow2Adds(a: nat, b: nat)
    ensures Pow2(a) * Pow2(b) == Pow2(a + b)
  {
    if a > 0 {
      Pow2Adds(a - 1, b);
      DoubleFactor(Pow2(a - 1), Pow2(b));
    }
  }

  /** A residue modulo 2^j reduces further to the residue modulo a smaller power. */
  lemma {:induction false} ModNested(x: nat, k: nat, j: nat)
    requires k <= j
    ensures (x % Pow2(j)) % Pow2(k) == x % Pow2(k)
    decreases k
  {
    if k > 0 {
      var y := x % Pow2(j);
      ModSplit(x, j);
      ModSplit(x, k);
      ModSplit(y, k);
      assert y / 2 == (x / 2) % Pow2(j - 1);
      ModNested(x / 2, k - 1, j - 1);
    }
  }

  /** Dividing by a power of two, one bit at a time. */
  lemma DivSplit(x: nat, k: nat)
    requires k > 0
    ensures x / Pow2(k) == (x / 2) / Pow2(k - 1)
  {
    var m := Pow2(k - 1);
    var q, r := (x / 2) / m, (x / 2) % m;
    assert x / 2 == m * q + r;
    QuotientIsNat(x / 2, m);
    assert x == (2 * m) * q + (2 * r + x % 2);
    ModUnique(x, 2 * m, q, 2 * r + x % 2);
  }

  lemma {:induction false} XorDiv(a: nat, b: nat, k: nat)
    ensures a / Pow2(k) >= 0 && b / Pow2(k) >= 0
    ensures Xor(a, b) / Pow2(k) == Xor(a / Pow2(k), b / Pow2(k))
    decreases k
  {
    QuotientIsNat(a, Pow2(k));
    QuotientIsNat(b, Pow2(k));
    if k > 0 {
      DivSplit(a, k);
      DivSplit(b, k);
      DivSplit(Xor(a, b), k);
      XorHalves(a, b);
      XorDiv(a / 2, b / 2, k - 1);
      hide Pow2, Xor;
    }
  }

  lemma {:induction false} DivTwice(x: nat, j: nat, k: nat)
    ensures x / Pow2(j) >= 0 && x / Pow2(j) / Pow2(k) == x / Pow2(j + k)
    decreases j
  {
    QuotientIsNat(x, Pow2(j));
    if j > 0 {
      DivSplit(x, j);
      DivSplit(x, j + k);
      DivTwice(x / 2, j - 1, k);
      hide Pow2;
    }
  }

  /** The bits from k on of the low j bits. */
  lemma {:induction false} DivOfMod(x: nat, j: nat, k: nat, m: nat)
    requires k + m <= j
    ensures x / Pow2(k) >= 0 && x % Pow2(j) / Pow2(k) >= 0
    ensures x % Pow2(j) / Pow2(k) % Pow2(m) == x / Pow2(k) % Pow2(m)
    decreases k
  {
    QuotientIsNat(x, Pow2(k));
    QuotientIsNat(x % Pow2(j), Pow2(k));
    if k == 0 {
      ModNested(x, m, j);
    } else {
      var y := x % Pow2(j);
      ModSplit(x, j);
      LowBitFirst(y, x % 2, (x / 2) % Pow2(j - 1));
      DivSplit(x, k);
      DivSplit(y, k);
      DivOfMod(x / 2, j - 1, k - 1, m);
      hide Pow2;
    }
  }

  /** One more index bit leaves a residue alone or adds exactly the new top bit. */
  lemma ModNextBit(x: nat, k: nat)
    ensures x % Pow2(k + 1) == x % Pow2(k) || x % Pow2(k + 1) == x % Pow2(k) + Pow2(k)
  {
    var m := Pow2(k);
    var y := x % Pow2(k + 1);
    ModNested(x, k, k + 1);
    if y < m {
      ModUnique(y, m, 0, y);
    } else {
      ModUnique(y, m, 1, y - m);
    }
  }

  lemma OddProduct(x: nat, c: nat)
    requires c % 2 == 1
    ensures (x * c) % 2 == x % 2
    ensures x % 2 == 0 ==> (x * c) / 2 == (x / 2) * c
  {
    var d := c / 2;
    assert x * c == 2 * (x * d) + x;
    LowBitFirst(x * c, x % 2, x * d + x / 2);
    if x % 2 == 0 {
      assert x * c == 2 * ((x / 2) * c);
    }
  }

  /** An odd factor does not affect divisibility by a power of two. */
  lemma {:induction false} OddFactor(x: nat, c: nat, k: nat)
    requires c % 2 == 1
    ensures (x * c) % Pow2(k) == 0 <==> x % Pow2(k) == 0
    decreases k
  {
    if k > 0 {
      OddProduct(x, c);
      ModSplit(x * c, k);
      ModSplit(x, k);
      OddFactor(x / 2, c, k - 1);
      hide Pow2;
    }
  }
}
