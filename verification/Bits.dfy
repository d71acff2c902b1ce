/** Non-negative integers as bit strings of any length. */
module Bits {

  function Pow2(k: nat): (p: nat)
    ensures p >= 1
  {
    if k == 0 then 1 else 2 * Pow2(k - 1)
  }

  function Popcount(n: nat): nat {
    if n == 0 then 0 else n % 2 + Popcount(n / 2)
  }

  function And(a: nat, b: nat): nat
    decreases a
  {
    if a == 0 || b == 0 then 0 else (a % 2) * (b % 2) + 2 * And(a / 2, b / 2)
  }

  function Or(a: nat, b: nat): nat
    decreases a
  {
    if a == 0 then b else if b == 0 then a
    else (if a % 2 + b % 2 > 0 then 1 else 0) + 2 * Or(a / 2, b / 2)
  }

  function Xor(a: nat, b: nat): nat
    decreases a
  {
    if a == 0 then b else if b == 0 then a
    else (a % 2 + b % 2) % 2 + 2 * Xor(a / 2, b / 2)
  }

  /** `n >> k`. */
  function Shr(n: nat, k: nat): nat
    decreases k
  {
    if k == 0 then n else Shr(n / 2, k - 1)
  }

  /** The low `k` bits. */
  function Low(n: nat, k: nat): nat
    decreases k
  {
    if k == 0 then 0 else n % 2 + 2 * Low(n / 2, k - 1)
  }

  /** `n << k`. */
  function Shl(n: nat, k: nat): nat {
    n * Pow2(k)
  }

  /** The number with bit `k` changed. */
  function Flip(n: nat, k: nat): nat
    decreases k
  {
    if k == 0 then (if n % 2 == 0 then n + 1 else n - 1) else n % 2 + 2 * Flip(n / 2, k - 1)
  }

  lemma {:induction false} ShrIsDiv(n: nat, k: nat)
    ensures Shr(n, k) * Pow2(k) + Low(n, k) == n && Low(n, k) < Pow2(k)
    decreases k
  {
    if k > 0 {
      ShrIsDiv(n / 2, k - 1);
      var q, l, p := Shr(n / 2, k - 1), Low(n / 2, k - 1), Pow2(k - 1);
      TwiceProduct(q, p);
      Recombine(n, q * p, l, p);
    }
  }

  lemma {:induction false} TwiceProduct(q: nat, p: nat)
    ensures q * (2 * p) == 2 * (q * p)
  {
  }

  lemma {:induction false} Recombine(n: nat, high: nat, low: nat, p: nat)
    requires n / 2 == high + low && low < p
    ensures 2 * high + (n % 2 + 2 * low) == n && n % 2 + 2 * low < 2 * p
  {
  }

  // ---- What single bits are ----

  function Bit(n: nat, k: nat): nat {
    Shr(n, k) % 2
  }

  lemma {:induction false} BitStep(b: nat, m: nat, k: nat)
    requires b <= 1
    ensures Bit(b + 2 * m, k) == if k == 0 then b else Bit(m, k - 1)
  {
    assert (b + 2 * m) / 2 == m && (b + 2 * m) % 2 == b;
  }

  lemma {:induction false} BitOfZero(k: nat)
    ensures Bit(0, k) == 0
  {
    if k > 0 { BitOfZero(k - 1); }
  }

  /** Each bit of a result comes from the two bits in its place. */
  lemma {:induction false} AndIsBitwise(a: nat, b: nat, k: nat)
    ensures Bit(And(a, b), k) == if Bit(a, k) == 1 && Bit(b, k) == 1 then 1 else 0
    decreases k
  {
    if a == 0 || b == 0 {
      BitOfZero(k);
    } else {
      BitStep((a % 2) * (b % 2), And(a / 2, b / 2), k);
      if k > 0 { AndIsBitwise(a / 2, b / 2, k - 1); }
    }
  }

  lemma {:induction false} OrIsBitwise(a: nat, b: nat, k: nat)
    ensures Bit(Or(a, b), k) == if Bit(a, k) == 1 || Bit(b, k) == 1 then 1 else 0
    decreases k
  {
    if a == 0 || b == 0 {
      BitOfZero(k);
    } else {
      BitStep(if a % 2 + b % 2 > 0 then 1 else 0, Or(a / 2, b / 2), k);
      if k > 0 { OrIsBitwise(a / 2, b / 2, k - 1); }
    }
  }

  lemma {:induction false} XorIsBitwise(a: nat, b: nat, k: nat)
    ensures Bit(Xor(a, b), k) == if Bit(a, k) != Bit(b, k) then 1 else 0
    decreases k
  {
    if a == 0 || b == 0 {
      BitOfZero(k);
    } else {
      BitStep((a % 2 + b % 2) % 2, Xor(a / 2, b / 2), k);
      if k > 0 { XorIsBitwise(a / 2, b / 2, k - 1); }
    }
  }

  /** The complement in `width` bits. */
  lemma {:induction false} BitOfComplement(n: nat, k: nat, width: nat)
    requires k < width && n < Pow2(width)
    ensures Bit(Pow2(width) - 1 - n, k) == 1 - Bit(n, k)
    decreases k
  {
    var m := Pow2(width) - 1 - n;
    assert m % 2 == 1 - n % 2 && m / 2 == Pow2(width - 1) - 1 - n / 2;
    if k > 0 { BitOfComplement(n / 2, k - 1, width - 1); }
  }

  /** The bits of a number above another that fits in the `s` bits below. */
  lemma {:induction false} BitOfJoined(a: nat, b: nat, s: nat, k: nat)
    requires b < Pow2(s)
    ensures Bit(Shl(a, s) + b, k) == if k < s then Bit(b, k) else Bit(a, k - s)
    decreases s
  {
    if s > 0 {
      ShlStep(a, s);
      BitStep(b % 2, Shl(a, s - 1) + b / 2, k);
      if k > 0 { BitOfJoined(a, b / 2, s - 1, k - 1); }
    } else {
      assert Shl(a, s) == a;
    }
  }

  /** The bits below a cut moved up by `s`, and those above it come in below. */
  lemma {:induction false} BitOfRotated(n: nat, c: nat, s: nat, k: nat)
    requires Shr(n, c) < Pow2(s) && k < c + s
    ensures Bit(Shl(Low(n, c), s) + Shr(n, c), if k < c then k + s else k - c) == Bit(n, k)
  {
    var to := if k < c then k + s else k - c;
    BitOfJoined(Low(n, c), Shr(n, c), s, to);
    BitOfCut(n, c, k);
  }

  lemma {:induction false} BitOfCut(n: nat, c: nat, k: nat)
    ensures Bit(n, k) == if k < c then Bit(Low(n, c), k) else Bit(Shr(n, c), k - c)
    decreases c
  {
    if c > 0 {
      BitStep(n % 2, Low(n / 2, c - 1), k);
      if k > 0 { BitOfCut(n / 2, c - 1, k - 1); }
    }
  }

  /** Masking with `k` ones keeps the remainder. */
  lemma {:induction false} LowMask(n: nat, k: nat)
    ensures And(n, Pow2(k) - 1) == n % Pow2(k)
  {
    var mask, none := Pow2(k) - 1, k - k;
    assert Shl(mask, none) == mask && Shr(n, none) == n;
    AndMask(n, k, none);
    ShrIsDiv(n, k);
    assert Shl(Low(n, k), none) == Low(n, k);
    Remainder(n, Shr(n, k), Pow2(k), Low(n, k));
  }

  lemma {:induction false} Remainder(n: nat, q: nat, p: nat, r: nat)
    requires q * p + r == n && r < p
    ensures n % p == r
  {
    if n / p < q {
      MulMono(n / p + 1, q, p);
    } else if n / p > q {
      MulMono(q + 1, n / p, p);
    }
    assert n == n / p * p + n % p;
  }

  lemma MulMono(a: nat, b: nat, p: nat)
    requires a <= b
    ensures a * p <= b * p
  {
    assert b * p == a * p + (b - a) * p;
  }

  lemma {:induction false} LowOfSmall(n: nat, k: nat)
    requires n < Pow2(k)
    ensures Low(n, k) == n && Shr(n, k) == 0
    decreases k
  {
    if k > 0 {
      LowOfSmall(n / 2, k - 1);
    }
  }

  /** Masking with `k` ones shifted by `s` picks out that stretch of bits. */
  lemma {:induction false} AndMask(n: nat, k: nat, s: nat)
    ensures And(n, Shl(Pow2(k) - 1, s)) == Shl(Low(Shr(n, s), k), s)
    decreases s, k
  {
    if s > 0 {
      ShlStep(Pow2(k) - 1, s);
      ShlStep(Low(Shr(n, s), k), s);
      AndMask(n / 2, k, s - 1);
      AndEven(n, Shl(Pow2(k) - 1, s - 1));
    } else if k > 0 {
      AndMask(n / 2, k - 1, 0);
      AndOdd(n, Pow2(k - 1) - 1);
    }
  }

  lemma {:induction false} ShlStep(n: nat, s: nat)
    requires s > 0
    ensures Shl(n, s) == 2 * Shl(n, s - 1)
  {
  }

  lemma {:induction false} AndEven(n: nat, m: nat)
    ensures And(n, 2 * m) == 2 * And(n / 2, m)
  {
  }

  lemma {:induction false} AndOdd(n: nat, m: nat)
    ensures And(n, 2 * m + 1) == n % 2 + 2 * And(n / 2, m)
  {
  }

  lemma {:induction false} PopcountShl(n: nat, s: nat)
    ensures Popcount(Shl(n, s)) == Popcount(n)
    decreases s
  {
    if s > 0 {
      ShlStep(n, s);
      PopcountShl(n, s - 1);
    }
  }

  lemma {:induction false} PopcountSplit(n: nat, k: nat)
    ensures Popcount(n) == Popcount(Shr(n, k)) + Popcount(Low(n, k))
    decreases k
  {
    if k > 0 {
      PopcountSplit(n / 2, k - 1);
      var l := Low(n / 2, k - 1);
      assert (n % 2 + 2 * l) / 2 == l && (n % 2 + 2 * l) % 2 == n % 2;
      assert Popcount(n) == n % 2 + Popcount(n / 2);
    }
  }

  lemma {:induction false} PopcountStep(b: nat, m: nat)
    requires b <= 1
    ensures Popcount(b + 2 * m) == b + Popcount(m)
  {
    assert (b + 2 * m) / 2 == m && (b + 2 * m) % 2 == b;
  }

  lemma {:induction false} FlipChangesParity(n: nat, k: nat)
    ensures Popcount(Flip(n, k)) % 2 != Popcount(n) % 2
    decreases k
  {
    var b, m := n % 2, n / 2;
    PopcountStep(b, m);
    assert n == b + 2 * m;
    if k > 0 {
      var f := Flip(m, k - 1);
      FlipChangesParity(m, k - 1);
      PopcountStep(b, f);
      ParityWithBit(b, Popcount(f), Popcount(m));
    } else {
      PopcountStep(1 - b, m);
      assert Flip(n, 0) == (1 - b) + 2 * m;
      ParityOfBits(b, Popcount(m));
    }
  }

  lemma {:induction false} ParityWithBit(b: nat, x: nat, y: nat)
    requires x % 2 != y % 2
    ensures (b + x) % 2 != (b + y) % 2
  {
  }

  lemma {:induction false} ParityOfBits(b: nat, x: nat)
    requires b <= 1
    ensures (1 - b + x) % 2 != (b + x) % 2
  {
  }

  /** A changed bit is on one side of any cut. */
  lemma {:induction false} FlipAbove(n: nat, k: nat, i: nat)
    requires k <= i
    ensures Shr(Flip(n, i), k) == Flip(Shr(n, k), i - k) && Low(Flip(n, i), k) == Low(n, k)
    decreases k
  {
    if k > 0 {
      FlipAbove(n / 2, k - 1, i - 1);
      var f := Flip(n / 2, i - 1);
      assert (n % 2 + 2 * f) / 2 == f && (n % 2 + 2 * f) % 2 == n % 2;
    }
  }

  lemma {:induction false} FlipBelow(n: nat, k: nat, i: nat)
    requires i < k
    ensures Shr(Flip(n, i), k) == Shr(n, k) && Low(Flip(n, i), k) == Flip(Low(n, k), i)
    decreases k
  {
    if i > 0 {
      FlipBelow(n / 2, k - 1, i - 1);
      var f, l := Flip(n / 2, i - 1), Low(n / 2, k - 1);
      assert (n % 2 + 2 * f) / 2 == f && (n % 2 + 2 * f) % 2 == n % 2;
      assert (n % 2 + 2 * l) / 2 == l && (n % 2 + 2 * l) % 2 == n % 2;
    } else {
      var l := Low(n / 2, k - 1);
      assert (n % 2 + 2 * l) / 2 == l && (n % 2 + 2 * l) % 2 == n % 2;
      assert Flip(n, 0) / 2 == n / 2 && Flip(n, 0) % 2 == 1 - n % 2;
    }
  }

  lemma {:induction false} AndOrCommute(a: nat, b: nat)
    ensures And(a, b) == And(b, a) && Or(a, b) == Or(b, a)
    decreases a
  {
    if a > 0 && b > 0 { AndOrCommute(a / 2, b / 2); }
  }

  lemma {:induction false} BitwiseInRange(a: nat, b: nat, k: nat)
    requires a < Pow2(k) && b < Pow2(k)
    ensures And(a, b) < Pow2(k) && Or(a, b) < Pow2(k) && Xor(a, b) < Pow2(k)
    decreases k
  {
    if k > 0 && a > 0 && b > 0 { BitwiseInRange(a / 2, b / 2, k - 1); }
  }

  /** Numbers without a common bit are joined by adding them. */
  lemma {:induction false} OrIsSum(a: nat, b: nat, s: nat)
    requires b < Pow2(s)
    ensures Or(Shl(a, s), b) == Shl(a, s) + b
    decreases s
  {
    if s > 0 && a > 0 && b > 0 {
      ShlStep(a, s);
      OrIsSum(a, b / 2, s - 1);
      OrOfEven(Shl(a, s - 1), b);
    } else if a == 0 {
      assert Shl(a, s) == 0;
    }
  }

  lemma {:induction false} OrOfEven(n: nat, b: nat)
    requires Or(n, b / 2) == n + b / 2
    ensures Or(2 * n, b) == 2 * n + b
  {
    if n > 0 && b > 0 { assert 2 * n / 2 == n && 2 * n % 2 == 0; }
  }
}
