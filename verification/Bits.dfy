/** Machine words as natural numbers: shifts, masks and bitwise operators defined
    bit by bit, and the field macros of the utility header for words of any width. */
module Bits {

  function Pow2(n: nat): (r: nat)
    ensures r >= 1
  {
    if n == 0 then 1 else 2 * Pow2(n - 1)
  }

  /** Bit k of x. */
  predicate Bit(x: nat, k: nat) {
    if k == 0 then x % 2 == 1 else Bit(x / 2, k - 1)
  }

  /** `x & y` */
  function And(x: nat, y: nat): (r: nat)
    ensures r <= x && r <= y
  {
    if x == 0 || y == 0 then 0
    else (if x % 2 == 1 && y % 2 == 1 then 1 else 0) + 2 * And(x / 2, y / 2)
  }

  /** `x | y` */
  function Or(x: nat, y: nat): nat {
    if x == 0 then y
    else if y == 0 then x
    else (if x % 2 == 1 || y % 2 == 1 then 1 else 0) + 2 * Or(x / 2, y / 2)
  }

  /** `x << n`, without truncation. */
  function Shl(x: nat, n: nat): nat {
    if n == 0 then x else 2 * Shl(x, n - 1)
  }

  /** `x >> n` */
  function Shr(x: nat, n: nat): nat {
    if n == 0 then x else Shr(x / 2, n - 1)
  }

  /** The low n bits of x: conversion to an n-bit unsigned type. */
  function Low(x: nat, n: nat): (r: nat)
    ensures r < Pow2(n)
  {
    if n == 0 then 0 else x % 2 + 2 * Low(x / 2, n - 1)
  }

  /** The number whose bits 0..n-1 are the first n flags. */
  function FromBits(bs: seq<bool>, n: nat): (r: nat)
    requires n <= |bs|
    ensures r < Pow2(n)
  {
    if n == 0 then 0 else FromBits(bs, n - 1) + if bs[n - 1] then Pow2(n - 1) else 0
  }

  /** The low n bits of x, bit 0 first. */
  function BitsOf(x: nat, n: nat): (r: seq<bool>)
    ensures |r| == n
  {
    seq(n, k requires 0 <= k < n => Bit(x, k))
  }

  // ----- The operators act bit by bit -----

  lemma {:induction false} ZeroBit(k: nat)
    ensures !Bit(0, k)
  {
    if k > 0 {
      ZeroBit(k - 1);
    }
  }

  lemma {:induction false} AndBit(x: nat, y: nat, k: nat)
    ensures Bit(And(x, y), k) <==> Bit(x, k) && Bit(y, k)
  {
    if x == 0 || y == 0 {
      ZeroBit(k);
    } else if k > 0 {
      AndBit(x / 2, y / 2, k - 1);
    }
  }

  lemma {:induction false} OrBit(x: nat, y: nat, k: nat)
    ensures Bit(Or(x, y), k) <==> Bit(x, k) || Bit(y, k)
  {
    if x == 0 || y == 0 {
      ZeroBit(k);
    } else if k > 0 {
      OrBit(x / 2, y / 2, k - 1);
    }
  }

  // ----- Arithmetic readings -----

  lemma {:induction false} ShlIsTimes(x: nat, n: nat)
    ensures Shl(x, n) == x * Pow2(n)
  {
    if n > 0 {
      ShlIsTimes(x, n - 1);
      DoubleProduct(x, Pow2(n - 1));
    }
  }

  lemma {:induction false} ShrIsDiv(x: nat, n: nat)
    ensures Shr(x, n) == x / Pow2(n)
  {
    if n > 0 {
      ShrIsDiv(x / 2, n - 1);
      DivDiv(x, Pow2(n - 1));
    }
  }

  lemma {:induction false} LowIsMod(x: nat, n: nat)
    ensures Low(x, n) == x % Pow2(n)
  {
    if n > 0 {
      LowIsMod(x / 2, n - 1);
      HalfMod(x, Pow2(n - 1));
    }
  }

  lemma {:induction false} LowOfSmall(x: nat, n: nat)
    requires x < Pow2(n)
    ensures Low(x, n) == x
  {
    if n > 0 {
      LowOfSmall(x / 2, n - 1);
    }
  }

  lemma Pow2Monotone(a: nat, b: nat)
    requires a <= b
    ensures Pow2(a) <= Pow2(b)
    ensures a < b ==> 2 * Pow2(a) <= Pow2(b)
    decreases b - a
  {
    if a < b {
      Pow2Monotone(a + 1, b);
    }
  }

  lemma {:induction false} ShlOne(n: nat)
    ensures Shl(1, n) == Pow2(n)
  {
    if n > 0 {
      ShlOne(n - 1);
    }
  }

  lemma DoubleProduct(f: int, m: int)
    ensures f * (2 * m) == 2 * (f * m)
  {
  }

  lemma HalfMod(x: nat, m: nat)
    requires m > 0
    ensures x % (2 * m) == x % 2 + 2 * (x / 2 % m)
  {
    var q, r := x / 2 / m, x / 2 % m;
    DoubleProduct(q, m);
    DivModUnique(x, 2 * m, q, x % 2 + 2 * r);
  }

  lemma DivDiv(x: nat, m: nat)
    requires m > 0
    ensures x / 2 / m == x / (2 * m)
  {
    var q, r := x / 2 / m, x / 2 % m;
    DoubleProduct(q, m);
    DivModUnique(x, 2 * m, q, x % 2 + 2 * r);
  }

  lemma DivModUnique(x: nat, m: nat, q: nat, r: nat)
    requires 0 < m && r < m && x == q * m + r
    ensures x / m == q && x % m == r
  {
    var q', r' := x / m, x % m;
    assert (q - q') * m == r' - r by {
      assert x == q' * m + r';
      Distribute(q, q', m);
    }
    SmallMultipleIsZero(q - q', m, r' - r);
  }

  lemma Distribute(a: int, b: int, m: int)
    ensures (a - b) * m == a * m - b * m
  {
  }

  lemma SmallMultipleIsZero(a: int, m: int, d: int)
    requires -m < d < m && a * m == d
    ensures a == 0
  {
    Distribute(0, a, m);
    if a >= 1 {
      MulAtLeast(a, m);
    } else if a <= -1 {
      MulAtLeast(-a, m);
    }
  }

  lemma MulAtLeast(a: nat, m: nat)
    requires a >= 1
    ensures a * m >= m
  {
    assert a * m == m + (a - 1) * m;
  }

  // ----- Masks -----

  /** A mask of the low k bits is a truncation. */
  lemma {:induction false} AndLowMask(x: nat, k: nat)
    ensures And(x, Pow2(k) - 1) == Low(x, k)
  {
    if k > 0 {
      AndLowMask(x / 2, k - 1);
      AndOdd(x, Pow2(k - 1) - 1);
    }
  }

  lemma AndOdd(x: nat, m: nat)
    ensures And(x, 2 * m + 1) == x % 2 + 2 * And(x / 2, m)
  {
    assert (2 * m + 1) % 2 == 1 && (2 * m + 1) / 2 == m;
  }

  lemma AndEven(x: nat, m: nat)
    ensures And(x, 2 * m) == 2 * And(x / 2, m)
  {
    assert (2 * m) % 2 == 0 && (2 * m) / 2 == m;
  }

  lemma OrHalf(x: nat, m: nat)
    ensures Or(x, 2 * m) == x % 2 + 2 * Or(x / 2, m)
  {
    assert (2 * m) % 2 == 0 && (2 * m) / 2 == m;
  }

  /** Testing one bit with a single-bit mask. */
  lemma {:induction false} AndSingleBit(x: nat, k: nat)
    ensures And(x, Pow2(k)) == if Bit(x, k) then Pow2(k) else 0
  {
    if k > 0 {
      AndSingleBit(x / 2, k - 1);
      AndEven(x, Pow2(k - 1));
    } else {
      AndOdd(x, 0);
    }
  }

  /** Operands that share no bit position: the disjunction is the sum. */
  lemma {:induction false} OrDisjoint(x: nat, y: nat, k: nat)
    requires x < Pow2(k)
    ensures Or(x, Shl(y, k)) == x + Shl(y, k)
  {
    if k > 0 {
      OrDisjoint(x / 2, y, k - 1);
      OrHalf(x, Shl(y, k - 1));
    }
  }

  /** `x |= BIT(n)` above everything set so far adds one flag. */
  lemma OrAddsFlag(bs: seq<bool>, n: nat)
    requires n < |bs|
    ensures FromBits(bs, n + 1) == if bs[n] then Or(FromBits(bs, n), Pow2(n)) else FromBits(bs, n)
  {
    ShlOne(n);
    OrDisjoint(FromBits(bs, n), 1, n);
  }

  lemma {:induction false} Pow2Bit(n: nat, k: nat)
    ensures Bit(Pow2(n), k) <==> k == n
  {
    if n == 0 {
      if k > 0 {
        ZeroBit(k - 1);
      }
    } else if k > 0 {
      Pow2Bit(n - 1, k - 1);
    }
  }

  /** Flags go in and come out at the same position. */
  lemma {:induction false} FromBitsBit(bs: seq<bool>, n: nat, k: nat)
    requires n <= |bs|
    ensures Bit(FromBits(bs, n), k) <==> k < n && bs[k]
  {
    if n == 0 {
      ZeroBit(k);
    } else {
      FromBitsBit(bs, n - 1, k);
      OrAddsFlag(bs, n - 1);
      OrBit(FromBits(bs, n - 1), Pow2(n - 1), k);
      Pow2Bit(n - 1, k);
    }
  }

  /** Reading n bits back from a number made of at most n flags. */
  lemma BitsOfFromBits(bs: seq<bool>, n: nat)
    requires |bs| <= n
    ensures forall k :: 0 <= k < n ==> BitsOf(FromBits(bs, |bs|), n)[k] == (k < |bs| && bs[k])
  {
    forall k | 0 <= k < n ensures Bit(FromBits(bs, |bs|), k) == (k < |bs| && bs[k]) {
      FromBitsBit(bs, |bs|, k);
    }
  }

  // ----- BIT, GENMASK, LSB_GET, FIELD_GET on unsigned words of w bits -----

  /** `1UL << n` */
  function BIT(w: nat, n: nat): nat
    requires n < w
  {
    Low(Shl(1, n), w)
  }

  /** `~0UL` */
  function AllOnes(w: nat): nat { Pow2(w) - 1 }

  /** `((~0UL) - (1UL << l) + 1) & (~0UL >> (w - 1 - h))` */
  function GENMASK(w: nat, h: nat, l: nat): nat
    requires l <= h < w
  {
    And(Low(AllOnes(w) - BIT(w, l) + 1, w), Shr(AllOnes(w), w - 1 - h))
  }

  /** `value & -value`, the negation wrapping. */
  function LSB_GET(w: nat, value: nat): nat
    requires value < Pow2(w)
  {
    And(value, Low(Pow2(w) - value, w))
  }

  /** `(value & mask) / LSB_GET(mask)` */
  function FIELD_GET(w: nat, mask: nat, value: nat): nat
    requires mask < Pow2(w) && LSB_GET(w, mask) != 0
  {
    Quotient(And(value, mask), LSB_GET(w, mask))
  }

  function Quotient(x: nat, y: nat): nat
    requires y > 0
  {
    x / y
  }

  /** The bits h..l of x, moved down: what a field extraction should give. */
  function Field(x: nat, h: nat, l: nat): nat
    requires l <= h
  {
    Low(Shr(x, l), h - l + 1)
  }

  /** A mask of bits l..h keeps exactly those bits of x, in place. */
  lemma {:induction false} AndFieldMask(x: nat, h: nat, l: nat)
    requires l <= h
    ensures Pow2(l) < Pow2(h + 1)
    ensures And(x, Pow2(h + 1) - Pow2(l)) == Shl(Field(x, h, l), l)
    decreases l
  {
    Pow2Monotone(l, h + 1);
    if l == 0 {
      AndLowMask(x, h + 1);
    } else {
      AndFieldMask(x / 2, h - 1, l - 1);
      var d := Pow2(h) - Pow2(l - 1);
      assert Pow2(h + 1) - Pow2(l) == 2 * d;
      AndEven(x, d);
      assert Field(x, h, l) == Field(x / 2, h - 1, l - 1);
    }
  }

  lemma {:induction false} ShrAllOnes(h: nat, n: nat)
    ensures Shr(Pow2(h + n) - 1, n) == Pow2(h) - 1
  {
    if n > 0 {
      assert (Pow2(h + n) - 1) / 2 == Pow2(h + n - 1) - 1;
      ShrAllOnes(h, n - 1);
    }
  }

  /** The low bits of 2^w - x depend only on x. */
  lemma {:induction false} LowOfNegation(w: nat, n: nat, x: nat)
    requires n <= w && x <= Pow2(n)
    ensures x <= Pow2(w)
    ensures Low(Pow2(w) - x, n) == Low(Pow2(n) - x, n)
    decreases w - n
  {
    Pow2Monotone(n, w);
    if n < w {
      LowOfNegation(w - 1, n, x);
      LowIgnoresPow2(Pow2(w - 1) - x, w - 1, n);
    }
  }

  lemma {:induction false} LowIgnoresPow2(x: nat, k: nat, n: nat)
    requires n <= k
    ensures Low(x + Pow2(k), n) == Low(x, n)
  {
    if n > 0 {
      assert (x + Pow2(k)) / 2 == x / 2 + Pow2(k - 1);
      LowIgnoresPow2(x / 2, k - 1, n - 1);
    }
  }

  /** GENMASK as a number, for every word width. */
  lemma GenmaskValue(w: nat, h: nat, l: nat)
    requires l <= h < w
    ensures Pow2(l) < Pow2(h + 1)
    ensures GENMASK(w, h, l) == Pow2(h + 1) - Pow2(l)
  {
    BitIsPow2(w, l);
    LowerPart(w, h, l);
    MasksMeet(w, h, l, BIT(w, l));
  }

  lemma MasksMeet(w: nat, h: nat, l: nat, bit: nat)
    requires l <= h < w && bit == Pow2(l)
    ensures bit <= AllOnes(w)
    ensures And(Low(AllOnes(w) - bit + 1, w), Shr(AllOnes(w), w - 1 - h)) == And(Pow2(w) - Pow2(l), Pow2(h + 1) - 1)
  {
    UpperMask(w, l, bit);
    ShrAllOnes(h + 1, w - 1 - h);
  }

  lemma UpperMask(w: nat, l: nat, bit: nat)
    requires l < w && bit == Pow2(l)
    ensures bit <= AllOnes(w)
    ensures Low(AllOnes(w) - bit + 1, w) == Pow2(w) - bit
  {
    Pow2Monotone(l, w);
    LowOfSmall(Pow2(w) - bit, w);
  }

  lemma LowerPart(w: nat, h: nat, l: nat)
    requires l <= h < w
    ensures Pow2(l) < Pow2(h + 1) && Pow2(l) <= Pow2(w)
    ensures And(Pow2(w) - Pow2(l), Pow2(h + 1) - 1) == Pow2(h + 1) - Pow2(l)
  {
    Pow2Monotone(l, h + 1);
    Pow2Monotone(l, w);
    AndLowMask(Pow2(w) - Pow2(l), h + 1);
    LowOfDifference(w, h + 1, Pow2(l));
  }

  lemma LowOfDifference(w: nat, n: nat, x: nat)
    requires n <= w && 0 < x <= Pow2(n)
    ensures x <= Pow2(w) && Low(Pow2(w) - x, n) == Pow2(n) - x
  {
    LowOfNegation(w, n, x);
    LowOfSmall(Pow2(n) - x, n);
  }

  lemma BitIsPow2(w: nat, n: nat)
    requires n < w
    ensures BIT(w, n) == Pow2(n)
  {
    Pow2Monotone(n, w);
    ShlOne(n);
    LowOfSmall(Pow2(n), w);
  }

  lemma {:induction false} MaskBits(h: nat, l: nat, k: nat)
    requires l <= h
    ensures Pow2(l) < Pow2(h + 1)
    ensures Bit(Pow2(h + 1) - Pow2(l), k) <==> l <= k <= h
  {
    Pow2Monotone(l, h + 1);
    if l > 0 {
      assert Pow2(h + 1) - Pow2(l) == 2 * (Pow2(h) - Pow2(l - 1));
      if k > 0 {
        MaskBits(h - 1, l - 1, k - 1);
      }
    } else if k > 0 {
      assert (Pow2(h + 1) - 1) / 2 == Pow2(h) - 1;
      if h == 0 {
        ZeroBit(k - 1);
      } else {
        MaskBits(h - 1, 0, k - 1);
      }
    }
  }

  /** GENMASK(h, l) has exactly the bits l..h. */
  lemma GenmaskBits(w: nat, h: nat, l: nat, k: nat)
    requires l <= h < w
    ensures Bit(GENMASK(w, h, l), k) <==> l <= k <= h
  {
    GenmaskValue(w, h, l);
    MaskBits(h, l, k);
  }

  lemma {:induction false} AndComplement(w: nat, x: nat)
    requires x < Pow2(w)
    ensures And(x, Pow2(w) - 1 - x) == 0
  {
    if w > 0 {
      var y := Pow2(w) - 1 - x;
      AndComplement(w - 1, x / 2);
      assert y / 2 == Pow2(w - 1) - 1 - x / 2;
      assert x % 2 + y % 2 == 1;
    }
  }

  lemma LsbGetNoWrap(w: nat, value: nat)
    requires 0 < value < Pow2(w)
    ensures LSB_GET(w, value) == And(value, Pow2(w) - value)
  {
    LowOfSmall(Pow2(w) - value, w);
  }

  lemma LsbOfOdd(w: nat, value: nat)
    requires value < Pow2(w) && value % 2 == 1
    ensures And(value, Pow2(w) - value) == 1
  {
    AndComplement(w - 1, value / 2);
    AndOdd(value, Pow2(w - 1) - 1 - value / 2);
  }

  lemma LsbOfEven(half: nat, p: nat)
    requires half <= p
    ensures And(2 * half, 2 * p - 2 * half) == 2 * And(half, p - half)
  {
    AndEven(2 * half, p - half);
  }

  /** LSB_GET isolates the lowest set bit: everything below it is clear. */
  lemma {:induction false} LsbGetIsLowestBit(w: nat, value: nat, k: nat)
    requires 0 < value < Pow2(w)
    requires Bit(value, k) && forall j :: 0 <= j < k ==> !Bit(value, j)
    ensures LSB_GET(w, value) == Pow2(k)
  {
    LsbGetNoWrap(w, value);
    if k == 0 {
      LsbOfOdd(w, value);
    } else {
      assert !Bit(value, 0);
      forall j | 0 <= j < k - 1 ensures !Bit(value / 2, j) {
        assert !Bit(value, j + 1);
      }
      LsbGetIsLowestBit(w - 1, value / 2, k - 1);
      LsbGetNoWrap(w - 1, value / 2);
      LsbOfEven(value / 2, Pow2(w - 1));
    }
  }

  lemma LsbOfMask(w: nat, h: nat, l: nat)
    requires l <= h < w
    ensures GENMASK(w, h, l) < Pow2(w) && LSB_GET(w, GENMASK(w, h, l)) == Pow2(l)
  {
    GenmaskValue(w, h, l);
    Pow2Monotone(h + 1, w);
    forall j | 0 <= j <= l ensures Bit(GENMASK(w, h, l), j) <==> j == l {
      GenmaskBits(w, h, l, j);
    }
    LsbGetIsLowestBit(w, GENMASK(w, h, l), l);
  }

  /** FIELD_GET(GENMASK(h, l), v) is the field v[l..h], for every word width. */
  lemma FieldGetExtracts(w: nat, h: nat, l: nat, v: nat)
    requires l <= h < w && v < Pow2(w)
    ensures GENMASK(w, h, l) < Pow2(w)
    ensures LSB_GET(w, GENMASK(w, h, l)) == Pow2(l)
    ensures FIELD_GET(w, GENMASK(w, h, l), v) == v / Pow2(l) % Pow2(h - l + 1)
  {
    LsbOfMask(w, h, l);
    GenmaskValue(w, h, l);
    AndFieldMask(v, h, l);
    FieldDividesOut(Field(v, h, l), l);
    ShrIsDiv(v, l);
    LowIsMod(Shr(v, l), h - l + 1);
  }

  lemma FieldDividesOut(f: nat, l: nat)
    ensures Quotient(Shl(f, l), Pow2(l)) == f
  {
    ShlIsTimes(f, l);
    DivModUnique(f * Pow2(l), Pow2(l), f, 0);
  }
}
