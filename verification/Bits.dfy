/** Powers of two and the bitwise operators on unsigned machine words, read as naturals. */
module Bits {

  function Pow2(n: nat): (r: nat)
    ensures r >= 1
  {
    if n == 0 then 1 else 2 * Pow2(n - 1)
  }

  function And(x: nat, y: nat): nat {
    if x == 0 then 0 else 2 * And(x / 2, y / 2) + (x % 2) * (y % 2)
  }

  function Or(x: nat, y: nat): nat
    decreases x + y
  {
    if x == 0 && y == 0 then 0
    else 2 * Or(x / 2, y / 2) + if x % 2 == 1 || y % 2 == 1 then 1 else 0
  }

  /** `value << shift` in a word of `width` bits: what leaves the word is lost. */
  function ShiftLeft(value: nat, shift: nat, width: nat): nat {
    (value * Pow2(shift)) % Pow2(width)
  }

  lemma {:induction false} Pow2Add(a: nat, b: nat)
    ensures Pow2(a + b) == Pow2(a) * Pow2(b)
  {
    if a > 0 { Pow2Add(a - 1, b); }
  }

  lemma {:induction false} Pow2Monotone(a: nat, b: nat)
    requires a <= b
    ensures Pow2(a) <= Pow2(b)
  {
    if a < b { Pow2Monotone(a, b - 1); }
  }

  /** `s * k <= a < s * (k + 1)` pins down the quotient and the remainder. */
  lemma {:induction false} DivUnique(a: int, s: int, k: int)
    requires s > 0 && s * k <= a < s * k + s
    ensures a / s == k && a % s == a - s * k
  {
    var q, r := a / s, a % s;
    assert a == s * q + r;
    if q < k {
      MulLe(s, q + 1, k);
    } else if q > k {
      MulLe(s, k + 1, q);
    }
  }

  lemma {:induction false} MulLe(s: int, a: int, b: int)
    requires s >= 0 && a <= b
    ensures s * a <= s * b
  {
    var d := b - a;
    assert s * b == s * a + s * d;
  }

  /** A value minus its remainder is the multiple of `s` just below it. */
  lemma {:induction false} FloorBounds(x: nat, s: nat)
    requires s > 0
    ensures 0 <= x % s < s && x % s <= x
    ensures x - x % s == s * (x / s)
  {
  }

  /** A whole block of `s` below a multiple of `s` stays below it. */
  lemma {:induction false} FloorFits(x: nat, s: nat, m: nat)
    requires s > 0 && x < s * m
    ensures x - x % s + s <= s * m
  {
    FloorBounds(x, s);
    if x / s >= m {
      MulLe(s, m, x / s);
    } else {
      MulLe(s, x / s + 1, m);
    }
  }

  lemma {:induction false} FloorFitsWord(x: nat, w: nat, h: nat)
    requires h <= w && x < Pow2(w)
    ensures x - x % Pow2(h) + Pow2(h) <= Pow2(w)
  {
    Pow2Add(h, w - h);
    FloorFits(x, Pow2(h), Pow2(w - h));
  }

  lemma {:induction false} ComplementMaskMod(w: nat, wide: nat, h: nat)
    requires h <= w <= wide
    ensures Pow2(h) <= Pow2(w) <= Pow2(wide)
    ensures (Pow2(wide) - 1 - (Pow2(w) - Pow2(h))) % Pow2(w) == Pow2(h) - 1
  {
    Pow2Monotone(h, w);
    Pow2Monotone(w, wide);
    Pow2Add(w, wide - w);
    ComplementMod(Pow2(w), Pow2(wide - w), Pow2(h));
  }

  /** The complement of a prefix mask, cut to `w` bits, is the low `h` ones. */
  lemma {:induction false} AndComplementMask(w: nat, wide: nat, h: nat)
    requires h <= w <= wide
    ensures Pow2(h) <= Pow2(w) <= Pow2(wide)
    ensures And(Pow2(wide) - 1 - (Pow2(w) - Pow2(h)), Pow2(w) - 1) == Pow2(h) - 1
  {
    ComplementMaskMod(w, wide, h);
    AndLowMask(Pow2(wide) - 1 - (Pow2(w) - Pow2(h)), w);
  }

  lemma {:induction false} ComplementMod(p: nat, h: nat, l: nat)
    requires h >= 1 && 1 <= l <= p
    ensures (p * h - 1 - (p - l)) % p == l - 1
  {
    MulShift(h, p);
    DivUnique(p * h - 1 - (p - l), p, h - 1);
  }

  lemma {:induction false} MulMod(s: int, k: int)
    requires s > 0
    ensures (s * k) % s == 0
  {
    DivUnique(s * k, s, k);
  }

  /** Clearing the low `h` bits of a `w`-bit word rounds down to a multiple of `Pow2(h)`. */
  lemma {:induction false} AndPrefixMask(x: nat, w: nat, h: nat)
    requires h <= w && x < Pow2(w)
    ensures Pow2(h) <= Pow2(w)
    ensures And(x, Pow2(w) - Pow2(h)) == x - x % Pow2(h)
    decreases w
  {
    hide Pow2, And;
    Pow2Monotone(h, w);
    if x == 0 {
      AndOfZero(Pow2(w) - Pow2(h));
      DivUnique(0, Pow2(h), 0);
    } else if h == 0 {
      Pow2Zero();
      AndLowMask(x, w);
      DivUnique(x, Pow2(w), 0);
    } else {
      Pow2Step(w);
      Pow2Step(h);
      ghost var half, low := Pow2(w - 1) - Pow2(h - 1), (x / 2) % Pow2(h - 1);
      assert x / 2 < Pow2(w - 1);
      AndPrefixMask(x / 2, w - 1, h - 1);
      AndHalves(x, half, 0);
      HalfMod(x, h);
      assert And(x, 2 * half) == 2 * (x / 2 - low);
    }
  }

  lemma {:induction false} AndOfZero(y: nat)
    ensures And(0, y) == 0
  {
  }

  lemma {:induction false} Pow2Zero()
    ensures Pow2(0) == 1
  {
  }

  lemma {:induction false} Pow2Step(n: nat)
    requires n > 0
    ensures Pow2(n) == 2 * Pow2(n - 1)
  {
  }

  /** One step of the bitwise and, with the second word given by its half and its lowest bit. */
  lemma {:induction false} AndHalves(x: nat, half: nat, bit: nat)
    requires x > 0 && bit < 2
    ensures And(x, 2 * half + bit) == 2 * And(x / 2, half) + (x % 2) * bit
  {
    assert (2 * half + bit) / 2 == half && (2 * half + bit) % 2 == bit;
  }

  lemma {:induction false} HalfMod(x: nat, h: nat)
    requires h > 0
    ensures x % Pow2(h) == 2 * ((x / 2) % Pow2(h - 1)) + x % 2
  {
    Pow2Step(h);
    HalfRemainder(x, Pow2(h - 1));
  }

  lemma {:induction false} HalfRemainder(x: nat, s: nat)
    requires s > 0
    ensures x % (2 * s) == 2 * ((x / 2) % s) + x % 2
  {
    var q := (x / 2) / s;
    FloorBounds(x / 2, s);
    assert (2 * s) * q == 2 * (s * q);
    DivUnique(x, 2 * s, q);
  }

  /** Keeping the low `w` bits is the remainder modulo `Pow2(w)`. */
  lemma {:induction false} AndLowMask(x: nat, w: nat)
    ensures And(x, Pow2(w) - 1) == x % Pow2(w)
    decreases w
  {
    hide Pow2, And;
    if x == 0 {
      AndOfZero(Pow2(w) - 1);
      DivUnique(0, Pow2(w), 0);
    } else if w == 0 {
      Pow2Zero();
      AndZero(x);
    } else {
      Pow2Step(w);
      ghost var half, low := Pow2(w - 1) - 1, (x / 2) % Pow2(w - 1);
      AndLowMask(x / 2, w - 1);
      AndHalves(x, half, 1);
      assert And(x, 2 * half + 1) == 2 * low + x % 2;
      HalfMod(x, w);
    }
  }

  lemma {:induction false} AndZero(x: nat)
    ensures And(x, 0) == 0
  {
    if x > 0 { AndZero(x / 2); }
  }

  /** Bits that do not overlap are joined by addition. */
  lemma {:induction false} OrDisjoint(x: nat, y: nat, h: nat)
    requires x % Pow2(h) == 0 && y < Pow2(h)
    ensures Or(x, y) == x + y
    decreases h
  {
    if h == 0 {
      OrZero(x);
    } else if x == 0 && y == 0 {
    } else {
      HalfMod(x, h);
      OrDisjoint(x / 2, y / 2, h - 1);
    }
  }

  /** The last address of a block: its masked base with every host bit set. */
  lemma {:induction false} OrHostOnes(x: nat, w: nat, h: nat)
    requires h <= w && x < Pow2(w)
    ensures Or(x - x % Pow2(h), Pow2(h) - 1) == x - x % Pow2(h) + Pow2(h) - 1
  {
    FloorBounds(x, Pow2(h));
    MulMod(Pow2(h), x / Pow2(h));
    OrDisjoint(x - x % Pow2(h), Pow2(h) - 1, h);
  }

  lemma {:induction false} OrZero(x: nat)
    ensures Or(x, 0) == x
  {
    if x > 0 { OrZero(x / 2); }
  }

  lemma {:induction false} MulShift(p: int, s: int)
    ensures (p - 1) * s == p * (s - 1) + (p - s) == s * p - s
  {
  }

  /** Shifting an all-ones word left leaves a mask of leading ones. */
  lemma {:induction false} ShiftOnes(shift: nat, width: nat)
    requires shift <= width
    ensures Pow2(shift) <= Pow2(width)
    ensures ShiftLeft(Pow2(width) - 1, shift, width) == Pow2(width) - Pow2(shift)
  {
    Pow2Monotone(shift, width);
    var p, s := Pow2(width), Pow2(shift);
    MulShift(p, s);
    DivUnique((p - 1) * s, p, s - 1);
  }

  lemma {:induction false} OrCommutes(x: nat, y: nat)
    ensures Or(x, y) == Or(y, x)
    decreases x + y
  {
    if x != 0 || y != 0 { OrCommutes(x / 2, y / 2); }
  }

  /** Setting bit `h` of a word of `h + 1` bits. */
  lemma {:induction false} OrTopBit(x: nat, h: nat)
    requires x < 2 * Pow2(h)
    ensures Or(x, Pow2(h)) == x % Pow2(h) + Pow2(h)
    decreases h
  {
    if h > 0 {
      HalfMod(x, h);
      OrTopBit(x / 2, h - 1);
    }
  }
}
