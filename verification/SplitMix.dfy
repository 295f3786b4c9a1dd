/**
 The hash of `splitmix_hash.h`, on 64-bit words as integers: a bijection, so distinct
 ids never share a full hash.
*/
module SplitMix {
  import opened Bytes

  const MOD: nat := 0x1_0000_0000_0000_0000

  type Word = U64

  // ----- Exclusive or and shifts -----

  /** `a ^ b`, bit by bit. */
  function Xor(a: nat, b: nat): nat {
    if a == 0 && b == 0 then 0
    else (if a % 2 == b % 2 then 0 else 1) + 2 * Xor(a / 2, b / 2)
  }

  /** `a >> n`. */
  function Shr(a: nat, n: nat): nat {
    if n == 0 then a else Shr(a / 2, n - 1)
  }

  lemma {:induction false} XorAssociates(a: nat, b: nat, c: nat)
    ensures Xor(Xor(a, b), c) == Xor(a, Xor(b, c))
    decreases a + b + c
  {
    if a != 0 || b != 0 || c != 0 {
      XorAssociates(a / 2, b / 2, c / 2);
      XorHalves(a, b);
      XorHalves(b, c);
      XorHalves(Xor(a, b), c);
      XorHalves(a, Xor(b, c));
    }
  }

  lemma XorHalves(a: nat, b: nat)
    ensures Xor(a, b) / 2 == Xor(a / 2, b / 2)
    ensures Xor(a, b) % 2 == if a % 2 == b % 2 then 0 else 1
  {
  }

  lemma {:induction false} XorSelf(a: nat)
    ensures Xor(a, a) == 0 && Xor(a, 0) == a && Xor(0, a) == a
  {
    if a != 0 { XorSelf(a / 2); }
  }

  lemma {:induction false} ShrXor(a: nat, b: nat, n: nat)
    ensures Shr(Xor(a, b), n) == Xor(Shr(a, n), Shr(b, n))
    decreases n
  {
    if n > 0 {
      XorHalves(a, b);
      ShrXor(a / 2, b / 2, n - 1);
    }
  }

  lemma {:induction false} ShrAdds(a: nat, m: nat, n: nat)
    ensures Shr(Shr(a, m), n) == Shr(a, m + n)
  {
    if m > 0 { ShrAdds(a / 2, m - 1, n); }
  }

  function Pow2(n: nat): (p: nat)
    ensures p > 0
  {
    if n == 0 then 1 else 2 * Pow2(n - 1)
  }

  lemma {:induction false} ShrBound(a: nat, n: nat)
    ensures Shr(a, n) <= a
    ensures a < Pow2(n) ==> Shr(a, n) == 0
  {
    if n > 0 { ShrBound(a / 2, n - 1); }
  }

  lemma {:induction false} XorBound(a: nat, b: nat, n: nat)
    requires a < Pow2(n) && b < Pow2(n)
    ensures Xor(a, b) < Pow2(n)
  {
    if n > 0 { XorBound(a / 2, b / 2, n - 1); }
  }

  lemma {:induction false} Pow2Adds(m: nat, n: nat)
    ensures Pow2(m + n) == Pow2(n) * Pow2(m)
  {
    if m > 0 { Pow2Adds(m - 1, n); }
  }

  lemma {:induction false} Pow2Bytes(w: nat)
    ensures Pow2(8 * w) == Pow256(w)
  {
    if w > 0 {
      Pow2Bytes(w - 1);
      Pow2Adds(8 * (w - 1), 8);
    }
  }

  lemma WordBound()
    ensures Pow2(64) == MOD
  {
    Pow2Bytes(8);
    assert Pow256(8) == MOD;
  }

  lemma PastTheEnd(x: Word, n: nat)
    requires n >= 64
    ensures Shr(x, n) == 0
  {
    WordBound();
    ShrAdds(x, 64, n - 64);
    ShrBound(x, 64);
    ShrBound(0, n - 64);
  }

  /** `x ^ ( x >> n )`. */
  function XorShift(x: Word, n: nat): Word {
    WordBound();
    ShrBound(x, n);
    XorBound(x, Shr(x, n), 64);
    Xor(x, Shr(x, n))
  }

  /** The inverse where three shifts push all bits out. */
  function UnXorShift(z: Word, n: nat): Word {
    WordBound();
    ShrBound(z, n);
    ShrBound(z, 2 * n);
    XorBound(z, Shr(z, n), 64);
    XorBound(Xor(z, Shr(z, n)), Shr(z, 2 * n), 64);
    Xor(Xor(z, Shr(z, n)), Shr(z, 2 * n))
  }

  /** `(a ^ b) ^ (b ^ c)` is `a ^ c`. */
  lemma Telescope(a: nat, b: nat, c: nat)
    ensures Xor(Xor(a, b), Xor(b, c)) == Xor(a, c)
  {
  }

  lemma XorShiftUndone(x: Word, n: nat)
    requires 3 * n >= 64
    ensures UnXorShift(XorShift(x, n), n) == x
  {
    var x1, x2, x3 := Shr(x, n), Shr(x, 2 * n), Shr(x, 3 * n);
    ShrXor(x, x1, n);
    ShrXor(x, x1, 2 * n);
    ShrAdds(x, n, n);
    ShrAdds(x, n, 2 * n);
    Telescope(x, x1, x2);
    Telescope(x, x2, x3);
    PastTheEnd(x, 3 * n);
    XorSelf(x);
  }

  lemma UnXorShiftUndone(z: Word, n: nat)
    requires 3 * n >= 64
    ensures XorShift(UnXorShift(z, n), n) == z
  {
    var z1, z2, z3 := Shr(z, n), Shr(z, 2 * n), Shr(z, 3 * n);
    var w := Xor(z, z1);
    ShrXor(w, z2, n);
    ShrXor(z, z1, n);
    ShrAdds(z, n, n);
    ShrAdds(z, 2 * n, n);
    PastTheEnd(z, 3 * n);
    XorSelf(Xor(z1, z2));
    XorAssociates(z, z1, z2);
    Telescope(z, Xor(z1, z2), 0);
    XorSelf(z);
  }

  // ----- Sums and products modulo 2^64 -----

  function Plus(x: Word, y: Word): Word {
    (x + y) % MOD
  }

  function Minus(x: Word, y: Word): Word {
    (x - y) % MOD
  }

  lemma PlusMinus(x: Word, y: Word)
    ensures Minus(Plus(x, y), y) == x && Plus(Minus(x, y), y) == x
  {
  }

  function Times(x: Word, c: Word): Word {
    (x * c) % MOD
  }

  /** A factor with an inverse can be undone. */
  lemma TimesUndone(x: Word, c: Word, d: Word)
    requires c * d % MOD == 1
    ensures Times(Times(x, c), d) == x
  {
    var q, k := x * c / MOD, c * d / MOD;
    var y := Times(x, c);
    assert y == x * c - MOD * q;
    Regroup(x, c, d, q, k);
    UniqueRemainder(y * d, MOD, x * k - q * d, x);
  }

  lemma Regroup(x: int, c: int, d: int, q: int, k: int)
    requires c * d == MOD * k + 1
    ensures (x * c - MOD * q) * d == MOD * (x * k - q * d) + x
  {
  }

  // ----- The hash -----

  /** One round of mixing: a shift, then a factor. */
  function Round(x: Word, n: nat, c: Word): Word {
    Times(XorShift(x, n), c)
  }

  function Unround(y: Word, n: nat, d: Word): Word {
    UnXorShift(Times(y, d), n)
  }

  lemma RoundUndone(x: Word, n: nat, c: Word, d: Word)
    requires 3 * n >= 64 && c * d % MOD == 1
    ensures Unround(Round(x, n, c), n, d) == x
  {
    TimesUndone(XorShift(x, n), c, d);
    XorShiftUndone(x, n);
  }

  lemma UnroundUndone(y: Word, n: nat, c: Word, d: Word)
    requires 3 * n >= 64 && c * d % MOD == 1
    ensures Round(Unround(y, n, d), n, c) == y
  {
    UnXorShiftUndone(Times(y, d), n);
    TimesUndone(y, d, c);
  }

  function Mix(x: Word, increment: Word, c1: Word, c2: Word): Word {
    XorShift(Round(Round(Plus(x, increment), 30, c1), 27, c2), 31)
  }

  /** The steps of `Mix` undone, last one first. */
  function MixBack(h: Word, increment: Word, d1: Word, d2: Word): Word {
    Minus(Unround(Unround(UnXorShift(h, 31), 27, d2), 30, d1), increment)
  }

  lemma MixUndone(x: Word, increment: Word, c1: Word, d1: Word, c2: Word, d2: Word)
    requires c1 * d1 % MOD == 1 && c2 * d2 % MOD == 1
    ensures MixBack(Mix(x, increment, c1, c2), increment, d1, d2) == x
  {
    var x1 := Plus(x, increment);
    var x2 := Round(x1, 30, c1);
    var x3 := Round(x2, 27, c2);
    XorShiftUndone(x3, 31);
    RoundUndone(x2, 27, c2, d2);
    RoundUndone(x1, 30, c1, d1);
    PlusMinus(x, increment);
  }

  lemma MixBackUndone(h: Word, increment: Word, c1: Word, d1: Word, c2: Word, d2: Word)
    requires c1 * d1 % MOD == 1 && c2 * d2 % MOD == 1
    ensures Mix(MixBack(h, increment, d1, d2), increment, c1, c2) == h
  {
    var x3 := UnXorShift(h, 31);
    var x2 := Unround(x3, 27, d2);
    var x1 := Unround(x2, 30, d1);
    PlusMinus(x1, increment);
    UnroundUndone(x2, 30, c1, d1);
    UnroundUndone(x3, 27, c2, d2);
    UnXorShiftUndone(h, 31);
  }

  function SplitMix64(x: Word): Word {
    Mix(x, 0x9e3779b97f4a7c15, 0xbf58476d1ce4e5b9, 0x94d049bb133111eb)
  }

  /** The inverse: its factors are the inverses modulo 2^64. */
  function Unmix(h: Word): Word {
    MixBack(h, 0x9e3779b97f4a7c15, 0x96de1b173f119089, 0x319642b2d24d8ec3)
  }

  lemma UnmixUndoes(x: Word)
    ensures Unmix(SplitMix64(x)) == x
  {
    MixUndone(x, 0x9e3779b97f4a7c15,
      0xbf58476d1ce4e5b9, 0x96de1b173f119089, 0x94d049bb133111eb, 0x319642b2d24d8ec3);
  }

  lemma SplitMixUndoes(h: Word)
    ensures SplitMix64(Unmix(h)) == h
  {
    MixBackUndone(h, 0x9e3779b97f4a7c15,
      0xbf58476d1ce4e5b9, 0x96de1b173f119089, 0x94d049bb133111eb, 0x319642b2d24d8ec3);
  }

  /** The hash functor: `offset` is fixed when the program starts, `size_t` has 64 bits. */
  function Hash(offset: Word, id: Word): Word {
    SplitMix64(Plus(id, offset))
  }

  /** Distinct ids have distinct hashes. */
  lemma HashIsInjective(offset: Word, id: Word, id': Word)
    ensures Hash(offset, id) == Hash(offset, id') <==> id == id'
  {
    UnmixUndoes(Plus(id, offset));
    UnmixUndoes(Plus(id', offset));
    PlusMinus(id, offset);
    PlusMinus(id', offset);
  }

  /** No hash value is left out either. */
  lemma HashIsOnto(offset: Word, h: Word)
    ensures Hash(offset, Minus(Unmix(h), offset)) == h
  {
    SplitMixUndoes(h);
    PlusMinus(Unmix(h), offset);
  }
}
