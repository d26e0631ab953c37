/** 64-bit words as naturals: exclusive or, right shift, and arithmetic modulo 2^64. */
module Words64 {

  const MODULUS: nat := 0x1_0000_0000_0000_0000

  type word = x: int | 0 <= x < MODULUS

  function Pow2(n: nat): (r: nat)
    ensures r >= 1
  {
    if n == 0 then 1 else 2 * Pow2(n - 1)
  }

  lemma {:induction false} PowersGrow(m: nat, n: nat)
    requires m <= n
    ensures Pow2(m) <= Pow2(n)
    decreases n
  {
    if m < n {
      PowersGrow(m, n - 1);
    }
  }

  lemma {:induction false} PowersMultiply(m: nat, n: nat)
    ensures Pow2(m + n) == Pow2(m) * Pow2(n)
  {
    if m > 0 {
      PowersMultiply(m - 1, n);
      assert 2 * (Pow2(m - 1) * Pow2(n)) == (2 * Pow2(m - 1)) * Pow2(n);
    }
  }

  lemma SmallPowers()
    ensures Pow2(14) == 0x4000 && Pow2(50) == 0x4_0000_0000_0000 && Pow2(64) == MODULUS
  {
    assert Pow2(4) == 16 && Pow2(7) == 8 * Pow2(4);
    PowersMultiply(7, 7);
    PowersMultiply(14, 14);
    PowersMultiply(28, 28);
    PowersMultiply(50, 14);
    PowersMultiply(14, 36);
    PowersMultiply(28, 8);
    PowersMultiply(4, 4);
  }

  // ----- Exclusive or and shift ---------------------------------------------------------------------------

  function Xor(a: nat, b: nat): nat
    decreases a + b
  {
    if a == 0 && b == 0 then 0 else (a % 2 + b % 2) % 2 + 2 * Xor(a / 2, b / 2)
  }

  function Shr(a: nat, n: nat): nat
    decreases n
  {
    if n == 0 then a else Shr(a / 2, n - 1)
  }

  lemma XorHalves(a: nat, b: nat)
    ensures Xor(a, b) / 2 == Xor(a / 2, b / 2) && Xor(a, b) % 2 == (a % 2 + b % 2) % 2
  {
  }

  /** Numbers with the same last bit and the same other bits are the same. */
  lemma SameBits(a: nat, b: nat)
    requires a % 2 == b % 2 && a / 2 == b / 2
    ensures a == b
  {
  }

  function AddBits(x: nat, y: nat): nat { (x % 2 + y % 2) % 2 }

  lemma BitsAssociate(a: nat, b: nat, c: nat, p: nat, q: nat)
    requires p % 2 == AddBits(a, b) && q % 2 == AddBits(b, c)
    ensures AddBits(p, c) == AddBits(a, q)
  {
  }

  lemma LastBit(a: nat, b: nat)
    ensures Xor(a, b) % 2 == AddBits(a, b)
  {
  }

  lemma LastBitAssociates(a: nat, b: nat, c: nat)
    ensures Xor(Xor(a, b), c) % 2 == Xor(a, Xor(b, c)) % 2
  {
    var p, q := Xor(a, b), Xor(b, c);
    assert AddBits(p, c) == AddBits(a, q) by {
      LastBit(a, b);
      LastBit(b, c);
      BitsAssociate(a, b, c, p, q);
    }
    LastBit(p, c);
    LastBit(a, q);
  }

  lemma OtherBits(a: nat, b: nat, c: nat)
    ensures Xor(Xor(a, b), c) / 2 == Xor(Xor(a / 2, b / 2), c / 2)
    ensures Xor(a, Xor(b, c)) / 2 == Xor(a / 2, Xor(b / 2, c / 2))
  {
    XorHalves(a, b);
    XorHalves(b, c);
    XorHalves(Xor(a, b), c);
    XorHalves(a, Xor(b, c));
  }

  lemma {:induction false} XorAssociates(a: nat, b: nat, c: nat)
    ensures Xor(Xor(a, b), c) == Xor(a, Xor(b, c))
    decreases a + b + c
  {
    if a != 0 || b != 0 || c != 0 {
      LastBitAssociates(a, b, c);
      OtherBits(a, b, c);
      XorAssociates(a / 2, b / 2, c / 2);
      SameBits(Xor(Xor(a, b), c), Xor(a, Xor(b, c)));
    }
  }

  lemma {:induction false} XorWithZero(a: nat)
    ensures Xor(a, 0) == a
  {
    if a != 0 {
      XorWithZero(a / 2);
    }
  }

  lemma {:induction false} XorWithItself(a: nat)
    ensures Xor(a, a) == 0
  {
    if a != 0 {
      XorWithItself(a / 2);
    }
  }

  /** Applying the same mask twice. */
  lemma XorCancels(a: nat, b: nat)
    ensures Xor(Xor(a, b), b) == a
  {
    XorAssociates(a, b, b);
    XorWithItself(b);
    XorWithZero(a);
  }

  lemma {:induction false} ShrDistributes(a: nat, b: nat, n: nat)
    ensures Shr(Xor(a, b), n) == Xor(Shr(a, n), Shr(b, n))
    decreases n
  {
    if n > 0 {
      XorHalves(a, b);
      ShrDistributes(a / 2, b / 2, n - 1);
    }
  }

  lemma {:induction false} ShrTwice(a: nat, m: nat, n: nat)
    ensures Shr(Shr(a, m), n) == Shr(a, m + n)
    decreases m
  {
    if m > 0 {
      ShrTwice(a / 2, m - 1, n);
    }
  }

  lemma {:induction false} ShrToZero(a: nat, n: nat)
    requires a < Pow2(n)
    ensures Shr(a, n) == 0
    decreases n
  {
    if n > 0 {
      ShrToZero(a / 2, n - 1);
    }
  }

  lemma {:induction false} ShrIsSmaller(a: nat, n: nat)
    ensures Shr(a, n) <= a
    decreases n
  {
    if n > 0 {
      ShrIsSmaller(a / 2, n - 1);
    }
  }

  lemma {:induction false} XorIsBounded(a: nat, b: nat, n: nat)
    requires a < Pow2(n) && b < Pow2(n)
    ensures Xor(a, b) < Pow2(n)
    decreases n
  {
    if n > 0 {
      XorIsBounded(a / 2, b / 2, n - 1);
    }
  }

  lemma XorIsWord(a: word, b: word)
    ensures Xor(a, b) < MODULUS
  {
    SmallPowers();
    XorIsBounded(a, b, 64);
  }

  function ShiftXor(z: word, n: nat): word {
    ShrIsSmaller(z, n);
    XorIsWord(z, Shr(z, n));
    Xor(z, Shr(z, n))
  }

  /** Its inverse for shifts of at least 22 bits. */
  function UnshiftXor(z: word, n: nat): word {
    ShrIsSmaller(z, 2 * n);
    XorIsWord(ShiftXor(z, n), Shr(z, 2 * n));
    Xor(ShiftXor(z, n), Shr(z, 2 * n))
  }

  /** Three shifts leave nothing. */
  lemma ThreeShifts(z: word, n: nat)
    requires 3 * n >= 64
    ensures Shr(Shr(z, n), n) == Shr(z, 2 * n) && Shr(Shr(z, 2 * n), n) == 0 && Shr(Shr(z, n), 2 * n) == 0
  {
    ShrTwice(z, n, n);
    ShrTwice(z, 2 * n, n);
    ShrTwice(z, n, 2 * n);
    SmallPowers();
    PowersGrow(64, 3 * n);
    ShrToZero(z, 3 * n);
  }

  lemma XorChain(z: nat, s: nat, t: nat)
    ensures Xor(Xor(z, s), Xor(s, t)) == Xor(z, t)
    ensures Xor(Xor(Xor(z, s), t), Xor(s, t)) == z
  {
    XorAssociates(Xor(z, s), s, t);
    XorCancels(z, s);
    XorAssociates(z, s, t);
    XorCancels(z, Xor(s, t));
  }

  lemma ShiftXorIsBijective(z: word, n: nat)
    requires 3 * n >= 64
    ensures UnshiftXor(ShiftXor(z, n), n) == z && ShiftXor(UnshiftXor(z, n), n) == z
  {
    ShiftThenUnshift(z, n);
    UnshiftThenShift(z, n);
  }

  lemma ShiftThenUnshift(z: word, n: nat)
    requires 3 * n >= 64
    ensures UnshiftXor(ShiftXor(z, n), n) == z
  {
    var s, t := Shr(z, n), Shr(z, 2 * n);
    ThreeShifts(z, n);
    ShrDistributes(z, s, n);
    ShrDistributes(z, s, 2 * n);
    XorWithZero(t);
    XorChain(z, s, t);
    XorCancels(z, t);
  }

  lemma UnshiftThenShift(z: word, n: nat)
    requires 3 * n >= 64
    ensures ShiftXor(UnshiftXor(z, n), n) == z
  {
    var s, t := Shr(z, n), Shr(z, 2 * n);
    ThreeShifts(z, n);
    ShrDistributes(Xor(z, s), t, n);
    ShrDistributes(z, s, n);
    XorWithZero(Xor(s, t));
    XorChain(z, s, t);
  }

  // ----- Sums and products modulo 2^64 ----------------------------------------------------------------------

  function Add(a: word, b: word): word { (a + b) % MODULUS }

  function Mul(a: word, b: word): word { (a * b) % MODULUS }

  lemma AddIsBijective(z: word, c: word)
    requires c > 0
    ensures Add(Add(z, c), MODULUS - c) == z && Add(Add(z, MODULUS - c), c) == z
  {
    AddCancels(z, c);
    AddCancels(z, MODULUS - c);
  }

  lemma AddWraps(a: word, b: word)
    ensures Add(a, b) == if a + b < MODULUS then a + b else a + b - MODULUS
  {
  }

  lemma AddCancels(z: word, c: word)
    requires c > 0
    ensures Add(Add(z, c), MODULUS - c) == z
  {
    AddWraps(z, c);
    AddWraps(Add(z, c), MODULUS - c);
  }

  lemma ModOfProduct(x: nat, b: nat)
    ensures ((x % MODULUS) * b) % MODULUS == (x * b) % MODULUS
  {
    var q, r := x / MODULUS, x % MODULUS;
    assert x == q * MODULUS + r;
    DistributeOver(q, MODULUS, r, b);
    WholePartDrops(q * b, r * b);
  }

  lemma DistributeOver(q: nat, m: nat, r: nat, b: nat)
    ensures (q * m + r) * b == (q * b) * m + r * b
  {
    assert (q * m) * b == (q * b) * m;
  }

  lemma WholePartDrops(k: nat, x: nat)
    ensures (k * MODULUS + x) % MODULUS == x % MODULUS
  {
  }

  /** Multiplying by `a` and then by its inverse. */
  lemma MulCancels(z: word, a: word, b: word)
    requires (a * b) % MODULUS == 1
    ensures Mul(Mul(z, a), b) == z
  {
    ModOfProduct(z * a, b);
    assert z * a * b == (a * b) * z;
    ModOfProduct(a * b, z);
  }
}
