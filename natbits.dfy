/** Bitwise operations on unbounded naturals, the way Python's `&`, `|`, `^`,
    `<<` and `>>` act on non-negative ints, characterised bit by bit. */
module NatBits {

  function Pow2(k: nat): (r: nat)
    ensures r >= 1
  {
    if k == 0 then 1 else 2 * Pow2(k - 1)
  }

  /** Bit k of x: `(x >> k) & 1 == 1`. */
  predicate Bit(x: nat, k: nat)
  {
    if k == 0 then x % 2 == 1 else Bit(x / 2, k - 1)
  }

  function Or(a: nat, b: nat): nat
    decreases a + b
  {
    if a == 0 && b == 0 then 0
    else 2 * Or(a / 2, b / 2) + (if a % 2 == 1 || b % 2 == 1 then 1 else 0)
  }

  function And(a: nat, b: nat): nat
    decreases a + b
  {
    if a == 0 && b == 0 then 0
    else 2 * And(a / 2, b / 2) + (if a % 2 == 1 && b % 2 == 1 then 1 else 0)
  }

  function Xor(a: nat, b: nat): nat
    decreases a + b
  {
    if a == 0 && b == 0 then 0
    else 2 * Xor(a / 2, b / 2) + (if a % 2 != b % 2 then 1 else 0)
  }

  /** `x & ~m` for a non-negative x: the bits of x outside m. */
  function AndNot(x: nat, m: nat): nat
  {
    AndNotBound(x, m);
    x - And(x, m)
  }

  lemma {:induction false} AndNotBound(x: nat, m: nat)
    ensures And(x, m) <= x
    decreases x + m
  {
    if x != 0 || m != 0 { AndNotBound(x / 2, m / 2); }
  }

  // ---- bitwise characterisations ---------------------------------------------

  lemma {:induction false} OrBit(a: nat, b: nat, k: nat)
    ensures Bit(Or(a, b), k) <==> Bit(a, k) || Bit(b, k)
    decreases k
  {
    if k > 0 && (a != 0 || b != 0) {
      OrBit(a / 2, b / 2, k - 1);
    } else if k > 0 {
      ZeroBit(k);
    }
  }

  lemma {:induction false} AndBit(a: nat, b: nat, k: nat)
    ensures Bit(And(a, b), k) <==> Bit(a, k) && Bit(b, k)
    decreases k
  {
    if k > 0 && (a != 0 || b != 0) {
      AndBit(a / 2, b / 2, k - 1);
    } else if k > 0 {
      ZeroBit(k);
    }
  }

  lemma {:induction false} XorBit(a: nat, b: nat, k: nat)
    ensures Bit(Xor(a, b), k) <==> Bit(a, k) != Bit(b, k)
    decreases k
  {
    if k > 0 && (a != 0 || b != 0) {
      XorBit(a / 2, b / 2, k - 1);
    } else if k > 0 {
      ZeroBit(k);
    }
  }

  lemma AndNotBit(x: nat, m: nat, k: nat)
    ensures Bit(AndNot(x, m), k) <==> Bit(x, k) && !Bit(m, k)
  {
    AndNotBound(x, m);
    AndNotIsAnd(x, m);
    AndBit(x, m, k);
  }

  /** Subtracting the common bits leaves exactly the bits of x outside m. */
  lemma {:induction false} AndNotIsAnd(x: nat, m: nat)
    ensures And(x, m) <= x
    ensures forall k: nat :: Bit(x - And(x, m), k) <==> Bit(x, k) && !Bit(m, k)
    decreases x + m
  {
    AndNotBound(x, m);
    if x == 0 && m == 0 {
      forall k: nat ensures !Bit(0, k) { ZeroBit(k); }
    } else {
      AndNotIsAnd(x / 2, m / 2);
      var d := x - And(x, m);
      var h := x / 2 - And(x / 2, m / 2);
      assert d == 2 * h + (if x % 2 == 1 && m % 2 == 0 then 1 else 0);
      forall k: nat ensures Bit(d, k) <==> Bit(x, k) && !Bit(m, k) {
        if k > 0 {
          assert d / 2 == h;
        }
      }
    }
  }

  lemma {:induction false} ZeroBit(k: nat)
    ensures !Bit(0, k)
  {
    if k > 0 { ZeroBit(k - 1); }
  }

  lemma {:induction false} Pow2Bit(j: nat, k: nat)
    ensures Bit(Pow2(j), k) <==> j == k
  {
    if j == 0 {
      if k > 0 { ZeroBit(k - 1); }
    } else if k > 0 {
      Pow2Bit(j - 1, k - 1);
    }
  }

  /** Bit k of `x << j`. */
  lemma {:induction false} ShlBit(x: nat, j: nat, k: nat)
    ensures Bit(x * Pow2(j), k) <==> k >= j && Bit(x, k - j)
  {
    if j > 0 {
      assert x * Pow2(j) == 2 * (x * Pow2(j - 1));
      if k > 0 {
        ShlBit(x, j - 1, k - 1);
      }
    }
  }

  lemma MulAtLeast(d: nat, t: nat)
    requires t >= 1
    ensures d * t >= d
  {
    assert d * t == d + d * (t - 1);
  }

  /** Quotient and remainder are determined by `x == d * q + r` with `0 <= r < d`. */
  lemma DivModUnique(x: nat, d: nat, q: nat, r: nat)
    requires 0 <= r < d && x == d * q + r
    ensures x / d == q && x % d == r
  {
    var q0, r0 := x / d, x % d;
    assert x == d * q0 + r0;
    if q0 > q {
      assert d * q0 - d * q == d * (q0 - q);
      MulAtLeast(d, q0 - q);
    } else if q0 < q {
      assert d * q - d * q0 == d * (q - q0);
      MulAtLeast(d, q - q0);
    }
  }

  lemma DivTwice(x: nat, p: nat)
    requires p >= 1
    ensures x / (2 * p) == (x / 2) / p
    ensures x % (2 * p) == 2 * ((x / 2) % p) + x % 2
  {
    var q := (x / 2) / p;
    var s := (x / 2) % p;
    assert x / 2 == p * q + s;
    assert x == (2 * p) * q + (2 * s + x % 2);
    DivModUnique(x, 2 * p, q, 2 * s + x % 2);
  }

  lemma DivNonNegative(x: nat, p: nat)
    requires p >= 1
    ensures x / p >= 0
  {
  }

  /** Bit k of `x >> j`. */
  lemma {:induction false} ShrBit(x: nat, j: nat, k: nat)
    ensures x / Pow2(j) >= 0 && (Bit(x / Pow2(j), k) <==> Bit(x, k + j))
  {
    DivNonNegative(x, Pow2(j));
    if j > 0 {
      DivTwice(x, Pow2(j - 1));
      ShrBit(x / 2, j - 1, k);
    }
  }

  /** Bit k of `x % 2**j`, that is of `x & (2**j - 1)`. */
  lemma {:induction false} ModBit(x: nat, j: nat, k: nat)
    ensures Bit(x % Pow2(j), k) <==> k < j && Bit(x, k)
  {
    if j == 0 {
      ZeroBit(k);
    } else {
      DivTwice(x, Pow2(j - 1));
      var y := x % Pow2(j);
      if k > 0 {
        assert y / 2 == (x / 2) % Pow2(j - 1);
        ModBit(x / 2, j - 1, k - 1);
      }
    }
  }

  /** Two naturals with the same bits are equal. */
  lemma {:induction false} BitExt(a: nat, b: nat)
    requires forall k :: Bit(a, k) == Bit(b, k)
    ensures a == b
    decreases a + b
  {
    assert Bit(a, 0) == Bit(b, 0);
    if a != 0 || b != 0 {
      forall k: nat ensures Bit(a / 2, k) == Bit(b / 2, k) {
        assert Bit(a, k + 1) == Bit(b, k + 1);
      }
      BitExt(a / 2, b / 2);
    }
  }

  /** No bit at or above j is set in a value below 2**j, and conversely. */
  lemma BelowPow2(x: nat, j: nat)
    ensures x < Pow2(j) <==> forall k: nat :: k >= j ==> !Bit(x, k)
  {
    var p := Pow2(j);
    assert x == p * (x / p) + x % p;
    if x < p {
      DivModUnique(x, p, 0, x);
      forall k: nat | k >= j ensures !Bit(x, k) {
        ShrBit(x, j, k - j);
        ZeroBit(k - j);
      }
    } else {
      assert x / p != 0;
      var k := HighBit(x / p);
      ShrBit(x, j, k);
      assert Bit(x, k + j);
    }
  }

  /** A set bit of a non-zero natural. */
  lemma {:induction false} HighBit(x: nat) returns (k: nat)
    requires x > 0
    ensures Bit(x, k)
  {
    if x % 2 == 1 { k := 0; }
    else {
      var k' := HighBit(x / 2);
      k := k' + 1;
    }
  }

  // ---- consequences used by the trie code ------------------------------------

  /** XOR with a byte stays inside the same 256-slot block: `(a ^ l) >> 8 == a >> 8`. */
  lemma XorSameBlock(a: nat, l: nat)
    requires l < 256
    ensures Xor(a, l) / 256 == a / 256
  {
    assert Pow2(8) == 256;
    BelowPow2(l, 8);
    forall k: nat ensures Bit(Xor(a, l) / 256, k) == Bit(a / 256, k) {
      ShrBit(Xor(a, l), 8, k);
      ShrBit(a, 8, k);
      XorBit(a, l, k + 8);
    }
    BitExt(Xor(a, l) / 256, a / 256);
  }

  /** Numbers in the same block of 256 XOR to less than 256. */
  lemma SameBlockXor(a: nat, b: nat)
    requires a / 256 == b / 256
    ensures Xor(a, b) < 256
  {
    assert Pow2(8) == 256;
    forall k: nat | k >= 8 ensures !Bit(Xor(a, b), k) {
      XorBit(a, b, k);
      ShrBit(a, 8, k - 8);
      ShrBit(b, 8, k - 8);
    }
    BelowPow2(Xor(a, b), 8);
  }

  /** Numbers with the same low byte XOR to a multiple of 256. */
  lemma XorSameLowByte(a: nat, b: nat)
    requires a % 256 == b % 256
    ensures Xor(a, b) % 256 == 0
  {
    assert Pow2(8) == 256;
    forall k: nat ensures Bit(Xor(a, b) % 256, k) == Bit(0, k) {
      ModBit(Xor(a, b), 8, k);
      XorBit(a, b, k);
      ZeroBit(k);
      ModBit(a, 8, k);
      ModBit(b, 8, k);
    }
    BitExt(Xor(a, b) % 256, 0);
  }

  /** The low byte of `a ^ l` is the XOR of the low bytes. */
  lemma XorLowByte(a: nat, l: nat)
    requires l < 256
    ensures Xor(a, l) % 256 == Xor(a % 256, l)
  {
    assert Pow2(8) == 256;
    BelowPow2(l, 8);
    forall k: nat ensures Bit(Xor(a, l) % 256, k) == Bit(Xor(a % 256, l), k) {
      ModBit(Xor(a, l), 8, k);
      XorBit(a, l, k);
      XorBit(a % 256, l, k);
      ModBit(a, 8, k);
    }
    BitExt(Xor(a, l) % 256, Xor(a % 256, l));
  }

  lemma XorInvolution(a: nat, b: nat)
    ensures Xor(Xor(a, b), b) == a
  {
    forall k: nat ensures Bit(Xor(Xor(a, b), b), k) == Bit(a, k) {
      XorBit(Xor(a, b), b, k);
      XorBit(a, b, k);
    }
    BitExt(Xor(Xor(a, b), b), a);
  }

  lemma XorComm(a: nat, b: nat)
    ensures Xor(a, b) == Xor(b, a)
  {
    forall k: nat ensures Bit(Xor(a, b), k) == Bit(Xor(b, a), k) {
      XorBit(a, b, k);
      XorBit(b, a, k);
    }
    BitExt(Xor(a, b), Xor(b, a));
  }

  /** Values below 2**j are closed under `|`, `&` and `^`. */
  lemma BitwiseBelow(a: nat, b: nat, j: nat)
    requires a < Pow2(j) && b < Pow2(j)
    ensures Or(a, b) < Pow2(j) && And(a, b) < Pow2(j) && Xor(a, b) < Pow2(j)
  {
    BelowPow2(a, j);
    BelowPow2(b, j);
    forall k: nat | k >= j ensures !Bit(Or(a, b), k) && !Bit(And(a, b), k) && !Bit(Xor(a, b), k) {
      OrBit(a, b, k);
      AndBit(a, b, k);
      XorBit(a, b, k);
    }
    BelowPow2(Or(a, b), j);
    BelowPow2(And(a, b), j);
    BelowPow2(Xor(a, b), j);
  }

  /** `x & (2**j - 1) == x % 2**j`. */
  lemma AndLowMask(x: nat, j: nat)
    requires j >= 1
    ensures And(x, Pow2(j) - 1) == x % Pow2(j)
  {
    forall k: nat ensures Bit(And(x, Pow2(j) - 1), k) == Bit(x % Pow2(j), k) {
      LowOnes(j, k);
      AndBit(x, Pow2(j) - 1, k);
      ModBit(x, j, k);
    }
    BitExt(And(x, Pow2(j) - 1), x % Pow2(j));
  }

  /** `2**j - 1` has exactly the bits below j. */
  lemma {:induction false} LowOnes(j: nat, k: nat)
    ensures Bit(Pow2(j) - 1, k) <==> k < j
  {
    if j == 0 {
      ZeroBit(k);
    } else {
      var m := Pow2(j) - 1;
      assert m == 2 * (Pow2(j - 1) - 1) + 1;
      if k > 0 {
        assert m / 2 == Pow2(j - 1) - 1;
        LowOnes(j - 1, k - 1);
      }
    }
  }

  /** With no bit in common, `a | b` is `a + b`. */
  lemma {:induction false} OrDisjoint(a: nat, b: nat)
    requires forall k: nat :: !(Bit(a, k) && Bit(b, k))
    ensures Or(a, b) == a + b
    decreases a + b
  {
    if a != 0 || b != 0 {
      forall k: nat ensures !(Bit(a / 2, k) && Bit(b / 2, k)) {
        assert Bit(a, k + 1) == Bit(a / 2, k);
        assert Bit(b, k + 1) == Bit(b / 2, k);
      }
      OrDisjoint(a / 2, b / 2);
      assert !(Bit(a, 0) && Bit(b, 0));
    }
  }

  /** Or-ing bits below position j into a number shifted left by j adds them. */
  lemma OrLowBits(x: nat, j: nat, b: nat)
    requires b < Pow2(j)
    ensures Or(x * Pow2(j), b) == x * Pow2(j) + b
  {
    BelowPow2(b, j);
    forall k: nat ensures !(Bit(x * Pow2(j), k) && Bit(b, k)) {
      ShlBit(x, j, k);
    }
    OrDisjoint(x * Pow2(j), b);
  }

  lemma XorAssoc(a: nat, b: nat, c: nat)
    ensures Xor(a, Xor(b, c)) == Xor(Xor(a, b), c)
  {
    forall k: nat ensures Bit(Xor(a, Xor(b, c)), k) == Bit(Xor(Xor(a, b), c), k) {
      XorBit(a, Xor(b, c), k);
      XorBit(b, c, k);
      XorBit(Xor(a, b), c, k);
      XorBit(a, b, k);
    }
    BitExt(Xor(a, Xor(b, c)), Xor(Xor(a, b), c));
  }

  lemma XorZero(a: nat)
    ensures Xor(0, a) == a && Xor(a, 0) == a
  {
    forall k: nat ensures Bit(Xor(0, a), k) == Bit(a, k) && Bit(Xor(a, 0), k) == Bit(a, k) {
      XorBit(0, a, k);
      XorBit(a, 0, k);
      ZeroBit(k);
    }
    BitExt(Xor(0, a), a);
    BitExt(Xor(a, 0), a);
  }

  /** `x & 2**j` is `2**j` when bit j is set and 0 otherwise. */
  lemma SingleBitMask(x: nat, j: nat)
    ensures And(x, Pow2(j)) == if Bit(x, j) then Pow2(j) else 0
  {
    var r := if Bit(x, j) then Pow2(j) else 0;
    forall k: nat ensures Bit(And(x, Pow2(j)), k) == Bit(r, k) {
      AndBit(x, Pow2(j), k);
      Pow2Bit(j, k);
      ZeroBit(k);
    }
    BitExt(And(x, Pow2(j)), r);
  }

  /** `x << n`. */
  function Shl(x: nat, n: nat): nat
  {
    if n == 0 then x else 2 * Shl(x, n - 1)
  }

  lemma {:induction false} ShlIsMul(x: nat, n: nat)
    ensures Shl(x, n) == x * Pow2(n)
  {
    if n > 0 {
      ShlIsMul(x, n - 1);
      assert x * Pow2(n) == 2 * (x * Pow2(n - 1));
    }
  }
}
