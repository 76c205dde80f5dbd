/** A growable bit vector with a rank directory, stored in 32-bit words. */
module BitVectors {
  import opened Wrappers

  const UNIT_SIZE: nat := 32

  /** Bit `i` of a word: `(w >> i) & 1 == 1`. */
  function WordBit(w: bv32, i: bv5): bool
  {
    (w >> i) & 1 == 1
  }

  /** The bit position of `id` inside its word. */
  function BitIndex(id: nat): bv5
  {
    (id % UNIT_SIZE) as bv5
  }

  /** The number of set bits of the low byte of `b`. */
  function Ones8(b: bv32): bv32
  {
    (b & 1) + ((b >> 1) & 1) + ((b >> 2) & 1) + ((b >> 3) & 1)
    + ((b >> 4) & 1) + ((b >> 5) & 1) + ((b >> 6) & 1) + ((b >> 7) & 1)
  }

  /** The byte of `u` starting at bit `k`. */
  function Byte(u: bv32, k: bv5): bv32
  {
    (u >> k) & 0xFF
  }

  function Sum4(a: bv32, b: bv32, c: bv32, d: bv32): bv32
  {
    a + b + c + d
  }

  /** The number of set bits of a 32-bit word, byte by byte: the reference
      `PopCount` is proved against. */
  function Ones32(u: bv32): bv32
  {
    Sum4(Ones8(Byte(u, 0)), Ones8(Byte(u, 8)), Ones8(Byte(u, 16)), Ones8(Byte(u, 24)))
  }

  // `pop_count`'s first three steps, which leave the bit count of each byte in that byte.
  function ByteCounts(u0: bv32): bv32
  {
    var u1 := ((u0 & 0xAAAAAAAA) >> 1) + (u0 & 0x55555555);
    var u2 := ((u1 & 0xCCCCCCCC) >> 2) + (u1 & 0x33333333);
    ((u2 >> 4) + u2) & 0x0F0F0F0F
  }

  // `pop_count`'s last two steps, which add the byte counts up.
  function SumOfBytes(u3: bv32): bv32
  {
    var u4 := u3 + (u3 >> 8);
    var u5 := u4 + (u4 >> 16);
    u5 & 0xFF
  }

  /** `pop_count`: the SWAR bit count. Python ints do not wrap, but the additions
      only carry upwards, so the low byte returned is the same as with 32-bit
      wrap-around. */
  function PopCount(u: bv32): bv32
  {
    SumOfBytes(ByteCounts(u))
  }

  /** After the first three steps each byte holds the bit count of the input's byte. */
  lemma ByteCountsByte(u: bv32, k: bv5)
    requires k == 0 || k == 8 || k == 16 || k == 24
    ensures Byte(ByteCounts(u), k) == Ones8(Byte(u, k))
  {
  }

  lemma Ones8Small(u: bv32, k: bv5)
    ensures Ones8(Byte(u, k)) <= 8
  {
  }

  lemma Pack(c: bv32)
    ensures c == Byte(c, 0) + (Byte(c, 8) << 8) + (Byte(c, 16) << 16) + (Byte(c, 24) << 24)
  {
  }

  lemma SumOfPacked(c0: bv32, c1: bv32, c2: bv32, c3: bv32)
    requires c0 <= 8 && c1 <= 8 && c2 <= 8 && c3 <= 8
    ensures SumOfBytes(c0 + (c1 << 8) + (c2 << 16) + (c3 << 24)) == Sum4(c0, c1, c2, c3)
  {
  }

  /** The last two steps add up the four bytes when none exceeds 8. */
  lemma SumOfBytesIsSum(c: bv32)
    requires Byte(c, 0) <= 8 && Byte(c, 8) <= 8 && Byte(c, 16) <= 8 && Byte(c, 24) <= 8
    ensures SumOfBytes(c) == Sum4(Byte(c, 0), Byte(c, 8), Byte(c, 16), Byte(c, 24))
  {
    Pack(c);
    SumOfPacked(Byte(c, 0), Byte(c, 8), Byte(c, 16), Byte(c, 24));
  }

  /** `pop_count(u)` is the number of set bits of the 32-bit word `u`. */
  lemma PopCountIsOnes(u: bv32)
    ensures PopCount(u) == Ones32(u)
  {
    ByteCountsByte(u, 0);
    ByteCountsByte(u, 8);
    ByteCountsByte(u, 16);
    ByteCountsByte(u, 24);
    Ones8Small(u, 0);
    Ones8Small(u, 8);
    Ones8Small(u, 16);
    Ones8Small(u, 24);
    SumOfBytesIsSum(ByteCounts(u));
  }

  /** The number of set bits in the first `k` words. */
  function OnesBefore(units: seq<bv32>, k: nat): nat
    requires k <= |units|
  {
    if k == 0 then 0 else OnesBefore(units, k - 1) + Ones32(units[k - 1]) as nat
  }

  /** `w | 1 << a` */
  function SetBit(w: bv32, a: bv5): bv32
  {
    w | (1 << a)
  }

  /** `w & ~(1 << a)` */
  function ClearBit(w: bv32, a: bv5): bv32
  {
    w & !(1 << a)
  }

  /** Setting or clearing bit `a` leaves every other bit of the word alone. */
  lemma SetBitFrame(w: bv32, a: bv5, c: bv5)
    ensures WordBit(SetBit(w, a), c) == (c == a || WordBit(w, c))
  {
  }

  lemma ClearBitFrame(w: bv32, a: bv5, c: bv5)
    ensures WordBit(ClearBit(w, a), c) == (c != a && WordBit(w, c))
  {
  }

  lemma OnesBeforeStep(units: seq<bv32>, k: nat)
    requires k < |units|
    ensures OnesBefore(units, k + 1) == OnesBefore(units, k) + PopCount(units[k]) as nat
  {
    PopCountIsOnes(units[k]);
  }

  lemma BitIndexInjective(x: nat, y: nat)
    requires x % UNIT_SIZE != y % UNIT_SIZE
    ensures BitIndex(x) != BitIndex(y)
  {
    assert BitIndex(x) as nat == x % UNIT_SIZE;
    assert BitIndex(y) as nat == y % UNIT_SIZE;
  }

  class BitVector {
    var units: seq<bv32>
    /** `None` after `clear`, as Python sets `ranks = None`. */
    var ranks: Option<seq<nat>>
    var numOnes: nat
    var size: nat

    /** Exactly enough words for `size` bits. */
    ghost predicate Valid()
      reads this
    {
      |units| == (size + UNIT_SIZE - 1) / UNIT_SIZE
    }

    /** The rank directory holds prefix counts of ones. */
    ghost predicate Built()
      reads this
    {
      ranks.Some? && |ranks.value| == |units|
      && (forall i {:trigger ranks.value[i]} :: 0 <= i < |units| ==> ranks.value[i] == OnesBefore(units, i))
      && numOnes == OnesBefore(units, |units|)
    }

    constructor ()
      ensures Valid() && Built()
      ensures units == [] && ranks == Some([]) && numOnes == 0 && size == 0
    {
      units := [];
      ranks := Some([]);
      numOnes := 0;
      size := 0;
    }

    /** get: bit `id % 32` of word `id / 32`; testing it against the mask
        `1 << (id % 32)` gives the same answer as shifting it down. */
    function Get(id: nat): (r: bool)
      reads this
      requires id / UNIT_SIZE < |units|
      ensures r <==> units[id / UNIT_SIZE] & (1 << BitIndex(id)) != 0
    {
      WordBit(units[id / UNIT_SIZE], BitIndex(id))
    }

    function IsEmpty(): (r: bool)
      reads this
      ensures r <==> units == []
    {
      |units| == 0
    }

    method Set(id: nat, bit: bool)
      requires id / UNIT_SIZE < |units|
      modifies this`units
      ensures |units| == |old(units)|
      ensures Get(id) == bit
      ensures forall j: nat :: j / UNIT_SIZE < |units| && j != id ==> Get(j) == old(Get(j))
    {
      var w := id / UNIT_SIZE;
      var b := BitIndex(id);
      var old0 := units[w];
      if bit {
        units := units[w := SetBit(old0, b)];
      } else {
        units := units[w := ClearBit(old0, b)];
      }
      SetBitFrame(old0, b, b);
      ClearBitFrame(old0, b, b);
      forall j: nat | j / UNIT_SIZE < |units| && j != id
        ensures Get(j) == old(Get(j))
      {
        if j / UNIT_SIZE == w {
          BitIndexInjective(j, id);
          SetBitFrame(old0, b, BitIndex(j));
          ClearBitFrame(old0, b, BitIndex(j));
        }
      }
    }

    /** A fresh zero word is added exactly when `size` is a multiple of 32. */
    method Append()
      modifies this`units, this`size
      ensures units == old(units) + (if old(size) % UNIT_SIZE == 0 then [0] else [])
      ensures size == old(size) + 1
      ensures old(Valid()) ==> Valid()
    {
      if size % UNIT_SIZE == 0 {
        units := units + [0];
      }
      size := size + 1;
    }

    /** Fills the rank directory: `ranks[i]` is the number of ones before word
        `i` and `numOnes` the total. */
    method Build()
      modifies this`ranks, this`numOnes
      ensures Built()
    {
      var rs: seq<nat> := seq(|units|, _ => 0);
      var n: nat := 0;
      var i := 0;
      while i < |units|
        invariant 0 <= i <= |units| && |rs| == |units|
        invariant n == OnesBefore(units, i)
        invariant forall k {:trigger rs[k]} :: 0 <= k < i ==> rs[k] == OnesBefore(units, k)
      {
        rs := rs[i := n];
        OnesBeforeStep(units, i);
        n := n + PopCount(units[i]) as nat;
        i := i + 1;
      }
      ranks := Some(rs);
      numOnes := n;
    }

    /** `rank(id)` as written: the mask `~0 >> (32 - (id % 32) - 1)` is built
        from Python's unbounded `~0`, which is -1, and shifting -1 right leaves
        -1, so the whole word containing `id` is counted. */
    function Rank(id: nat): (r: nat)
      reads this
      requires ranks.Some? && id / UNIT_SIZE < |units| && id / UNIT_SIZE < |ranks.value|
      ensures Built() ==> r == OnesBefore(units, id / UNIT_SIZE + 1)
    {
      var w := id / UNIT_SIZE;
      PopCountIsOnes(units[w]);
      ranks.value[w] + PopCount(units[w] & 0xFFFFFFFF) as nat
    }

    /** `clear` empties the words and drops the directory; `size` is kept. */
    method Clear()
      modifies this`units, this`ranks
      ensures units == [] && ranks == None
    {
      units := [];
      ranks := None;
    }
  }

  /** With one word whose only set bit is bit 1, `rank(0)` is 1 although no
      bit up to position 0 is set. */
  lemma RankCountsWholeWord(bv: BitVector)
    requires bv.units == [2] && bv.ranks == Some([0])
    ensures bv.Rank(0) == 1 && !bv.Get(0) && bv.Get(1)
  {
    PopCountIsOnes(2);
  }
}
