/** One 32-bit unit of the double array while it is being built.  Bits 0-7
    hold the label, bit 8 the has-leaf flag, bit 9 selects the wide offset
    encoding, bits 10-31 the offset; a value unit has bit 31 set and the
    value in bits 0-30. */
module DoubleArrayBuilderUnits {
  import opened NatBits

  const HAS_LEAF_MASK: nat := 0x100              // 1 << 8
  const VALUE_FLAG: nat := 0x8000_0000           // 1 << 31
  const LABEL_MASK: nat := 0xFF
  const OFFSET_KEEP_MASK: nat := 0x8000_01FF     // (1 << 31) | (1 << 8) | 0xFF
  const WIDE_OFFSET_FLAG: nat := 0x200           // 1 << 9
  const NARROW_OFFSET_LIMIT: nat := 0x20_0000    // 1 << 21

  lemma Pow2Constants()
    ensures Pow2(8) == HAS_LEAF_MASK && Pow2(9) == WIDE_OFFSET_FLAG
    ensures Pow2(10) == 1024 && Pow2(2) == 4
    ensures Pow2(21) == NARROW_OFFSET_LIMIT && Pow2(31) == VALUE_FLAG
  {
  }

  // ---- the unit after each setter ------------------------------------------

  function WithHasLeaf(u: nat, hasLeaf: bool): nat
  {
    if hasLeaf then Or(u, HAS_LEAF_MASK) else AndNot(u, HAS_LEAF_MASK)
  }

  function WithValue(value: nat): nat
  {
    Or(value, VALUE_FLAG)
  }

  function WithLabel(u: nat, lab: nat): nat
  {
    Or(AndNot(u, LABEL_MASK), lab)
  }

  /** The bits `set_offset` ors into the unit. */
  function OffsetField(offset: nat): nat
  {
    if offset < NARROW_OFFSET_LIMIT then offset * Pow2(10)
    else Or(offset * Pow2(2), WIDE_OFFSET_FLAG)
  }

  function WithOffset(u: nat, offset: nat): nat
  {
    Or(And(u, OFFSET_KEEP_MASK), OffsetField(offset))
  }

  // ---- what each setter does, bit by bit -----------------------------------

  /** `set_has_leaf` sets or clears bit 8 and nothing else. */
  lemma WithHasLeafBits(u: nat, hasLeaf: bool, k: nat)
    ensures Bit(WithHasLeaf(u, hasLeaf), k) <==> if k == 8 then hasLeaf else Bit(u, k)
  {
    Pow2Constants();
    Pow2Bit(8, k);
    if hasLeaf { OrBit(u, HAS_LEAF_MASK, k); } else { AndNotBit(u, HAS_LEAF_MASK, k); }
  }

  /** `set_value` discards the old unit: bit 31 plus the bits of the value. */
  lemma WithValueBits(value: nat, k: nat)
    ensures Bit(WithValue(value), k) <==> k == 31 || Bit(value, k)
  {
    Pow2Constants();
    Pow2Bit(31, k);
    OrBit(value, VALUE_FLAG, k);
  }

  /** A value below 2**31 is stored as `value + 2**31`. */
  lemma WithValueSum(value: nat)
    requires value < VALUE_FLAG
    ensures WithValue(value) == value + VALUE_FLAG
  {
    Pow2Constants();
    BelowPow2(value, 31);
    forall k: nat ensures !(Bit(value, k) && Bit(VALUE_FLAG, k)) {
      Pow2Bit(31, k);
    }
    OrDisjoint(value, VALUE_FLAG);
  }

  /** `set_label` puts the label into bits 0-7; bits above are the old bits
      or-ed with any high bits of the label. */
  lemma WithLabelBits(u: nat, lab: nat, k: nat)
    ensures Bit(WithLabel(u, lab), k) <==>
            if k < 8 then Bit(lab, k) else Bit(u, k) || Bit(lab, k)
  {
    assert LABEL_MASK == Pow2(8) - 1 by { Pow2Constants(); }
    LowOnes(8, k);
    AndNotBit(u, LABEL_MASK, k);
    OrBit(AndNot(u, LABEL_MASK), lab, k);
  }

  /** For a byte label, the low byte becomes the label and the rest is kept. */
  lemma WithLabelByte(u: nat, lab: nat)
    requires lab < 256
    ensures WithLabel(u, lab) % 256 == lab
    ensures WithLabel(u, lab) / 256 == u / 256
  {
    Pow2Constants();
    var w := WithLabel(u, lab);
    BelowPow2(lab, 8);
    forall k: nat ensures Bit(w % 256, k) == Bit(lab, k) {
      ModBit(w, 8, k);
      WithLabelBits(u, lab, k);
    }
    BitExt(w % 256, lab);
    forall k: nat ensures Bit(w / 256, k) == Bit(u / 256, k) {
      ShrBit(w, 8, k);
      ShrBit(u, 8, k);
      WithLabelBits(u, lab, k + 8);
    }
    BitExt(w / 256, u / 256);
  }

  /** The field ors a narrow offset in at bit 10, a wide one at bit 2 with bit 9 set. */
  lemma OffsetFieldBits(offset: nat, k: nat)
    ensures offset < NARROW_OFFSET_LIMIT ==>
              (Bit(OffsetField(offset), k) <==> k >= 10 && Bit(offset, k - 10))
    ensures offset >= NARROW_OFFSET_LIMIT ==>
              (Bit(OffsetField(offset), k) <==> k == 9 || (k >= 2 && Bit(offset, k - 2)))
  {
    Pow2Constants();
    if offset < NARROW_OFFSET_LIMIT {
      ShlBit(offset, 10, k);
    } else {
      ShlBit(offset, 2, k);
      Pow2Bit(9, k);
      OrBit(offset * Pow2(2), WIDE_OFFSET_FLAG, k);
    }
  }

  /** `set_offset` keeps bits 31, 8 and 0-7 of the old unit, drops bits 9-30,
      and ors in the offset field. */
  lemma WithOffsetBits(u: nat, offset: nat, k: nat)
    ensures Bit(WithOffset(u, offset), k) <==>
            ((k == 31 || k == 8 || k < 8) && Bit(u, k)) || Bit(OffsetField(offset), k)
  {
    OrBit(And(u, OFFSET_KEEP_MASK), OffsetField(offset), k);
    AndBit(u, OFFSET_KEEP_MASK, k);
    KeepMaskBits(k);
  }

  lemma KeepMaskBits(k: nat)
    ensures Bit(OFFSET_KEEP_MASK, k) <==> k == 31 || k == 8 || k < 8
  {
    Pow2Constants();
    var low := Pow2(9) - 1;
    forall j: nat ensures !(Bit(low, j) && Bit(VALUE_FLAG, j)) {
      Pow2Bit(31, j);
      LowOnes(9, j);
    }
    OrDisjoint(low, VALUE_FLAG);
    OrBit(low, VALUE_FLAG, k);
    LowOnes(9, k);
    Pow2Bit(31, k);
  }

  /** The unit being built.  Each setter rewrites `unit` with masks and shifts. */
  class DoubleArrayBuilderUnit {
    var unit: nat

    constructor()
      ensures unit == 0
    {
      unit := 0;
    }

    method SetHasLeaf(hasLeaf: bool)
      modifies this
      ensures unit == WithHasLeaf(old(unit), hasLeaf)
      ensures forall k: nat :: Bit(unit, k) <==> if k == 8 then hasLeaf else Bit(old(unit), k)
    {
      if hasLeaf {
        unit := Or(unit, HAS_LEAF_MASK);
      } else {
        unit := AndNot(unit, HAS_LEAF_MASK);
      }
      forall k: nat ensures Bit(unit, k) <==> if k == 8 then hasLeaf else Bit(old(unit), k) {
        WithHasLeafBits(old(unit), hasLeaf, k);
      }
    }

    method SetValue(value: nat)
      modifies this
      ensures unit == WithValue(value)
      ensures forall k: nat :: Bit(unit, k) <==> k == 31 || Bit(value, k)
    {
      unit := Or(value, VALUE_FLAG);
      forall k: nat ensures Bit(unit, k) <==> k == 31 || Bit(value, k) {
        WithValueBits(value, k);
      }
    }

    method SetLabel(lab: nat)
      modifies this
      ensures unit == WithLabel(old(unit), lab)
      ensures lab < 256 ==> unit % 256 == lab && unit / 256 == old(unit) / 256
    {
      unit := Or(AndNot(unit, LABEL_MASK), lab);
      if lab < 256 {
        WithLabelByte(old(unit), lab);
      }
    }

    method SetOffset(offset: nat)
      modifies this
      ensures unit == WithOffset(old(unit), offset)
      ensures forall k: nat :: Bit(unit, k) <==>
                ((k == 31 || k == 8 || k < 8) && Bit(old(unit), k)) || Bit(OffsetField(offset), k)
    {
      unit := And(unit, OFFSET_KEEP_MASK);
      if offset < NARROW_OFFSET_LIMIT {
        unit := Or(unit, offset * Pow2(10));
      } else {
        unit := Or(unit, Or(offset * Pow2(2), WIDE_OFFSET_FLAG));
      }
      forall k: nat ensures Bit(unit, k) <==>
          ((k == 31 || k == 8 || k < 8) && Bit(old(unit), k)) || Bit(OffsetField(offset), k) {
        WithOffsetBits(old(unit), offset, k);
      }
    }
  }
}
