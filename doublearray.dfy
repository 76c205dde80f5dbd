/** The finished double array: 32-bit units in which node `pos` has its
    children at `pos ^ offset(unit) ^ byte`, each child carrying its byte as
    label, and a node with a leaf finds its value unit at `pos ^ offset`. */
module DoubleArrays {
  import opened Wrappers
  import opened Bytes
  import opened NatBits
  import opened DoubleArrayBuilderUnits
  import opened KeySets
  import opened DoubleArrayBuilders

  const LABEL_FIELD_MASK: nat := 0x8000_00FF     // (1 << 31) | 0xFF

  // ---- unit decoders --------------------------------------------------------

  /** `((unit >> 8) & 1) == 1`. */
  predicate HasLeaf(u: nat)
  {
    (u / 256) % 2 == 1
  }

  lemma HasLeafIsBit8(u: nat)
    ensures HasLeaf(u) == Bit(u, 8)
  {
    Pow2Constants();
    ShrBit(u, 8, 0);
  }

  function Value(u: nat): nat
  {
    And(u, VALUE_FLAG - 1)
  }

  function Label(u: nat): nat
  {
    And(u, LABEL_FIELD_MASK)
  }

  /** `(unit >> 10) << ((unit & (1 << 9)) >> 6)`. */
  function Offset(u: nat): nat
  {
    Shl(u / 1024, And(u, WIDE_OFFSET_FLAG) / 64)
  }

  /** The value is the low 31 bits of the unit. */
  lemma ValueIsLowBits(u: nat)
    ensures Value(u) == u % VALUE_FLAG
    ensures Value(u) < VALUE_FLAG
  {
    Pow2Constants();
    AndLowMask(u, 31);
  }

  lemma LabelMaskBits(k: nat)
    ensures Bit(LABEL_FIELD_MASK, k) <==> k == 31 || k < 8
  {
    Pow2Constants();
    var low := Pow2(8) - 1;
    forall j: nat ensures !(Bit(low, j) && Bit(VALUE_FLAG, j)) {
      Pow2Bit(31, j);
      LowOnes(8, j);
    }
    OrDisjoint(low, VALUE_FLAG);
    OrBit(low, VALUE_FLAG, k);
    LowOnes(8, k);
    Pow2Bit(31, k);
  }

  /** The label keeps bit 31, so a value unit never carries a byte label. */
  lemma LabelOfValueUnit(u: nat)
    requires Bit(u, 31)
    ensures Label(u) >= VALUE_FLAG
  {
    Pow2Constants();
    LabelMaskBits(31);
    AndBit(u, LABEL_FIELD_MASK, 31);
    BelowPow2(Label(u), 31);
  }

  /** For a node unit (bit 31 clear) the label is the low byte. */
  lemma LabelOfNodeUnit(u: nat)
    requires !Bit(u, 31)
    ensures Label(u) == u % 256
  {
    Pow2Constants();
    forall k: nat ensures Bit(Label(u), k) == Bit(u % 256, k) {
      LabelMaskBits(k);
      AndBit(u, LABEL_FIELD_MASK, k);
      ModBit(u, 8, k);
    }
    BitExt(Label(u), u % 256);
  }

  /** Bit 9 selects between the offset as stored and the offset times 256. */
  lemma OffsetDecode(u: nat)
    ensures Offset(u) == if Bit(u, 9) then (u / 1024) * 256 else u / 1024
  {
    Pow2Constants();
    SingleBitMask(u, 9);
    ShlIsMul(u / 1024, And(u, WIDE_OFFSET_FLAG) / 64);
  }

  /** The label depends only on bits 0-7 and 31. */
  lemma LabelFromBits(u: nat, w: nat)
    requires forall k: nat :: (k < 8 || k == 31) ==> Bit(u, k) == Bit(w, k)
    ensures Label(u) == Label(w)
  {
    forall k: nat ensures Bit(Label(u), k) == Bit(Label(w), k) {
      LabelMaskBits(k);
      AndBit(u, LABEL_FIELD_MASK, k);
      AndBit(w, LABEL_FIELD_MASK, k);
    }
    BitExt(Label(u), Label(w));
  }

  /** The offset depends only on bits 9 and up. */
  lemma OffsetFromBits(u: nat, w: nat)
    requires forall k: nat :: k >= 9 ==> Bit(u, k) == Bit(w, k)
    ensures Offset(u) == Offset(w)
  {
    Pow2Constants();
    OffsetDecode(u);
    OffsetDecode(w);
    forall k: nat ensures Bit(u / 1024, k) == Bit(w / 1024, k) {
      ShrBit(u, 10, k);
      ShrBit(w, 10, k);
    }
    BitExt(u / 1024, w / 1024);
  }

  // ---- the decoders invert the builder's setters ---------------------------

  /** A value below 2**31 is read back, and its unit never matches a byte label. */
  lemma ValueRoundTrip(v: nat)
    requires v < VALUE_FLAG
    ensures Value(WithValue(v)) == v
    ensures Label(WithValue(v)) >= VALUE_FLAG
  {
    WithValueSum(v);
    ValueIsLowBits(WithValue(v));
    ValueUnitFlag(v);
    LabelOfValueUnit(WithValue(v));
  }

  lemma ValueUnitFlag(v: nat)
    ensures Bit(WithValue(v), 31)
  {
    WithValueBits(v, 31);
  }

  /** `set_label` of a byte is read back by `label` and disturbs neither the
      has-leaf flag nor the offset. */
  lemma LabelRoundTrip(u: nat, lab: nat)
    requires lab < 256 && !Bit(u, 31)
    ensures Label(WithLabel(u, lab)) == lab
    ensures HasLeaf(WithLabel(u, lab)) == HasLeaf(u)
    ensures Offset(WithLabel(u, lab)) == Offset(u)
  {
    var w := WithLabel(u, lab);
    Pow2Constants();
    BelowPow2(lab, 8);
    forall k: nat | k >= 8 ensures Bit(w, k) == Bit(u, k) {
      WithLabelBits(u, lab, k);
    }
    LabelOfNodeUnit(w);
    WithLabelByte(u, lab);
    OffsetFromBits(u, w);
  }

  /** `set_has_leaf` is read back by `has_leaf` and disturbs neither the label
      nor the offset. */
  lemma HasLeafRoundTrip(u: nat, hasLeaf: bool)
    ensures HasLeaf(WithHasLeaf(u, hasLeaf)) == hasLeaf
    ensures Label(WithHasLeaf(u, hasLeaf)) == Label(u)
    ensures Offset(WithHasLeaf(u, hasLeaf)) == Offset(u)
  {
    var w := WithHasLeaf(u, hasLeaf);
    forall k: nat ensures Bit(w, k) == if k == 8 then hasLeaf else Bit(u, k) {
      WithHasLeafBits(u, hasLeaf, k);
    }
    LabelFromBits(u, w);
    OffsetFromBits(u, w);
    HasLeafIsBit8(u);
    HasLeafIsBit8(w);
  }

  /** `offset` recovers what `set_offset` stored when the offset is below 2**21
      or a multiple of 256 (and bit 31 of the unit is clear); the has-leaf flag
      survives, and so does the label for offsets below 2**29. */
  lemma OffsetRoundTrip(u: nat, off: nat)
    requires !Bit(u, 31)
    requires off < NARROW_OFFSET_LIMIT || off % 256 == 0
    ensures Offset(WithOffset(u, off)) == off
    ensures HasLeaf(WithOffset(u, off)) == HasLeaf(u)
    ensures off < Pow2(29) ==> Label(WithOffset(u, off)) == Label(u)
  {
    OffsetReadBack(u, off);
    OffsetKeepsHasLeaf(u, off);
    if off < Pow2(29) {
      OffsetKeepsLabel(u, off);
    }
  }

  lemma OffsetKeepsHasLeaf(u: nat, off: nat)
    requires off < NARROW_OFFSET_LIMIT || off % 256 == 0
    ensures HasLeaf(WithOffset(u, off)) == HasLeaf(u)
  {
    Pow2Constants();
    WithOffsetBits(u, off, 8);
    OffsetFieldBits(off, 8);
    ModBit(off, 8, 6);
    ZeroBit(6);
    HasLeafIsBit8(u);
    HasLeafIsBit8(WithOffset(u, off));
  }

  lemma OffsetReadBack(u: nat, off: nat)
    requires !Bit(u, 31)
    requires off < NARROW_OFFSET_LIMIT || off % 256 == 0
    ensures Offset(WithOffset(u, off)) == off
  {
    Pow2Constants();
    var w := WithOffset(u, off);
    OffsetDecode(w);
    WithOffsetBits(u, off, 9);
    OffsetFieldBits(off, 9);
    if off < NARROW_OFFSET_LIMIT {
      BelowPow2(off, 21);
      forall k: nat ensures Bit(w / 1024, k) == Bit(off, k) {
        ShrBit(w, 10, k);
        WithOffsetBits(u, off, k + 10);
        OffsetFieldBits(off, k + 10);
      }
      BitExt(w / 1024, off);
    } else {
      forall k: nat ensures Bit(w / 1024, k) == Bit(off / 256, k) {
        ShrBit(w, 10, k);
        ShrBit(off, 8, k);
        WithOffsetBits(u, off, k + 10);
        OffsetFieldBits(off, k + 10);
      }
      BitExt(w / 1024, off / 256);
    }
  }

  lemma OffsetKeepsLabel(u: nat, off: nat)
    requires off < NARROW_OFFSET_LIMIT || off % 256 == 0
    requires off < Pow2(29)
    ensures Label(WithOffset(u, off)) == Label(u)
  {
    Pow2Constants();
    var w := WithOffset(u, off);
    BelowPow2(off, 29);
    BelowPow2(off, 21);
    forall k: nat | k < 8 || k == 31 ensures Bit(u, k) == Bit(w, k) {
      WithOffsetBits(u, off, k);
      OffsetFieldBits(off, k);
      if off >= NARROW_OFFSET_LIMIT && 2 <= k < 8 {
        ModBit(off, 8, k - 2);
        ZeroBit(k - 2);
      }
    }
    LabelFromBits(u, w);
  }

  // ---- searching ------------------------------------------------------------

  /** The child of node `pos` along byte k, as exact_match_search computes it. */
  function Child(a: seq<nat>, pos: nat, k: byte): nat
    requires pos < |a|
  {
    Xor(pos, Xor(Offset(a[pos]), k))
  }

  /** `pos ^ offset(a[pos])`: children sit at `Base ^ byte`, the value unit at `Base`. */
  function Base(a: seq<nat>, pos: nat): nat
    requires pos < |a|
  {
    Xor(pos, Offset(a[pos]))
  }

  lemma ChildIsBaseXor(a: seq<nat>, pos: nat, k: byte)
    requires pos < |a|
    ensures Child(a, pos, k) == Xor(Base(a, pos), k)
  {
    XorAssoc(pos, Offset(a[pos]), k);
  }

  /** The value unit beside node `pos`, when the node has a leaf. */
  function LeafValue(a: seq<nat>, pos: nat): (r: Result<Option<nat>>)
    requires pos < |a|
  {
    if !HasLeaf(a[pos]) then Ok(None)
    else if Base(a, pos) >= |a| then Err(OUT_OF_RANGE)
    else Ok(Some(Value(a[Base(a, pos)])))
  }

  /** The value stored under `key[i..e]` below node `pos`: follow one child
      per byte, None at the first label mismatch, IndexError when an index
      falls outside the array. */
  function Lookup(a: seq<nat>, pos: nat, key: seq<byte>, i: nat, e: nat): (r: Result<Option<nat>>)
    requires pos < |a| && i <= e <= |key|
    decreases e - i
  {
    if i == e then LeafValue(a, pos)
    else
      var c := Child(a, pos, key[i]);
      if c >= |a| then Err(OUT_OF_RANGE)
      else if Label(a[c]) != key[i] then Ok(None)
      else Lookup(a, c, key, i + 1, e)
  }

  /** The hits of common_prefix_search from key position i onward, `base`
      being the XOR base of the node reached so far. */
  function PrefixHits(a: seq<nat>, key: seq<byte>, i: nat, base: nat): (r: Result<seq<(nat, nat)>>)
    decreases |key| - i
  {
    if i >= |key| then Ok([])
    else
      var c := Xor(base, key[i]);
      if c >= |a| then Err(OUT_OF_RANGE)
      else if Label(a[c]) != key[i] then Ok([])
      else
        var next := Base(a, c);
        if HasLeaf(a[c]) && next >= |a| then Err(OUT_OF_RANGE)
        else
          var rest := PrefixHits(a, key, i + 1, next);
          if rest.Err? || !HasLeaf(a[c]) then rest
          else Ok([(Value(a[next]), i + 1)] + rest.value)
  }

  /** The value the lookup of `key[i..end]` below `pos` finds, if any. */
  function Found(a: seq<nat>, pos: nat, key: seq<byte>, i: nat): nat -> Option<nat>
  {
    (end: nat) =>
      if pos < |a| && i <= end <= |key| && Lookup(a, pos, key, i, end).Ok?
      then Lookup(a, pos, key, i, end).value
      else None
  }

  /** In order of end, every (value, end) with `e <= end <= n` for which
      `found` gives a value. */
  function HitsFrom(found: nat -> Option<nat>, e: nat, n: nat): seq<(nat, nat)>
    decreases n + 1 - e
  {
    if e > n then []
    else (if found(e).Some? then [(found(e).value, e)] else []) + HitsFrom(found, e + 1, n)
  }

  /** The reference list: in order of end, every (value, end) with
      `e <= end <= |key|` such that `key[i..end]` looks up `value` below `pos`. */
  function LookupHits(a: seq<nat>, pos: nat, key: seq<byte>, i: nat, e: nat): seq<(nat, nat)>
  {
    HitsFrom(Found(a, pos, key, i), e, |key|)
  }

  predicate EndsIncreaseWithin(hs: seq<(nat, nat)>, lo: nat, hi: nat)
  {
    (forall j :: 0 <= j < |hs| ==> lo < hs[j].1 <= hi)
    && (forall j, j' :: 0 <= j < j' < |hs| ==> hs[j].1 < hs[j'].1)
  }

  lemma EndsCons(x: (nat, nat), rest: seq<(nat, nat)>, lo: nat, hi: nat)
    requires lo < x.1 <= hi && EndsIncreaseWithin(rest, x.1, hi)
    ensures EndsIncreaseWithin([x] + rest, lo, hi)
  {
  }

  lemma EndsWeaken(hs: seq<(nat, nat)>, lo: nat, lo': nat, hi: nat)
    requires lo <= lo' && EndsIncreaseWithin(hs, lo', hi)
    ensures EndsIncreaseWithin(hs, lo, hi)
  {
  }

  /** The reference list has strictly increasing ends inside `[e, |key|]`. */
  lemma LookupHitsEnds(a: seq<nat>, pos: nat, key: seq<byte>, i: nat, e: nat)
    requires e >= 1
    ensures EndsIncreaseWithin(LookupHits(a, pos, key, i, e), e - 1, |key|)
  {
    HitsEnds(Found(a, pos, key, i), e, |key|);
  }

  lemma {:induction false} HitsEnds(found: nat -> Option<nat>, e: nat, n: nat)
    requires e >= 1
    ensures EndsIncreaseWithin(HitsFrom(found, e, n), e - 1, n)
    decreases n + 1 - e
  {
    if e <= n {
      HitsEnds(found, e + 1, n);
      var rest := HitsFrom(found, e + 1, n);
      if found(e).Some? {
        EndsCons((found(e).value, e), rest, e - 1, n);
      } else {
        EndsWeaken(rest, e - 1, e, n);
      }
    }
  }

  /** A lookup of `key[i..e]` is a lookup of `key[i + 1..e]` from the child
      reached by `key[i]`. */
  lemma LookupStep(a: seq<nat>, pos: nat, key: seq<byte>, i: nat, e: nat)
    requires pos < |a| && i < e <= |key|
    requires Child(a, pos, key[i]) < |a| && Label(a[Child(a, pos, key[i])]) == key[i]
    ensures Lookup(a, pos, key, i, e) == Lookup(a, Child(a, pos, key[i]), key, i + 1, e)
  {
  }

  /** No key through a mismatching byte is stored. */
  lemma LookupMismatch(a: seq<nat>, pos: nat, key: seq<byte>, i: nat, e: nat)
    requires pos < |a| && i < e <= |key|
    requires Child(a, pos, key[i]) < |a| && Label(a[Child(a, pos, key[i])]) != key[i]
    ensures Lookup(a, pos, key, i, e) == Ok(None)
  {
  }

  /** Where `found` gives nothing, the list is empty. */
  lemma {:induction false} HitsNone(found: nat -> Option<nat>, e: nat, n: nat)
    requires forall end: nat :: e <= end <= n ==> found(end).None?
    ensures HitsFrom(found, e, n) == []
    decreases n + 1 - e
  {
    if e <= n {
      assert found(e).None?;
      HitsNone(found, e + 1, n);
    }
  }

  /** Two `found` functions that agree on `[e, n]` give the same list. */
  lemma {:induction false} HitsAgree(f: nat -> Option<nat>, g: nat -> Option<nat>, e: nat, n: nat)
    requires forall end: nat :: e <= end <= n ==> f(end) == g(end)
    ensures HitsFrom(f, e, n) == HitsFrom(g, e, n)
    decreases n + 1 - e
  {
    if e <= n {
      assert f(e) == g(e);
      HitsAgree(f, g, e + 1, n);
    }
  }

  /** With every lookup of `key[i..end]` missing, the reference list is empty. */
  lemma LookupHitsAllMiss(a: seq<nat>, pos: nat, key: seq<byte>, i: nat, e: nat)
    requires pos < |a| && i < e
    requires forall end :: e <= end <= |key| ==> Lookup(a, pos, key, i, end) == Ok(None)
    ensures LookupHits(a, pos, key, i, e) == []
  {
    var f := Found(a, pos, key, i);
    forall end: nat | e <= end <= |key| ensures f(end).None? {
      assert Lookup(a, pos, key, i, end) == Ok(None);
    }
    HitsNone(f, e, |key|);
  }

  /** After one matching byte the reference list continues from the child. */
  lemma LookupHitsShift(a: seq<nat>, pos: nat, key: seq<byte>, i: nat, e: nat)
    requires pos < |a| && i + 1 < e && i < |key|
    requires Child(a, pos, key[i]) < |a| && Label(a[Child(a, pos, key[i])]) == key[i]
    ensures LookupHits(a, pos, key, i, e) == LookupHits(a, Child(a, pos, key[i]), key, i + 1, e)
  {
    var c := Child(a, pos, key[i]);
    var f, g := Found(a, pos, key, i), Found(a, c, key, i + 1);
    forall end: nat | e <= end <= |key| ensures f(end) == g(end) {
      LookupStep(a, pos, key, i, end);
    }
    HitsAgree(f, g, e, |key|);
  }

  /** What common_prefix_search finds: exactly the reference list, that is
      every prefix of `key[i..]` that looks up a value, in order of length. */
  lemma {:induction false} PrefixHitsAreLookups(a: seq<nat>, key: seq<byte>, i: nat, pos: nat)
    requires pos < |a|
    requires PrefixHits(a, key, i, Base(a, pos)).Ok?
    ensures PrefixHits(a, key, i, Base(a, pos)).value == LookupHits(a, pos, key, i, i + 1)
    decreases |key| - i
  {
    if i < |key| {
      var c := Xor(Base(a, pos), key[i]);
      ChildIsBaseXor(a, pos, key[i]);
      if Label(a[c]) != key[i] {
        forall end | i + 1 <= end <= |key| ensures Lookup(a, pos, key, i, end) == Ok(None) {
          LookupMismatch(a, pos, key, i, end);
        }
        LookupHitsAllMiss(a, pos, key, i, i + 1);
      } else {
        var rest := PrefixHits(a, key, i + 1, Base(a, c));
        assert rest.Ok?;
        PrefixHitsAreLookups(a, key, i + 1, c);
        LookupHitsShift(a, pos, key, i, i + 2);
        LookupStep(a, pos, key, i, i + 1);
        assert LookupHits(a, pos, key, i, i + 1)
            == (if HasLeaf(a[c]) then [(Value(a[Base(a, c)]), i + 1)] else [])
               + LookupHits(a, c, key, i + 1, i + 2);
      }
    }
  }

  lemma LastOfAppend(hs: seq<(nat, nat)>, rest: seq<(nat, nat)>, x: (nat, nat))
    requires |rest| > 0 && rest[|rest| - 1] == x
    ensures |hs + rest| > 0 && (hs + rest)[|hs + rest| - 1] == x
  {
  }

  /** When the whole key looks up a value, it is the last reference hit. */
  lemma LookupHitsLast(a: seq<nat>, pos: nat, key: seq<byte>, i: nat, e: nat, v: nat)
    requires pos < |a| && i < e <= |key|
    requires Lookup(a, pos, key, i, |key|) == Ok(Some(v))
    ensures var hs := LookupHits(a, pos, key, i, e); |hs| > 0 && hs[|hs| - 1] == (v, |key|)
  {
    HitsLast(Found(a, pos, key, i), e, |key|, v);
  }

  lemma {:induction false} HitsLast(found: nat -> Option<nat>, e: nat, n: nat, v: nat)
    requires e <= n && found(n) == Some(v)
    ensures var hs := HitsFrom(found, e, n); |hs| > 0 && hs[|hs| - 1] == (v, n)
    decreases n + 1 - e
  {
    var head := if found(e).Some? then [(found(e).value, e)] else [];
    if e < n {
      HitsLast(found, e + 1, n, v);
      LastOfAppend(head, HitsFrom(found, e + 1, n), (v, n));
    } else {
      assert HitsFrom(found, e, n) == [(v, n)] + [];
    }
  }

  /** Every reference hit is a found lookup ending at or after `e`. */
  lemma LookupHitsFound(a: seq<nat>, pos: nat, key: seq<byte>, i: nat, e: nat)
    requires pos < |a| && i < e
    ensures forall j :: 0 <= j < |LookupHits(a, pos, key, i, e)| ==>
              var h := LookupHits(a, pos, key, i, e)[j];
              e <= h.1 <= |key| && Lookup(a, pos, key, i, h.1) == Ok(Some(h.0))
  {
    var f := Found(a, pos, key, i);
    HitsFound(f, e, |key|);
    forall j | 0 <= j < |LookupHits(a, pos, key, i, e)|
      ensures var h := LookupHits(a, pos, key, i, e)[j];
              e <= h.1 <= |key| && Lookup(a, pos, key, i, h.1) == Ok(Some(h.0))
    {
      var h := HitsFrom(f, e, |key|)[j];
      assert f(h.1) == Some(h.0);
    }
  }

  lemma {:induction false} HitsFound(found: nat -> Option<nat>, e: nat, n: nat)
    ensures forall j :: 0 <= j < |HitsFrom(found, e, n)| ==>
              var h := HitsFrom(found, e, n)[j];
              e <= h.1 <= n && found(h.1) == Some(h.0)
    decreases n + 1 - e
  {
    if e <= n {
      HitsFound(found, e + 1, n);
    }
  }

  /** exact_match_search and common_prefix_search agree: a key found exactly
      is the last prefix hit of a search from position 0 ... */
  lemma ExactMatchIsLastPrefixHit(a: seq<nat>, key: seq<byte>, v: nat)
    requires |a| > 0 && |key| > 0
    requires PrefixHits(a, key, 0, Base(a, 0)).Ok?
    requires Lookup(a, 0, key, 0, |key|) == Ok(Some(v))
    ensures var hs := PrefixHits(a, key, 0, Base(a, 0)).value;
            |hs| > 0 && hs[|hs| - 1] == (v, |key|)
  {
    PrefixHitsAreLookups(a, key, 0, 0);
    LookupHitsLast(a, 0, key, 0, 1, v);
  }

  /** ... and a key not found ends no prefix hit. */
  lemma ExactMissIsNoPrefixHit(a: seq<nat>, key: seq<byte>)
    requires |a| > 0
    requires PrefixHits(a, key, 0, Base(a, 0)).Ok?
    requires Lookup(a, 0, key, 0, |key|) == Ok(None)
    ensures var hs := PrefixHits(a, key, 0, Base(a, 0)).value;
            forall j :: 0 <= j < |hs| ==> hs[j].1 < |key|
  {
    PrefixHitsAreLookups(a, key, 0, 0);
    LookupHitsFound(a, 0, key, 0, 1);
  }

  /** common_prefix_search from the root, read through the reference list. */
  lemma PrefixSearchMeaning(a: seq<nat>, key: seq<byte>, offset: nat)
    requires |a| > 0
    ensures PrefixHits(a, key, offset, Base(a, 0)).Ok? ==>
              PrefixHits(a, key, offset, Base(a, 0)).value == LookupHits(a, 0, key, offset, offset + 1)
              && EndsIncreaseWithin(PrefixHits(a, key, offset, Base(a, 0)).value, offset, |key|)
  {
    if PrefixHits(a, key, offset, Base(a, 0)).Ok? {
      PrefixHitsAreLookups(a, key, offset, 0);
      LookupHitsEnds(a, 0, key, offset, offset + 1);
    }
  }

  function Prepend(hs: seq<(nat, nat)>, r: Result<seq<(nat, nat)>>): (x: Result<seq<(nat, nat)>>)
  {
    if r.Err? then r else Ok(hs + r.value)
  }

  /** One iteration of common_prefix_search, `hs` being the hits so far. */
  lemma PrefixHitsStep(a: seq<nat>, key: seq<byte>, i: nat, base: nat, hs: seq<(nat, nat)>)
    requires i < |key|
    ensures var c := Xor(base, key[i]);
            var now := Prepend(hs, PrefixHits(a, key, i, base));
            (c >= |a| ==> now == Err(OUT_OF_RANGE))
            && (c < |a| && Label(a[c]) != key[i] ==> now == Ok(hs))
            && (c < |a| && Label(a[c]) == key[i] && HasLeaf(a[c]) && Base(a, c) >= |a| ==>
                  now == Err(OUT_OF_RANGE))
            && (c < |a| && Label(a[c]) == key[i] && HasLeaf(a[c]) && Base(a, c) < |a| ==>
                  now == Prepend(hs + [(Value(a[Base(a, c)]), i + 1)], PrefixHits(a, key, i + 1, Base(a, c))))
            && (c < |a| && Label(a[c]) == key[i] && !HasLeaf(a[c]) ==>
                  now == Prepend(hs, PrefixHits(a, key, i + 1, Base(a, c))))
  {
    var c := Xor(base, key[i]);
    assert hs + [] == hs;
    if c < |a| && Label(a[c]) == key[i] && HasLeaf(a[c]) && Base(a, c) < |a| {
      var rest := PrefixHits(a, key, i + 1, Base(a, c));
      if rest.Ok? {
        var h := (Value(a[Base(a, c)]), i + 1);
        assert hs + ([h] + rest.value) == (hs + [h]) + rest.value;
      }
    }
  }

  /** `int.from_bytes` of every 4-byte group, as `build` decodes the builder's bytes. */
  function UnitsFromBytes(bs: seq<byte>): (units: seq<nat>)
    ensures |units| == |bs| / 4
    ensures forall i :: 0 <= i < |units| ==> units[i] < Pow256(4)
  {
    seq(|bs| / 4, i requires 0 <= i < |bs| / 4 => DecodeUnsigned(bs[4 * i..4 * i + 4]))
  }

  /** Reading the builder's bytes back gives the builder's units. */
  lemma {:induction false} UnitsFromUnitBytes(us: seq<nat>)
    requires UnitsFit(us)
    ensures UnitsFromBytes(UnitBytes(us)) == us
  {
    if us != [] {
      var init := us[..|us| - 1];
      var last := us[|us| - 1];
      assert UnitsFit(init);
      UnitsFromUnitBytes(init);
      var front := UnitBytes(init);
      var bs := UnitBytes(us);
      assert bs == front + EncodeUnsigned(last, 4);
      forall i | 0 <= i < |us|
        ensures UnitsFromBytes(bs)[i] == us[i]
      {
        if i < |init| {
          assert bs[4 * i..4 * i + 4] == front[4 * i..4 * i + 4];
          assert UnitsFromBytes(front)[i] == init[i];
        } else {
          assert bs[4 * i..4 * i + 4] == EncodeUnsigned(last, 4);
          DecodeEncodeUnsigned(last, 4);
        }
      }
    }
  }

  /** The root unit build_from_key_set_header writes before inserting keys
      (offset 1, then label 0) reads back as offset 1, label 0 and no leaf
      from any unit that is not a value unit and has no leaf, such as the
      fresh unit 0. */
  lemma RootUnit(u: nat)
    requires !Bit(u, 31) && !HasLeaf(u)
    ensures Offset(WithLabel(WithOffset(u, 1), 0)) == 1
    ensures Label(WithLabel(WithOffset(u, 1), 0)) == 0
    ensures !HasLeaf(WithLabel(WithOffset(u, 1), 0))
  {
    var w := WithOffset(u, 1);
    Pow2Constants();
    WithOffsetBits(u, 1, 31);
    OffsetFieldBits(1, 31);
    Pow2Bit(0, 21);
    OffsetRoundTrip(u, 1);
    OffsetKeepsHasLeaf(u, 1);
    LabelRoundTrip(w, 0);
  }

  /** The searchable array; `units` is the source's `array` field. */
  class DoubleArray {
    var units: seq<nat>
    var buffer: Option<seq<byte>>
    var size: nat

    constructor()
      ensures units == [] && buffer == None && size == 0
    {
      units := [];
      buffer := None;
      size := 0;
    }

    method SetArray(a: seq<nat>, n: nat)
      modifies this
      ensures units == a && size == n && buffer == old(buffer)
    {
      units := a;
      size := n;
    }

    /** Drops the byte buffer and the size; the units themselves are kept. */
    method Clear()
      modifies this
      ensures buffer == None && size == 0 && units == old(units)
    {
      buffer := None;
      size := 0;
    }

    function TotalSize(): (n: nat)
      reads this
      ensures n == 4 * size
    {
      4 * size
    }

    /** build for a key set without values: the key-set builder runs, its
        bytes become the buffer, and the units are read back from them. */
    method Build(keys: seq<seq<byte>>) returns (r: Result<()>)
      modifies this
      ensures r.Ok? ==> SortedFrom(KeySet(keys, None), 0, |keys|, 0)
                        && NullFreeFrom(KeySet(keys, None), 0, |keys|, 0)
      ensures r.Ok? ==> buffer.Some? && UnitsFit(units) && buffer.value == UnitBytes(units)
                        && size == |units| && |units| > 0 && TotalSize() == |buffer.value|
      ensures r.Err? ==> units == old(units) && buffer == old(buffer) && size == old(size)
    {
      var keySet := KeySet(keys, None);
      var builder := new DoubleArrayBuilder();
      var _ :- builder.BuildFromKeySetHeader(keySet);
      var bytes :- builder.Copy();
      UnitsFromUnitBytes(builder.units);
      buffer := Some(bytes);
      units := UnitsFromBytes(bytes);
      size := |units|;
      r := Ok(());
    }

    /** `[value, len(key)]` when `key` is stored, `[-1, 0]` when it is not. */
    method ExactMatchSearch(key: seq<byte>) returns (r: Result<(int, nat)>)
      ensures |units| == 0 ==> r.Err?
      ensures |units| > 0 ==>
                match Lookup(units, 0, key, 0, |key|)
                case Err(_) => r.Err?
                case Ok(None) => r == Ok((-1, 0))
                case Ok(Some(v)) => r == Ok((v as int, |key|))
    {
      if |units| == 0 {
        return Err(OUT_OF_RANGE);
      }
      var nodePos: nat := 0;
      var unit := units[nodePos];
      var i := 0;
      while i < |key|
        invariant 0 <= i <= |key|
        invariant nodePos < |units| && unit == units[nodePos]
        invariant Lookup(units, 0, key, 0, |key|) == Lookup(units, nodePos, key, i, |key|)
      {
        var k := key[i];
        nodePos := Xor(nodePos, Xor(Offset(unit), k));
        if nodePos >= |units| {
          return Err(OUT_OF_RANGE);
        }
        unit := units[nodePos];
        if Label(unit) != k {
          return Ok((-1, 0));
        }
        i := i + 1;
      }
      if !HasLeaf(unit) {
        return Ok((-1, 0));
      }
      var valuePos := Xor(nodePos, Offset(unit));
      if valuePos >= |units| {
        return Err(OUT_OF_RANGE);
      }
      unit := units[valuePos];
      r := Ok((Value(unit) as int, |key|));
    }

    /** Every (value, end) such that `key[offset..end]` is stored, in order
        of end; the walk stops at the first byte with no matching child. */
    method CommonPrefixSearch(key: seq<byte>, offset: nat) returns (r: Result<seq<(nat, nat)>>)
      ensures |units| == 0 ==> r.Err?
      ensures |units| > 0 ==> r == PrefixHits(units, key, offset, Base(units, 0))
      ensures |units| > 0 && r.Ok? ==>
                r.value == LookupHits(units, 0, key, offset, offset + 1)
                && EndsIncreaseWithin(r.value, offset, |key|)
    {
      if |units| == 0 {
        return Err(OUT_OF_RANGE);
      }
      PrefixSearchMeaning(units, key, offset);
      var result: seq<(nat, nat)> := [];
      var nodePos: nat := 0;
      var unit := units[nodePos];
      nodePos := Xor(nodePos, Offset(unit));
      var i := offset;
      assert PrefixHits(units, key, i, nodePos).Ok? ==>
               [] + PrefixHits(units, key, i, nodePos).value == PrefixHits(units, key, i, nodePos).value;
      while i < |key|
        invariant offset <= i && (i <= |key| || i == offset)
        invariant Prepend(result, PrefixHits(units, key, i, nodePos))
                  == PrefixHits(units, key, offset, Base(units, 0))
      {
        var k := key[i];
        PrefixHitsStep(units, key, i, nodePos, result);
        nodePos := Xor(nodePos, k);
        if nodePos >= |units| {
          return Err(OUT_OF_RANGE);
        }
        unit := units[nodePos];
        if Label(unit) != k {
          return Ok(result);
        }
        nodePos := Xor(nodePos, Offset(unit));
        if HasLeaf(unit) {
          if nodePos >= |units| {
            return Err(OUT_OF_RANGE);
          }
          result := result + [(Value(units[nodePos]), i + 1)];
        }
        i := i + 1;
      }
      assert result + [] == result;
      r := Ok(result);
    }
  }
}
