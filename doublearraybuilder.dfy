/** The key-set builder of the double array.  Unit slots are handed out from
    a circular free list kept in `extras`, a ring of NUM_EXTRAS records that
    an id reaches modulo its size; only the last NUM_EXTRA_BLOCKS blocks of
    256 units are still open, older blocks are fixed for good. */
module DoubleArrayBuilders {
  import opened Wrappers
  import opened Bytes
  import opened NatBits
  import opened KeySets
  import opened DoubleArrayBuilderUnits

  const BLOCK_SIZE: nat := 256
  const NUM_EXTRA_BLOCKS: nat := 16
  const NUM_EXTRAS: nat := 4096                  // BLOCK_SIZE * NUM_EXTRA_BLOCKS
  const UPPER_MASK: nat := 0x1FE0_0000           // 0xFF << 21
  const LOWER_MASK: nat := 0xFF

  const INVALID_NULL: Error := AttributeError("invalid null character")
  const NEGATIVE_VALUE: Error := AttributeError("negative value")
  const WRONG_KEY_ORDER: Error := AttributeError("wrong key order")
  /** find_valid_offset's guard against walking the free list in a cycle. */
  const FREE_LIST_CYCLE: Error := RuntimeError("unfixed id visited twice")

  /** The bookkeeping record of one unit slot. */
  datatype Extra = Extra(prev: nat, next: nat, isFixed: bool, isUsed: bool)

  const FRESH_EXTRA: Extra := Extra(0, 0, false, false)

  /** The ring position of an id (`get_extras`). */
  function Slot(id: nat): (s: nat)
    ensures s < NUM_EXTRAS
  {
    id % NUM_EXTRAS
  }

  /** Ids of one block occupy consecutive ring positions. */
  lemma SlotInBlock(begin: nat, k: nat)
    requires begin % BLOCK_SIZE == 0 && k < BLOCK_SIZE
    ensures Slot(begin) % BLOCK_SIZE == 0 && Slot(begin) + BLOCK_SIZE <= NUM_EXTRAS
    ensures Slot(begin + k) == Slot(begin) + k
  {
    var q, s := begin / 4096, begin % 4096;
    var b := begin / 256;
    assert begin == 4096 * q + s && begin == 256 * b;
    var m := b - 16 * q;
    assert s == 256 * m;
    DivModUnique(s, 256, m, 0);
    assert m < 16;
    DivModUnique(begin + k, 4096, q, s + k);
  }

  /** reserve_id's unlinking: the neighbours of `id` are joined and `id` is
      marked fixed. */
  function Unlinked(ex: seq<Extra>, id: nat): (r: seq<Extra>)
    requires |ex| == NUM_EXTRAS
    ensures |r| == NUM_EXTRAS
    ensures var e := ex[Slot(id)];
            r[Slot(e.prev)].next == e.next && r[Slot(e.next)].prev == e.prev
            && r[Slot(id)].prev == e.prev && r[Slot(id)].next == e.next
            && r[Slot(id)].isFixed
    ensures var e := ex[Slot(id)];
            forall s :: 0 <= s < NUM_EXTRAS && s != Slot(id) && s != Slot(e.prev) && s != Slot(e.next) ==>
              r[s] == ex[s]
    ensures forall s :: 0 <= s < NUM_EXTRAS ==>
              r[s].isUsed == ex[s].isUsed && (r[s].isFixed <==> ex[s].isFixed || s == Slot(id))
  {
    var e := ex[Slot(id)];
    var ex1 := ex[Slot(e.prev) := ex[Slot(e.prev)].(next := e.next)];
    var ex2 := ex1[Slot(e.next) := ex1[Slot(e.next)].(prev := e.prev)];
    ex2[Slot(id) := ex2[Slot(id)].(isFixed := true)]
  }

  /** The head of the free list after reserving `id`: its successor, or one
      past the units when `id` was the only free id. */
  function HeadAfterReserve(head: nat, ex: seq<Extra>, numUnits: nat, id: nat): nat
    requires |ex| == NUM_EXTRAS
  {
    if id != head then head
    else if ex[Slot(id)].next == id then numUnits
    else ex[Slot(id)].next
  }

  /** The first id of `[j, end)` whose slot is not used as an offset, or 0. */
  function FirstUnused(ex: seq<Extra>, j: nat, end: nat): (u: nat)
    requires |ex| == NUM_EXTRAS
    ensures u == 0 || (j <= u < end && !ex[Slot(u)].isUsed)
    ensures forall k :: j <= k < end && k < u ==> ex[Slot(k)].isUsed
    ensures u == 0 && j > 0 ==> forall k :: j <= k < end ==> ex[Slot(k)].isUsed
    decreases end - j
  {
    if j >= end then 0
    else if !ex[Slot(j)].isUsed then j
    else FirstUnused(ex, j + 1, end)
  }

  /** `len(units) | (id & 0xFF)`: an offset in the block just past the units. */
  function FallbackOffset(numUnits: nat, id: nat): nat
  {
    Or(numUnits, And(id, LOWER_MASK))
  }

  /** With whole blocks of units the fallback offset is past every unit and
      agrees with `id` in its low byte, so the relative offset `id ^ offset`
      has a zero low byte. */
  lemma FallbackOffsetShape(numUnits: nat, id: nat)
    requires numUnits % BLOCK_SIZE == 0
    ensures FallbackOffset(numUnits, id) == numUnits + id % 256
    ensures Xor(id, FallbackOffset(numUnits, id)) % 256 == 0
  {
    LowByteMask(id);
    DisjointLowByte(numUnits, id % 256);
    BlockPlusLowByte(numUnits, id);
    XorSameLowByte(id, numUnits + id % 256);
  }

  lemma LowByteMask(id: nat)
    ensures And(id, LOWER_MASK) == id % 256
  {
    assert Pow2(8) == 256 && LOWER_MASK == Pow2(8) - 1 by { Pow2Constants(); }
    AndLowMask(id, 8);
  }

  lemma BlockPlusLowByte(numUnits: nat, id: nat)
    requires numUnits % 256 == 0
    ensures (numUnits + id % 256) % 256 == id % 256
  {
  }

  lemma DisjointLowByte(n: nat, b: nat)
    requires n % 256 == 0 && b < 256
    ensures Or(n, b) == n + b
  {
    var p := Pow2(8);
    assert p == 256 by { Pow2Constants(); }
    BelowPow2(b, 8);
    forall k: nat ensures !(Bit(n, k) && Bit(b, k)) {
      if k < 8 {
        ModBit(n, 8, k);
        ZeroBit(k);
      }
    }
    OrDisjoint(n, b);
  }

  /** The mask test of is_valid_offset: a relative offset below 2**29 that
      passes it is one set_offset can store and offset can read back. */
  lemma MaskTestMeansStorable(rel: nat)
    requires And(rel, LOWER_MASK) == 0 || And(rel, UPPER_MASK) == 0
    requires rel < Pow2(29)
    ensures rel < NARROW_OFFSET_LIMIT || rel % 256 == 0
  {
    Pow2Constants();
    assert LOWER_MASK == Pow2(8) - 1;
    if And(rel, LOWER_MASK) == 0 {
      AndLowMask(rel, 8);
    } else {
      assert UPPER_MASK == 0xFF * Pow2(21);
      BelowPow2(rel, 29);
      forall k: nat | k >= 21 ensures !Bit(rel, k) {
        if k < 29 {
          ShlBit(0xFF, 21, k);
          assert 0xFF == Pow2(8) - 1;
          LowOnes(8, k - 21);
          AndBit(rel, UPPER_MASK, k);
          ZeroBit(k);
        }
      }
      BelowPow2(rel, 21);
    }
  }

  /** The ids of one block occupy `BLOCK_SIZE` consecutive ring positions. */
  lemma BlockSlots(begin: nat)
    requires begin % BLOCK_SIZE == 0
    ensures forall j :: begin <= j < begin + BLOCK_SIZE ==> Slot(j) == Slot(begin) + (j - begin)
    ensures Slot(begin) + BLOCK_SIZE <= NUM_EXTRAS
  {
    SlotInBlock(begin, 0);
    forall j | begin <= j < begin + BLOCK_SIZE
      ensures Slot(j) == Slot(begin) + (j - begin)
    {
      SlotInBlock(begin, j - begin);
    }
  }

  /** The closing writes of expand_units: the chain `src .. src + 255` is
      first closed on itself, then opened and put between the head's
      predecessor and the head. */
  function SpliceBlock(ex: seq<Extra>, src: nat, head: nat): (r: seq<Extra>)
    requires |ex| == NUM_EXTRAS
    ensures |r| == NUM_EXTRAS
  {
    var last := src + BLOCK_SIZE - 1;
    var e1 := ex[Slot(src) := ex[Slot(src)].(prev := last)];
    var e2 := e1[Slot(last) := e1[Slot(last)].(next := src)];
    var e3 := e2[Slot(src) := e2[Slot(src)].(prev := e2[Slot(head)].prev)];
    var e4 := e3[Slot(last) := e3[Slot(last)].(next := head)];
    var headPrev := e4[Slot(head)].prev;
    var e5 := e4[Slot(headPrev) := e4[Slot(headPrev)].(next := src)];
    e5[Slot(head) := e5[Slot(head)].(prev := last)]
  }

  /** When neither the head nor its predecessor sits in the new block's ring
      positions, the splice keeps the chain and links
      `predecessor -> src -> ... -> src + 255 -> head`. */
  lemma SpliceBlockLinks(ex: seq<Extra>, src: nat, head: nat)
    requires |ex| == NUM_EXTRAS && src % BLOCK_SIZE == 0
    requires forall j :: src <= j < src + BLOCK_SIZE - 1 ==> ex[Slot(j)].next == j + 1
    requires forall j :: src < j < src + BLOCK_SIZE ==> ex[Slot(j)].prev == j - 1
    ensures var r := SpliceBlock(ex, src, head);
            forall s :: 0 <= s < NUM_EXTRAS ==> r[s].isFixed == ex[s].isFixed && r[s].isUsed == ex[s].isUsed
    ensures SpliceBlock(ex, src, head)[Slot(head)].prev == src + BLOCK_SIZE - 1
    ensures var r := SpliceBlock(ex, src, head);
            var p := r[Slot(src)].prev;
            DoubleArrayBuilder.OutsideBlock(head, src) && DoubleArrayBuilder.OutsideBlock(p, src) ==>
              (forall j :: src <= j < src + BLOCK_SIZE - 1 ==> r[Slot(j)].next == j + 1)
              && (forall j :: src < j < src + BLOCK_SIZE ==> r[Slot(j)].prev == j - 1)
              && r[Slot(src + BLOCK_SIZE - 1)].next == head
              && r[Slot(p)].next == src
  {
    SpliceBlockFlags(ex, src, head);
    if DoubleArrayBuilder.OutsideBlock(head, src) {
      var p := SpliceBlock(ex, src, head)[Slot(src)].prev;
      if DoubleArrayBuilder.OutsideBlock(p, src) {
        SpliceBlockChain(ex, src, head);
      }
    }
  }

  /** The splice only rewrites links. */
  lemma SpliceBlockFlags(ex: seq<Extra>, src: nat, head: nat)
    requires |ex| == NUM_EXTRAS
    ensures var r := SpliceBlock(ex, src, head);
            forall s :: 0 <= s < NUM_EXTRAS ==> r[s].isFixed == ex[s].isFixed && r[s].isUsed == ex[s].isUsed
  {
  }

  /** Away from the head and its predecessor, the new block is linked in
      between them as one chain. */
  lemma SpliceBlockChain(ex: seq<Extra>, src: nat, head: nat)
    requires |ex| == NUM_EXTRAS && src % BLOCK_SIZE == 0
    requires forall j :: src <= j < src + BLOCK_SIZE - 1 ==> ex[Slot(j)].next == j + 1
    requires forall j :: src < j < src + BLOCK_SIZE ==> ex[Slot(j)].prev == j - 1
    requires DoubleArrayBuilder.OutsideBlock(head, src)
    requires DoubleArrayBuilder.OutsideBlock(SpliceBlock(ex, src, head)[Slot(src)].prev, src)
    ensures var r := SpliceBlock(ex, src, head);
            var p := r[Slot(src)].prev;
            (forall j :: src <= j < src + BLOCK_SIZE - 1 ==> r[Slot(j)].next == j + 1)
            && (forall j :: src < j < src + BLOCK_SIZE ==> r[Slot(j)].prev == j - 1)
            && r[Slot(src + BLOCK_SIZE - 1)].next == head
            && r[Slot(p)].next == src
  {
    BlockSlots(src);
    var r := SpliceBlock(ex, src, head);
    var last := src + BLOCK_SIZE - 1;
    var e1 := ex[Slot(src) := ex[Slot(src)].(prev := last)];
    var e2 := e1[Slot(last) := e1[Slot(last)].(next := src)];
    assert e2[Slot(head)] == ex[Slot(head)];
    var e3 := e2[Slot(src) := e2[Slot(src)].(prev := ex[Slot(head)].prev)];
    var e4 := e3[Slot(last) := e3[Slot(last)].(next := head)];
    assert e4[Slot(head)] == ex[Slot(head)];
    assert r[Slot(src)].prev == ex[Slot(head)].prev;
  }

  // ---- the scan of arrange_from_key_set ------------------------------------

  /** `key_set.get_value(i)`, which fails past the end of a shorter value list. */
  function ValueOf(ks: KeySet, i: nat): (r: Result<int>)
    requires i < |ks.keys|
    ensures !HasValues(ks) ==> r == Ok(i)
  {
    if HasValues(ks) && i >= |ks.values.value| then Err(OUT_OF_RANGE) else Ok(GetValue(ks, i))
  }

  /** arrange_from_key_set's pass over keys `i .. end` at byte `depth`, with
      the distinct labels `ls` and the value `value` gathered so far: the
      final labels and value, or the error the pass raises. */
  function ScanGroup(ks: KeySet, i: nat, end: nat, depth: nat, ls: seq<byte>, value: int): (r: Result<(seq<byte>, int)>)
    requires i <= end <= |ks.keys|
    decreases end - i
  {
    if i == end then Ok((ls, value))
    else
      var lab := GetKeyByte(ks, i, depth);
      if lab == 0 && depth < |ks.keys[i]| then Err(INVALID_NULL)
      else if lab == 0 && ValueOf(ks, i).Err? then Err(ValueOf(ks, i).error)
      else if lab == 0 && ValueOf(ks, i).value < 0 then Err(NEGATIVE_VALUE)
      else if |ls| > 0 && lab < ls[|ls| - 1] then Err(WRONG_KEY_ORDER)
      else
        var value' := if lab == 0 && value == -1 then ValueOf(ks, i).value else value;
        var ls' := if |ls| == 0 || lab != ls[|ls| - 1] then ls + [lab] else ls;
        ScanGroup(ks, i + 1, end, depth, ls', value')
  }

  /** What the pass demands of a sibling group: bytes at `depth` never
      decrease, and a key whose byte there is 0 ends there and has a
      non-negative value. */
  predicate GroupWellFormed(ks: KeySet, lo: nat, hi: nat, depth: nat)
    requires lo <= hi <= |ks.keys|
  {
    (forall i :: lo <= i < hi && GetKeyByte(ks, i, depth) == 0 ==>
       depth >= |ks.keys[i]| && ValueOf(ks, i).Ok? && ValueOf(ks, i).value >= 0)
    && (forall i, j :: lo <= i < j < hi ==> GetKeyByte(ks, i, depth) <= GetKeyByte(ks, j, depth))
  }

  predicate StrictlyIncreasing(ls: seq<byte>)
  {
    forall i, j :: 0 <= i < j < |ls| ==> ls[i] < ls[j]
  }

  /** The units after the second loop of arrange_from_key_set has written
      the children of `ls` under `offset`, when every child already lies
      inside the units: the 0 label marks the node as having a leaf and
      makes its child the value unit; any other label is set on its child. */
  function ChildrenWritten(us: seq<nat>, offset: nat, value: int, dicId: nat, ls: seq<byte>): (r: seq<nat>)
    requires dicId < |us| && (0 in ls ==> value >= 0)
    requires forall k :: 0 <= k < |ls| ==> Xor(offset, ls[k]) < |us|
    ensures |r| == |us|
    decreases |ls|
  {
    if ls == [] then us
    else
      var front := ChildrenWritten(us, offset, value, dicId, ls[..|ls| - 1]);
      var l := ls[|ls| - 1];
      var child := Xor(offset, l);
      if l == 0 then front[dicId := WithHasLeaf(front[dicId], true)][child := WithValue(value)]
      else front[child := WithLabel(front[child], l)]
  }

  /** Different labels give different children. */
  lemma XorOffsetInjective(offset: nat, a: nat, b: nat)
    requires Xor(offset, a) == Xor(offset, b)
    ensures a == b
  {
    XorComm(offset, a);
    XorComm(offset, b);
    XorInvolution(a, offset);
    XorInvolution(b, offset);
  }

  /** What the children writes leave in `r`: each child holds what its own
      label wrote (the value unit for 0, the label in the low byte
      otherwise); the node, when it is no child, has its leaf flag set if 0
      is a label and is unchanged if not; every other unit is that of `us`. */
  ghost predicate ChildrenHold(us: seq<nat>, r: seq<nat>, offset: nat, value: int, dicId: nat, ls: seq<byte>)
    requires |r| == |us| && dicId < |us| && (0 in ls ==> value >= 0)
    requires forall k :: 0 <= k < |ls| ==> Xor(offset, ls[k]) < |us|
  {
    (forall k :: 0 <= k < |ls| && ls[k] == 0 ==> r[Xor(offset, ls[k])] == WithValue(value))
    && (forall k :: 0 <= k < |ls| && ls[k] != 0 ==> r[Xor(offset, ls[k])] % 256 == ls[k])
    && ((forall k :: 0 <= k < |ls| ==> Xor(offset, ls[k]) != dicId) ==>
          r[dicId] == if 0 in ls then WithHasLeaf(us[dicId], true) else us[dicId])
    && (forall j :: 0 <= j < |us| && j != dicId && (forall k :: 0 <= k < |ls| ==> Xor(offset, ls[k]) != j) ==>
          r[j] == us[j])
  }

  /** With strictly increasing labels, the children writes leave each
      child, the node and every other unit as ChildrenHold says. */
  lemma {:induction false} ChildrenWrittenUnits(us: seq<nat>, offset: nat, value: int, dicId: nat, ls: seq<byte>)
    requires dicId < |us| && (0 in ls ==> value >= 0)
    requires forall k :: 0 <= k < |ls| ==> Xor(offset, ls[k]) < |us|
    requires StrictlyIncreasing(ls)
    ensures ChildrenHold(us, ChildrenWritten(us, offset, value, dicId, ls), offset, value, dicId, ls)
    decreases |ls|
  {
    if ls != [] {
      var n := |ls| - 1;
      var front := ls[..n];
      assert 0 in front ==> 0 in ls;
      ChildrenWrittenUnits(us, offset, value, dicId, front);
      var f := ChildrenWritten(us, offset, value, dicId, front);
      var l := ls[n];
      var child := Xor(offset, l);
      var r := ChildrenWritten(us, offset, value, dicId, ls);
      if l == 0 {
        assert r == f[dicId := WithHasLeaf(f[dicId], true)][child := WithValue(value)];
        ChildrenValueStep(us, f, offset, value, dicId, ls, r);
      } else {
        assert r == f[child := WithLabel(f[child], l)];
        ChildrenLabelStep(us, f, offset, value, dicId, ls, r);
      }
    }
  }

  /** A child other than the last label's is not the last label's child. */
  lemma EarlierChildren(offset: nat, ls: seq<byte>)
    requires ls != [] && StrictlyIncreasing(ls)
    ensures forall k :: 0 <= k < |ls| - 1 ==> Xor(offset, ls[k]) != Xor(offset, ls[|ls| - 1])
  {
    forall k | 0 <= k < |ls| - 1
      ensures Xor(offset, ls[k]) != Xor(offset, ls[|ls| - 1])
    {
      if Xor(offset, ls[k]) == Xor(offset, ls[|ls| - 1]) {
        XorOffsetInjective(offset, ls[k], ls[|ls| - 1]);
      }
    }
  }

  /** In strictly increasing labels only the first can be 0. */
  lemma ZeroOnlyFirst(ls: seq<byte>)
    requires StrictlyIncreasing(ls)
    ensures forall k :: 0 < k < |ls| ==> ls[k] > 0
  {
    forall k | 0 < k < |ls|
      ensures ls[k] > 0
    {
      assert ls[0] < ls[k];
    }
  }

  /** The step of ChildrenWrittenUnits for a last label 0, which then is
      the only label. */
  lemma ChildrenValueStep(us: seq<nat>, f: seq<nat>, offset: nat, value: int, dicId: nat, ls: seq<byte>, r: seq<nat>)
    requires ls != [] && ls[|ls| - 1] == 0 && value >= 0 && StrictlyIncreasing(ls)
    requires |f| == |us| && dicId < |us|
    requires forall k :: 0 <= k < |ls| ==> Xor(offset, ls[k]) < |us|
    requires ChildrenHold(us, f, offset, value, dicId, ls[..|ls| - 1])
    requires r == f[dicId := WithHasLeaf(f[dicId], true)][Xor(offset, 0) := WithValue(value)]
    ensures ChildrenHold(us, r, offset, value, dicId, ls)
  {
    ZeroOnlyFirst(ls);
    assert ls[..0] == [];
  }

  /** The step of ChildrenWrittenUnits for a last label other than 0. */
  lemma ChildrenLabelStep(us: seq<nat>, f: seq<nat>, offset: nat, value: int, dicId: nat, ls: seq<byte>, r: seq<nat>)
    requires ls != [] && ls[|ls| - 1] != 0 && (0 in ls ==> value >= 0) && StrictlyIncreasing(ls)
    requires |f| == |us| && dicId < |us|
    requires forall k :: 0 <= k < |ls| ==> Xor(offset, ls[k]) < |us|
    requires ChildrenHold(us, f, offset, value, dicId, ls[..|ls| - 1])
    requires r == f[Xor(offset, ls[|ls| - 1]) := WithLabel(f[Xor(offset, ls[|ls| - 1])], ls[|ls| - 1])]
    ensures ChildrenHold(us, r, offset, value, dicId, ls)
  {
    var n := |ls| - 1;
    var front := ls[..n];
    assert 0 in front ==> 0 in ls;
    assert 0 in ls ==> 0 in front;
    EarlierChildren(offset, ls);
    WithLabelByte(f[Xor(offset, ls[n])], ls[n]);
    forall k | 0 <= k < n
      ensures ls[k] == front[k]
    {
    }
  }

  /** The pass succeeds exactly on well-formed groups whose first byte does
      not undercut the labels already gathered. */
  lemma {:induction false} ScanGroupOk(ks: KeySet, i: nat, end: nat, depth: nat, ls: seq<byte>, value: int)
    requires i <= end <= |ks.keys|
    ensures ScanGroup(ks, i, end, depth, ls, value).Ok? <==>
              GroupWellFormed(ks, i, end, depth)
              && (i < end && |ls| > 0 ==> ls[|ls| - 1] <= GetKeyByte(ks, i, depth))
    decreases end - i
  {
    if i < end {
      var lab := GetKeyByte(ks, i, depth);
      var value' := if lab == 0 && value == -1 && ValueOf(ks, i).Ok? then ValueOf(ks, i).value else value;
      var ls' := if |ls| == 0 || lab != ls[|ls| - 1] then ls + [lab] else ls;
      ScanGroupOk(ks, i + 1, end, depth, ls', value');
      GroupWellFormedStep(ks, i, end, depth);
    }
  }

  /** A group is well formed when its first key is, its first two bytes are
      in order, and the rest of the group is well formed. */
  lemma GroupWellFormedStep(ks: KeySet, i: nat, end: nat, depth: nat)
    requires i < end <= |ks.keys|
    ensures GroupWellFormed(ks, i, end, depth) <==>
              (GetKeyByte(ks, i, depth) == 0 ==>
                 depth >= |ks.keys[i]| && ValueOf(ks, i).Ok? && ValueOf(ks, i).value >= 0)
              && (i + 1 < end ==> GetKeyByte(ks, i, depth) <= GetKeyByte(ks, i + 1, depth))
              && GroupWellFormed(ks, i + 1, end, depth)
  {
    var lab := GetKeyByte(ks, i, depth);
    if GroupWellFormed(ks, i + 1, end, depth) && (i + 1 < end ==> lab <= GetKeyByte(ks, i + 1, depth)) {
      forall a, b | i <= a < b < end ensures GetKeyByte(ks, a, depth) <= GetKeyByte(ks, b, depth) {
        if a == i && b > i + 1 {
          assert lab <= GetKeyByte(ks, i + 1, depth);
        }
      }
    }
  }

  lemma AppendIncreasing(ls: seq<byte>, x: byte)
    requires StrictlyIncreasing(ls) && (|ls| == 0 || ls[|ls| - 1] < x)
    ensures StrictlyIncreasing(ls + [x])
  {
  }

  /** On success the labels are strictly increasing, extend those gathered
      before, and hold every key's byte. */
  lemma {:induction false} ScanGroupLabels(ks: KeySet, i: nat, end: nat, depth: nat, ls: seq<byte>, value: int)
    requires i <= end <= |ks.keys|
    requires StrictlyIncreasing(ls)
    requires ScanGroup(ks, i, end, depth, ls, value).Ok?
    ensures var ls' := ScanGroup(ks, i, end, depth, ls, value).value.0;
            StrictlyIncreasing(ls') && ls <= ls'
            && (forall k :: i <= k < end ==> GetKeyByte(ks, k, depth) in ls')
    decreases end - i
  {
    if i < end {
      var lab := GetKeyByte(ks, i, depth);
      var value' := if lab == 0 && value == -1 then ValueOf(ks, i).value else value;
      var ls' := if |ls| == 0 || lab != ls[|ls| - 1] then ls + [lab] else ls;
      assert |ls| > 0 ==> ls[|ls| - 1] <= lab;
      assert ScanGroup(ks, i, end, depth, ls, value) == ScanGroup(ks, i + 1, end, depth, ls', value');
      if ls' != ls {
        AppendIncreasing(ls, lab);
      }
      ScanGroupLabels(ks, i + 1, end, depth, ls', value');
      var fl := ScanGroup(ks, i, end, depth, ls, value).value.0;
      assert lab in ls';
      PrefixMembers(ls', fl);
      assert ls <= ls';
    }
  }

  lemma PrefixMembers<T>(a: seq<T>, b: seq<T>)
    requires a <= b
    ensures forall x :: x in a ==> x in b
  {
    forall x | x in a ensures x in b {
      var k :| 0 <= k < |a| && a[k] == x;
      assert b[k] == x;
    }
  }

  /** On success the value is that of the first key ending at `depth` when
      none was gathered before, and is kept otherwise. */
  lemma {:induction false} ScanGroupValue(ks: KeySet, i: nat, end: nat, depth: nat, ls: seq<byte>, value: int)
    requires i <= end <= |ks.keys|
    requires ScanGroup(ks, i, end, depth, ls, value).Ok?
    ensures var value' := ScanGroup(ks, i, end, depth, ls, value).value.1;
            (value != -1 ==> value' == value)
            && (value == -1 && i < end && GetKeyByte(ks, i, depth) == 0 ==> value' == ValueOf(ks, i).value)
            && ((forall k :: i <= k < end ==> GetKeyByte(ks, k, depth) != 0) ==> value' == value)
    decreases end - i
  {
    if i < end {
      var lab := GetKeyByte(ks, i, depth);
      var value' := if lab == 0 && value == -1 then ValueOf(ks, i).value else value;
      var ls' := if |ls| == 0 || lab != ls[|ls| - 1] then ls + [lab] else ls;
      assert ScanGroup(ks, i, end, depth, ls, value) == ScanGroup(ks, i + 1, end, depth, ls', value');
      ScanGroupValue(ks, i + 1, end, depth, ls', value');
      if value == -1 && lab == 0 {
        assert ValueOf(ks, i).value >= 0;
      }
    }
  }

  // ---- what a successful insertion says about the keys ----------------------

  function MaxKeyLen(keys: seq<seq<byte>>): (m: nat)
    ensures forall k :: 0 <= k < |keys| ==> |keys[k]| <= m
  {
    if keys == [] then 0
    else
      var rest := MaxKeyLen(keys[1..]);
      assert forall k :: 1 <= k < |keys| ==> keys[k] == keys[1..][k - 1];
      if |keys[0]| > rest then |keys[0]| else rest
  }

  /** Key i is at most key j from byte `d` on, reading past the end of a key
      as 0 bytes, the way the builder reads them. */
  predicate PaddedLeq(ks: KeySet, i: nat, j: nat, d: nat)
    requires i < |ks.keys| && j < |ks.keys|
    decreases MaxKeyLen(ks.keys) - d
  {
    d >= MaxKeyLen(ks.keys)
    || GetKeyByte(ks, i, d) < GetKeyByte(ks, j, d)
    || (GetKeyByte(ks, i, d) == GetKeyByte(ks, j, d) && PaddedLeq(ks, i, j, d + 1))
  }

  /** Keys lo .. hi are in order from byte d on. */
  predicate SortedFrom(ks: KeySet, lo: nat, hi: nat, d: nat)
    requires hi <= |ks.keys|
  {
    forall i, j :: lo <= i < j < hi ==> PaddedLeq(ks, i, j, d)
  }

  /** Keys lo .. hi hold no 0 byte at position d or later. */
  predicate NullFreeFrom(ks: KeySet, lo: nat, hi: nat, d: nat)
    requires hi <= |ks.keys|
  {
    forall i, t :: lo <= i < hi && d <= t < |ks.keys[i]| ==> ks.keys[i][t] != 0
  }

  /** A key that has ended by byte d is at most any key from there on. */
  lemma {:induction false} EndedLeq(ks: KeySet, i: nat, j: nat, d: nat)
    requires i < |ks.keys| && j < |ks.keys| && d >= |ks.keys[i]|
    ensures PaddedLeq(ks, i, j, d)
    decreases MaxKeyLen(ks.keys) - d
  {
    if d < MaxKeyLen(ks.keys) {
      EndedLeq(ks, i, j, d + 1);
    }
  }

  /** The keys of a group whose byte at d is 0 have ended there; they are in
      order and trivially free of 0 bytes from d on. */
  lemma EndedKeys(ks: KeySet, begin: nat, end: nat, b: nat, d: nat)
    requires begin <= b <= end <= |ks.keys|
    requires GroupWellFormed(ks, begin, end, d)
    requires BytesEqual(ks, begin, b, d, 0)
    ensures SortedFrom(ks, begin, b, d) && NullFreeFrom(ks, begin, b, d)
  {
    forall i, j | begin <= i < j < b ensures PaddedLeq(ks, i, j, d) {
      assert GetKeyByte(ks, i, d) == 0;
      EndedLeq(ks, i, j, d);
    }
    forall i | begin <= i < b ensures d >= |ks.keys[i]| {
      assert GetKeyByte(ks, i, d) == 0;
    }
  }

  /** Closing a sibling group: keys lo .. mid are sorted and null-free and
      their bytes at d are below L; keys mid .. hi all carry the byte L != 0
      at d and are sorted and null-free from d + 1.  Then lo .. hi are sorted
      and null-free from d. */
  lemma JoinGroup(ks: KeySet, lo: nat, mid: nat, hi: nat, d: nat, lab: byte)
    requires lo <= mid <= hi <= |ks.keys| && lab != 0
    requires SortedFrom(ks, lo, mid, d) && NullFreeFrom(ks, lo, mid, d)
    requires SortedFrom(ks, mid, hi, d + 1) && NullFreeFrom(ks, mid, hi, d + 1)
    requires BytesBelow(ks, lo, mid, d, lab) && BytesEqual(ks, mid, hi, d, lab)
    ensures SortedFrom(ks, lo, hi, d) && NullFreeFrom(ks, lo, hi, d)
  {
    forall i, j | lo <= i < j < hi ensures PaddedLeq(ks, i, j, d) {
      if i >= mid {
        assert PaddedLeq(ks, i, j, d + 1);
      }
    }
    forall i, t | mid <= i < hi && d <= t < |ks.keys[i]| ensures ks.keys[i][t] != 0 {
      if t == d {
        assert GetKeyByte(ks, i, d) == lab;
      }
    }
  }

  /** Keys lo .. hi all have byte `lab` at position d. */
  predicate BytesEqual(ks: KeySet, lo: nat, hi: nat, d: nat, lab: byte)
    requires hi <= |ks.keys|
  {
    forall k :: lo <= k < hi ==> GetKeyByte(ks, k, d) == lab
  }

  /** Keys lo .. hi all have a byte below `lab` at position d. */
  predicate BytesBelow(ks: KeySet, lo: nat, hi: nat, d: nat, lab: byte)
    requires hi <= |ks.keys|
  {
    forall k :: lo <= k < hi ==> GetKeyByte(ks, k, d) < lab
  }

  /** In a well-formed group, a byte that differs from the current run's
      starts a new run above everything before it. */
  lemma NextRun(ks: KeySet, begin: nat, end: nat, d: nat, lastBegin: nat, b: nat, lab: byte)
    requires begin <= lastBegin < b < end <= |ks.keys|
    requires GroupWellFormed(ks, begin, end, d)
    requires BytesBelow(ks, begin, lastBegin, d, lab) && BytesEqual(ks, lastBegin, b, d, lab)
    requires GetKeyByte(ks, b, d) != lab
    ensures lab < GetKeyByte(ks, b, d) && BytesBelow(ks, begin, b, d, GetKeyByte(ks, b, d))
  {
    assert GetKeyByte(ks, lastBegin, d) <= GetKeyByte(ks, b, d);
  }

  // ---- the label fix_block writes ---------------------------------------------

  /** The label fix_block passes to set_label as written: `id ^ unused_offset`,
      not kept to a byte. */
  function FixLabelAsWritten(id: nat, unusedOffset: nat): nat
  {
    Xor(id, unusedOffset)
  }

  /** In block 1 with every offset used, unused_offset stays 0 and id 256 gets
      the label 256: set_label then sets the has-leaf bit of the spare unit. */
  lemma FixLabelAsWrittenSetsHasLeaf()
    ensures FixLabelAsWritten(256, 0) == 256
    ensures Bit(WithLabel(0, FixLabelAsWritten(256, 0)), 8)
  {
    XorZero(256);
    Pow2Constants();
    WithLabelBits(0, 256, 8);
    Pow2Bit(8, 8);
  }

  /** The label fix_block writes once kept to a byte: it replaces the low
      byte of the unit and leaves the has-leaf flag and the offset alone. */
  lemma FixLabelKeepsUnit(u: nat, id: nat, unusedOffset: nat)
    ensures Xor(id, unusedOffset) % 256 < 256
    ensures WithLabel(u, Xor(id, unusedOffset) % 256) / 256 == u / 256
    ensures unusedOffset / 256 == id / 256 ==> Xor(id, unusedOffset) % 256 == Xor(id, unusedOffset)
  {
    var x := Xor(id, unusedOffset);
    LowByte(x);
    WithLabelByte(u, x % 256);
    if unusedOffset / 256 == id / 256 {
      SameBlockXor(id, unusedOffset);
      SmallByte(x);
    }
  }

  lemma LowByte(x: nat)
    ensures 0 <= x % 256 < 256
  {
  }

  lemma SmallByte(x: nat)
    requires x < 256
    ensures x % 256 == x
  {
    DivModUnique(x, 256, 0, x);
  }

  // ---- copy -------------------------------------------------------------------

  /** Every unit fits the 4 unsigned bytes copy writes it as. */
  predicate UnitsFit(us: seq<nat>)
  {
    forall i :: 0 <= i < |us| ==> us[i] < Pow256(4)
  }

  /** The units in order, each as 4 little-endian bytes. */
  function UnitBytes(us: seq<nat>): (bs: seq<byte>)
    requires UnitsFit(us)
    ensures |bs| == 4 * |us|
  {
    if us == [] then []
    else UnitBytes(us[..|us| - 1]) + EncodeUnsigned(us[|us| - 1], 4)
  }

  class DoubleArrayBuilder {
    var units: seq<nat>
    var extras: seq<Extra>
    var labels: seq<byte>
    var extrasHead: nat

    /** Units come in whole blocks, and while a build runs the ring is allocated. */
    predicate Building()
      reads this
    {
      |units| % BLOCK_SIZE == 0 && |extras| == NUM_EXTRAS
    }

    constructor()
      ensures units == [] && extras == [] && labels == [] && extrasHead == 0
    {
      units, extras, labels := [], [], [];
      extrasHead := 0;
    }

    method Clear()
      modifies this
      ensures units == [] && extras == [] && labels == [] && extrasHead == old(extrasHead)
    {
      units, extras, labels := [], [], [];
    }

    function NumBlocks(): (n: nat)
      reads this
      ensures n * BLOCK_SIZE <= |units| < (n + 1) * BLOCK_SIZE
    {
      |units| / BLOCK_SIZE
    }

    /** Marks `id` fixed and takes it off the free list, first growing the
        units by a block when `id` lies past them. */
    method ReserveId(id: nat)
      requires Building()
      modifies this
      decreases if id < |units| then 0 else 5
      ensures Building() && labels == old(labels)
      ensures old(id < |units|) ==>
                units == old(units)
                && extras == Unlinked(old(extras), id)
                && extrasHead == HeadAfterReserve(old(extrasHead), old(extras), |units|, id)
      ensures old(id >= |units|) ==> |units| == old(|units|) + BLOCK_SIZE
      ensures |units| >= old(|units|)
      ensures id < old(|units|) + BLOCK_SIZE ==> id < |units|
      ensures var e := extras[Slot(id)];
              e.isFixed && extras[Slot(e.prev)].next == e.next && extras[Slot(e.next)].prev == e.prev
    {
      if id >= |units| {
        ExpandUnits();
      }
      ghost var before := extras;
      if id == extrasHead {
        extrasHead := extras[Slot(id)].next;
        if extrasHead == id {
          extrasHead := |units|;
        }
      }
      var e := extras[Slot(id)];
      extras := extras[Slot(e.prev) := extras[Slot(e.prev)].(next := e.next)];
      extras := extras[Slot(e.next) := extras[Slot(e.next)].(prev := e.prev)];
      extras := extras[Slot(id) := extras[Slot(id)].(isFixed := true)];
      assert extras == Unlinked(before, id);
    }

    /** Whether x's ring position falls outside the block of ring positions
        that the block starting at `begin` occupies. */
    static predicate OutsideBlock(x: nat, begin: nat)
    {
      !(Slot(begin) <= Slot(x) < Slot(begin) + BLOCK_SIZE)
    }

    /** Appends a block of 256 zero units and splices its ids into the free
        list just before the head; once more than NUM_EXTRA_BLOCKS blocks
        exist, the oldest open block is fixed first and the new block's ring
        records are reset. */
    method ExpandUnits()
      requires Building()
      modifies this
      decreases 4
      ensures Building() && labels == old(labels)
      ensures |units| == old(|units|) + BLOCK_SIZE
      ensures forall j :: old(|units|) <= j < |units| ==> units[j] == 0
      ensures old(|units|) / BLOCK_SIZE + 1 > NUM_EXTRA_BLOCKS ==>
                forall j :: old(|units|) <= j < |units| ==>
                  !extras[Slot(j)].isFixed && !extras[Slot(j)].isUsed
      ensures extras[Slot(extrasHead)].prev == |units| - 1
      ensures var src := old(|units|);
              var p := extras[Slot(src)].prev;
              OutsideBlock(extrasHead, src) && OutsideBlock(p, src) ==>
                (forall j :: src <= j < |units| - 1 ==> extras[Slot(j)].next == j + 1)
                && (forall j :: src < j < |units| ==> extras[Slot(j)].prev == j - 1)
                && extras[Slot(|units| - 1)].next == extrasHead
                && extras[Slot(p)].next == src
    {
      var srcNumUnits := |units|;
      var srcNumBlocks := NumBlocks();
      var destNumUnits := srcNumUnits + BLOCK_SIZE;
      var destNumBlocks := srcNumBlocks + 1;
      if destNumBlocks > NUM_EXTRA_BLOCKS {
        FixBlock(srcNumBlocks - NUM_EXTRA_BLOCKS);
      }
      units := units + seq(BLOCK_SIZE, _ => 0);
      ghost var grown := units;
      if destNumBlocks > NUM_EXTRA_BLOCKS {
        var id := srcNumUnits;
        while id < destNumUnits
          invariant srcNumUnits <= id <= destNumUnits && |extras| == NUM_EXTRAS
          invariant units == grown && labels == old(labels)
          invariant forall j :: srcNumUnits <= j < id ==> !extras[Slot(j)].isFixed && !extras[Slot(j)].isUsed
        {
          BlockSlots(srcNumUnits);
          extras := extras[Slot(id) := extras[Slot(id)].(isUsed := false, isFixed := false)];
          id := id + 1;
        }
      }
      LinkNewBlock(srcNumUnits);
    }

    /** The second half of expand_units: chains the new block's ids and
        splices the chain in before the head of the free list. */
    method LinkNewBlock(src: nat)
      requires |extras| == NUM_EXTRAS && src % BLOCK_SIZE == 0
      modifies this
      ensures units == old(units) && labels == old(labels) && extrasHead == old(extrasHead)
      ensures |extras| == NUM_EXTRAS
      ensures forall s :: 0 <= s < NUM_EXTRAS ==>
                extras[s].isFixed == old(extras)[s].isFixed && extras[s].isUsed == old(extras)[s].isUsed
      ensures extras[Slot(extrasHead)].prev == src + BLOCK_SIZE - 1
      ensures var p := extras[Slot(src)].prev;
              OutsideBlock(extrasHead, src) && OutsideBlock(p, src) ==>
                (forall j :: src <= j < src + BLOCK_SIZE - 1 ==> extras[Slot(j)].next == j + 1)
                && (forall j :: src < j < src + BLOCK_SIZE ==> extras[Slot(j)].prev == j - 1)
                && extras[Slot(src + BLOCK_SIZE - 1)].next == extrasHead
                && extras[Slot(p)].next == src
    {
      BlockSlots(src);
      var destNumUnits := src + BLOCK_SIZE;
      var i := src + 1;
      while i < destNumUnits
        invariant src + 1 <= i <= destNumUnits && |extras| == NUM_EXTRAS
        invariant units == old(units) && labels == old(labels) && extrasHead == old(extrasHead)
        invariant forall j :: src <= j < i - 1 ==> extras[Slot(j)].next == j + 1
        invariant forall j :: src < j < i ==> extras[Slot(j)].prev == j - 1
        invariant forall s :: 0 <= s < NUM_EXTRAS ==>
                    extras[s].isFixed == old(extras)[s].isFixed && extras[s].isUsed == old(extras)[s].isUsed
      {
        extras := extras[Slot(i - 1) := extras[Slot(i - 1)].(next := i)];
        extras := extras[Slot(i) := extras[Slot(i)].(prev := i - 1)];
        i := i + 1;
      }
      ghost var chained := extras;
      extras := extras[Slot(src) := extras[Slot(src)].(prev := destNumUnits - 1)];
      extras := extras[Slot(destNumUnits - 1) := extras[Slot(destNumUnits - 1)].(next := src)];
      extras := extras[Slot(src) := extras[Slot(src)].(prev := extras[Slot(extrasHead)].prev)];
      extras := extras[Slot(destNumUnits - 1) := extras[Slot(destNumUnits - 1)].(next := extrasHead)];
      var headPrev := extras[Slot(extrasHead)].prev;
      extras := extras[Slot(headPrev) := extras[Slot(headPrev)].(next := src)];
      extras := extras[Slot(extrasHead) := extras[Slot(extrasHead)].(prev := destNumUnits - 1)];
      assert extras == SpliceBlock(chained, src, extrasHead);
      SpliceBlockLinks(chained, src, extrasHead);
    }

    /** Fixes every id of block `blockId` that is still free, reserving it and
        giving it a label no genuine transition can match: the id xor the
        block's first offset not used by any node. */
    method FixBlock(blockId: nat)
      requires Building() && (blockId + 1) * BLOCK_SIZE <= |units|
      modifies this
      decreases 3
      ensures Building() && labels == old(labels) && |units| == old(|units|)
      ensures var begin := blockId * BLOCK_SIZE;
              forall j :: begin <= j < begin + BLOCK_SIZE ==> extras[Slot(j)].isFixed
      ensures var begin := blockId * BLOCK_SIZE;
              var unused := FirstUnused(old(extras), begin, begin + BLOCK_SIZE);
              forall j :: begin <= j < begin + BLOCK_SIZE ==>
                units[j] == if old(extras)[Slot(j)].isFixed then old(units)[j]
                            else WithLabel(old(units)[j], Xor(j, unused) % 256)
      ensures forall j :: 0 <= j < |units| && (j < blockId * BLOCK_SIZE || j >= (blockId + 1) * BLOCK_SIZE) ==>
                units[j] == old(units)[j]
      ensures forall s :: 0 <= s < NUM_EXTRAS ==>
                extras[s].isUsed == old(extras)[s].isUsed && (old(extras)[s].isFixed ==> extras[s].isFixed)
    {
      var begin := blockId * BLOCK_SIZE;
      var end := begin + BLOCK_SIZE;
      var unusedOffset := FindUnused(begin, end);
      BlockSlots(begin);
      FixIds(begin, end, unusedOffset);
    }

    /** The second loop of fix_block: every free id of `[begin, end)`, whose
        ring positions are consecutive, is reserved and labelled. */
    method FixIds(begin: nat, end: nat, unused: nat)
      requires Building() && begin <= end <= |units|
      requires forall j :: begin <= j < end ==> Slot(j) == Slot(begin) + (j - begin)
      modifies this
      decreases 2
      ensures Building() && labels == old(labels) && |units| == old(|units|)
      ensures forall j :: begin <= j < end ==> extras[Slot(j)].isFixed
      ensures forall j :: begin <= j < end ==>
                units[j] == if old(extras)[Slot(j)].isFixed then old(units)[j]
                            else WithLabel(old(units)[j], Xor(j, unused) % 256)
      ensures forall j :: 0 <= j < |units| && (j < begin || j >= end) ==> units[j] == old(units)[j]
      ensures forall s :: 0 <= s < NUM_EXTRAS ==>
                extras[s].isUsed == old(extras)[s].isUsed && (old(extras)[s].isFixed ==> extras[s].isFixed)
    {
      var id := begin;
      while id < end
        invariant begin <= id <= end
        invariant Building() && labels == old(labels) && |units| == old(|units|)
        invariant forall j :: begin <= j < id ==> extras[Slot(j)].isFixed
        invariant forall j :: id <= j < end ==> extras[Slot(j)].isFixed == old(extras)[Slot(j)].isFixed
        invariant forall s :: 0 <= s < NUM_EXTRAS ==>
                    extras[s].isUsed == old(extras)[s].isUsed && (old(extras)[s].isFixed ==> extras[s].isFixed)
        invariant forall j :: 0 <= j < |units| && !(begin <= j < id) ==> units[j] == old(units)[j]
        invariant forall j :: begin <= j < id ==>
                    units[j] == if old(extras)[Slot(j)].isFixed then old(units)[j]
                                else WithLabel(old(units)[j], Xor(j, unused) % 256)
      {
        FixId(id, unused);
        id := id + 1;
      }
    }

    /** The second loop of fix_block at one id: a free id is reserved and
        labelled with `id ^ unused`. */
    method FixId(id: nat, unused: nat)
      requires Building() && id < |units|
      modifies this
      decreases 1
      ensures Building() && labels == old(labels)
      ensures units == if old(extras)[Slot(id)].isFixed then old(units)
                       else old(units)[id := WithLabel(old(units)[id], Xor(id, unused) % 256)]
      ensures forall s :: 0 <= s < NUM_EXTRAS ==>
                extras[s].isUsed == old(extras)[s].isUsed
                && (extras[s].isFixed <==> old(extras)[s].isFixed || s == Slot(id))
    {
      if !extras[Slot(id)].isFixed {
        ReserveId(id);
        units := units[id := WithLabel(units[id], Xor(id, unused) % 256)];
      }
    }

    /** The first loop of fix_block: the first id of `[begin, end)` not
        used as an offset, or 0. */
    method FindUnused(begin: nat, end: nat) returns (unused: nat)
      requires |extras| == NUM_EXTRAS && begin <= end
      ensures unused == FirstUnused(extras, begin, end)
    {
      unused := 0;
      var offset := begin;
      while offset != end
        invariant begin <= offset <= end
        invariant FirstUnused(extras, begin, end) == FirstUnused(extras, offset, end)
      {
        if !extras[Slot(offset)].isUsed {
          unused := offset;
          return;
        }
        offset := offset + 1;
      }
    }

    /** is_valid_offset: the offset is not taken by another node, the
        relative offset passes the mask test, and no other label's child
        slot is fixed. */
    predicate ValidOffset(id: nat, offset: nat)
      reads this
      requires |extras| == NUM_EXTRAS
    {
      var rel := Xor(id, offset);
      !extras[Slot(offset)].isUsed
      && (And(rel, LOWER_MASK) == 0 || And(rel, UPPER_MASK) == 0)
      && forall i :: 1 <= i < |labels| ==> !extras[Slot(Xor(offset, labels[i]))].isFixed
    }

    method IsValidOffset(id: nat, offset: nat) returns (ok: bool)
      requires |extras| == NUM_EXTRAS
      ensures ok == ValidOffset(id, offset)
    {
      if extras[Slot(offset)].isUsed {
        return false;
      }
      var rel := Xor(id, offset);
      if And(rel, LOWER_MASK) != 0 && And(rel, UPPER_MASK) != 0 {
        return false;
      }
      var i := 1;
      while i < |labels|
        invariant 1 <= i <= |labels| || (|labels| == 0 && i == 1)
        invariant forall k :: 1 <= k < i && k < |labels| ==> !extras[Slot(Xor(offset, labels[k]))].isFixed
      {
        if extras[Slot(Xor(offset, labels[i]))].isFixed {
          return false;
        }
        i := i + 1;
      }
      return true;
    }

    /** Every id the free-list walk can reach: the head and each `next`. */
    ghost function RingIds(): set<nat>
      reads this
    {
      {extrasHead} + set s | 0 <= s < |extras| :: extras[s].next
    }

    /** Walks the free list from its head for an id whose xor with the first
        label is a valid offset; falls back to the block past the units when
        the list is empty or the walk returns to the head. */
    method FindValidOffset(id: nat) returns (r: Result<nat>)
      requires |extras| == NUM_EXTRAS
      ensures r.Ok? ==> ValidOffset(id, r.value) || r.value == FallbackOffset(|units|, id)
      ensures extrasHead >= |units| ==> r == Ok(FallbackOffset(|units|, id))
      ensures r.Err? ==> r == Err(FREE_LIST_CYCLE) || (|labels| == 0 && r == Err(OUT_OF_RANGE))
    {
      if extrasHead >= |units| {
        return Ok(FallbackOffset(|units|, id));
      }
      var unfixedId := extrasHead;
      var memo: set<nat> := {};
      while true
        invariant unfixedId in RingIds() && memo <= RingIds()
        decreases |RingIds() - memo|
      {
        if unfixedId !in memo {
          memo := memo + {unfixedId};
        } else {
          return Err(FREE_LIST_CYCLE);
        }
        if |labels| == 0 {
          return Err(OUT_OF_RANGE);
        }
        var offset := Xor(unfixedId, labels[0]);
        var ok := IsValidOffset(id, offset);
        if ok {
          return Ok(offset);
        }
        unfixedId := extras[Slot(unfixedId)].next;
        if unfixedId == extrasHead {
          break;
        }
      }
      return Ok(FallbackOffset(|units|, id));
    }

    /** Places the children of node `dicId` for keys `begin .. end` at byte
        `depth`: checks the group, picks an offset, points the node at it,
        reserves one child per label (the 0 label becomes the node's value
        unit) and marks the offset used. */
    method ArrangeFromKeySet(ks: KeySet, begin: nat, end: nat, depth: nat, dicId: nat) returns (r: Result<nat>)
      requires Building() && begin <= end <= |ks.keys|
      modifies this
      ensures Building() && |units| >= old(|units|)
      ensures ScanGroup(ks, begin, end, depth, [], -1).Err? ==>
                r == Err(ScanGroup(ks, begin, end, depth, [], -1).error)
      ensures r.Ok? ==> ScanGroup(ks, begin, end, depth, [], -1).Ok?
                        && labels == ScanGroup(ks, begin, end, depth, [], -1).value.0
                        && extras[Slot(r.value)].isUsed
    {
      var value :- ScanLabels(ks, begin, end, depth);
      var offset :- FindValidOffset(dicId);
      if dicId >= |units| {
        return Err(OUT_OF_RANGE);
      }
      units := units[dicId := WithOffset(units[dicId], Xor(dicId, offset))];
      var placed := PlaceChildren(offset, value, dicId);
      if placed.Err? {
        return Err(placed.error);
      }
      extras := extras[Slot(offset) := extras[Slot(offset)].(isUsed := true)];
      r := Ok(offset);
    }

    /** The first loop of arrange_from_key_set: gathers the distinct bytes of
        the group at `depth` into `labels`, and returns the value of the
        first key that ends there, or -1. */
    method ScanLabels(ks: KeySet, begin: nat, end: nat, depth: nat) returns (r: Result<int>)
      requires begin <= end <= |ks.keys|
      modifies this`labels
      ensures ScanGroup(ks, begin, end, depth, [], -1).Err? <==> r.Err?
      ensures r.Err? ==> r.error == ScanGroup(ks, begin, end, depth, [], -1).error
      ensures r.Ok? ==> labels == ScanGroup(ks, begin, end, depth, [], -1).value.0
                        && r.value == ScanGroup(ks, begin, end, depth, [], -1).value.1
                        && (r.value == -1 || r.value >= 0)
                        && (0 in labels ==> r.value >= 0)
    {
      labels := [];
      var value: int := -1;
      var i := begin;
      while i < end
        invariant begin <= i <= end
        invariant ScanGroup(ks, begin, end, depth, [], -1) == ScanGroup(ks, i, end, depth, labels, value)
        invariant value == -1 || value >= 0
        invariant 0 in labels ==> value >= 0
      {
        var lab := GetKeyByte(ks, i, depth);
        if lab == 0 {
          if depth < |ks.keys[i]| {
            return Err(INVALID_NULL);
          }
          var v :- ValueOf(ks, i);
          if v < 0 {
            return Err(NEGATIVE_VALUE);
          }
          if value == -1 {
            value := v;
          }
        }
        if |labels| == 0 {
          labels := labels + [lab];
        } else if lab != labels[|labels| - 1] {
          if lab < labels[|labels| - 1] {
            return Err(WRONG_KEY_ORDER);
          }
          labels := labels + [lab];
        }
        i := i + 1;
      }
      r := Ok(value);
    }

    /** The second loop of arrange_from_key_set: reserves the child of each
        label under `offset`; the 0 label turns the child into the value
        unit and marks the node as having a leaf. */
    method PlaceChildren(offset: nat, value: int, dicId: nat) returns (r: Result<()>)
      requires Building() && dicId < |units|
      requires 0 in labels ==> value >= 0
      modifies this
      decreases 5
      ensures Building() && |units| >= old(|units|) && labels == old(labels)
      ensures r.Err? ==> r == Err(OUT_OF_RANGE)
      ensures r.Ok? && (forall k :: 0 <= k < |labels| ==> Xor(offset, labels[k]) < old(|units|)) ==>
                units == ChildrenWritten(old(units), offset, value, dicId, labels)
    {
      var k := 0;
      while k < |labels|
        invariant k <= |labels| && labels == old(labels) && Building() && |units| >= old(|units|)
        invariant dicId < |units|
        invariant (forall j :: 0 <= j < |labels| ==> Xor(offset, labels[j]) < old(|units|)) ==>
                    units == ChildrenWritten(old(units), offset, value, dicId, labels[..k])
      {
        var k' := k + 1;
        r := PlaceChild(offset, value, dicId, k, k', old(units));
        if r.Err? {
          return;
        }
        k := k';
      }
      assert labels[..k] == labels;
      r := Ok(());
    }

    /** One pass of PlaceChildren's loop: reserves the child of label `k`
        and writes it, and the node too for the 0 label. */
    method PlaceChild(offset: nat, value: int, dicId: nat, k: nat, k': nat, ghost u0: seq<nat>) returns (r: Result<()>)
      requires Building() && dicId < |u0| <= |units| && k < |labels| && k' == k + 1
      requires 0 in labels ==> value >= 0
      modifies this
      decreases 5
      ensures Building() && |units| >= old(|units|) && labels == old(labels)
      ensures r.Err? ==> r == Err(OUT_OF_RANGE)
      ensures r.Ok? && (forall j :: 0 <= j < |labels| ==> Xor(offset, labels[j]) < |u0|)
              && old(units) == ChildrenWritten(u0, offset, value, dicId, labels[..k]) ==>
                units == ChildrenWritten(u0, offset, value, dicId, labels[..k'])
    {
      var l := labels[k];
      var child := Xor(offset, l);
      ReserveId(child);
      if child >= |units| {
        return Err(OUT_OF_RANGE);
      }
      if l == 0 {
        units := units[dicId := WithHasLeaf(units[dicId], true)];
        units := units[child := WithValue(value)];
      } else {
        units := units[child := WithLabel(units[child], l)];
      }
      assert labels[..k'][..k] == labels[..k];
      r := Ok(());
    }

    /** Builds the subtree of node `dicId` for keys `begin .. end`, which
        share their first `depth` bytes: arranges the node's children, then
        recurses into each run of keys with the same byte at `depth`. */
    method BuildFromKeySetInsert(ks: KeySet, begin: nat, end: nat, depth: nat, dicId: nat) returns (r: Result<()>)
      requires Building() && begin <= end <= |ks.keys|
      modifies this
      ensures Building() && |units| >= old(|units|)
      ensures r.Ok? ==> SortedFrom(ks, begin, end, depth) && NullFreeFrom(ks, begin, end, depth)
      decreases if depth <= MaxKeyLen(ks.keys) then MaxKeyLen(ks.keys) - depth else 0
    {
      var offset :- ArrangeFromKeySet(ks, begin, end, depth, dicId);
      ScanGroupOk(ks, begin, end, depth, [], -1);
      var b := SkipEnded(ks, begin, end, depth);
      EndedKeys(ks, begin, end, b, depth);
      if b == end {
        return Ok(());
      }
      var lastBegin := b;
      var lastLabel := GetKeyByte(ks, b, depth);
      while true
        invariant begin <= lastBegin <= b < end
        invariant Building() && |units| >= old(|units|)
        invariant lastLabel != 0 && BytesEqual(ks, lastBegin, b + 1, depth, lastLabel)
        invariant BytesBelow(ks, begin, lastBegin, depth, lastLabel)
        invariant SortedFrom(ks, begin, lastBegin, depth) && NullFreeFrom(ks, begin, lastBegin, depth)
        decreases end - b
      {
        b := b + 1;
        if b >= end {
          break;
        }
        var lab := GetKeyByte(ks, b, depth);
        if lab != lastLabel {
          assert GetKeyByte(ks, lastBegin, depth) == lastLabel;
          var _ :- BuildFromKeySetInsert(ks, lastBegin, b, depth + 1, Xor(offset, lastLabel));
          JoinGroup(ks, begin, lastBegin, b, depth, lastLabel);
          NextRun(ks, begin, end, depth, lastBegin, b, lastLabel);
          lastBegin := b;
          lastLabel := GetKeyByte(ks, b, depth);
        }
      }
      assert GetKeyByte(ks, lastBegin, depth) == lastLabel;
      var _ :- BuildFromKeySetInsert(ks, lastBegin, end, depth + 1, Xor(offset, lastLabel));
      JoinGroup(ks, begin, lastBegin, end, depth, lastLabel);
      r := Ok(());
    }

    /** The first loop of build_from_key_set: the keys that end at `depth`
        (byte 0) come first; returns where they stop. */
    static method SkipEnded(ks: KeySet, begin: nat, end: nat, depth: nat) returns (b: nat)
      requires begin <= end <= |ks.keys|
      ensures begin <= b <= end && BytesEqual(ks, begin, b, depth, 0)
      ensures b < end ==> GetKeyByte(ks, b, depth) != 0
    {
      b := begin;
      while b < end
        invariant begin <= b <= end
        invariant BytesEqual(ks, begin, b, depth, 0)
      {
        if GetKeyByte(ks, b, depth) != 0 {
          return;
        }
        b := b + 1;
      }
    }

    /** build_from_key_set_header: allocates the ring, reserves unit 0 as the
        root (offset 1, label 0), inserts the keys, fixes the open blocks and
        drops the work lists.  Success means the keys were sorted and held no
        0 byte. */
    method BuildFromKeySetHeader(ks: KeySet) returns (r: Result<()>)
      requires |units| % BLOCK_SIZE == 0
      modifies this
      ensures r.Ok? ==> SortedFrom(ks, 0, |ks.keys|, 0) && NullFreeFrom(ks, 0, |ks.keys|, 0)
      ensures r.Ok? ==> |units| > 0 && |units| % BLOCK_SIZE == 0 && extras == [] && labels == []
    {
      extras := seq(NUM_EXTRAS, _ => FRESH_EXTRA);
      extras := extras[2 := extras[2].(next := 1)];
      ReserveId(0);
      extras := extras[Slot(0) := extras[Slot(0)].(isUsed := true)];
      var root := units[0];
      root := WithOffset(root, 1);
      root := WithLabel(root, 0);
      units := units[0 := root];
      if |ks.keys| > 0 {
        var _ :- BuildFromKeySetInsert(ks, 0, |ks.keys|, 0, 0);
      }
      FixAllBlocks();
      extras := [];
      labels := [];
      r := Ok(());
    }

    /** The units in order as 4 unsigned little-endian bytes each; a unit
        that does not fit raises OverflowError. */
    method Copy() returns (r: Result<seq<byte>>)
      ensures r.Ok? <==> UnitsFit(units)
      ensures r.Ok? ==> r.value == UnitBytes(units)
    {
      var buf: seq<byte> := [];
      var i := 0;
      while i < |units|
        invariant i <= |units| && UnitsFit(units[..i]) && buf == UnitBytes(units[..i])
      {
        var bs :- ToBytes(units[i], 4, false);
        assert units[..i + 1][..i] == units[..i];
        buf := buf + bs;
        i := i + 1;
      }
      assert units[..i] == units;
      r := Ok(buf);
    }

    /** Fixes the blocks that are still open: the last NUM_EXTRA_BLOCKS. */
    method FixAllBlocks()
      requires Building()
      modifies this
      ensures Building() && labels == old(labels) && |units| == old(|units|)
      ensures var first := if NumBlocks() > NUM_EXTRA_BLOCKS then NumBlocks() - NUM_EXTRA_BLOCKS else 0;
              forall j :: first * BLOCK_SIZE <= j < |units| ==> extras[Slot(j)].isFixed
    {
      var begin := 0;
      if NumBlocks() > NUM_EXTRA_BLOCKS {
        begin := NumBlocks() - NUM_EXTRA_BLOCKS;
      }
      var end := NumBlocks();
      var blockId := begin;
      while blockId < end
        invariant begin <= blockId <= end
        invariant Building() && labels == old(labels) && |units| == old(|units|) && end == NumBlocks()
        invariant forall j :: begin * BLOCK_SIZE <= j < blockId * BLOCK_SIZE ==> extras[Slot(j)].isFixed
      {
        ghost var before := extras;
        FixBlock(blockId);
        blockId := blockId + 1;
      }
    }
  }
}
