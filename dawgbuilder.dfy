/** The DAWG builder: sorted keys are inserted into a pool of nodes; each
    finished sibling group is moved into consecutive units, and a hash table
    of groups lets equal groups (equal suffixes) share one set of units. */
module DawgBuilders {
  import opened Wrappers
  import opened Bytes
  import opened NatBits
  import opened BitVectors

  const INITIAL_TABLE_SIZE: nat := 1024          // 1 << 10

  const NEGATIVE_VALUE: Error := AttributeError("negative value")
  const ZERO_LENGTH_KEY: Error := AttributeError("zero-length key")
  const INVALID_NULL: Error := AttributeError("invalid null character")
  const WRONG_KEY_ORDER: Error := AttributeError("wrong key order")
  const MODULO_BY_ZERO: Error := ZeroDivisionError("integer division or modulo by zero")
  const TABLE_FULL: Error := NonTermination("no free slot in the hash table")
  const CYCLIC_SIBLINGS: Error := NonTermination("sibling links never reach node 0")

  /** A node of the pool.  For a leaf (label 0) `child` holds the value. */
  datatype Node = Node(child: nat, sibling: nat, nodeLabel: byte, isState: bool, hasSibling: bool)

  const FRESH_NODE: Node := Node(0, 0, 0, false, false)

  function BitOf(b: bool, weight: nat): nat
  {
    if b then weight else 0
  }

  // ---- Node.unit and the Unit decoders ---------------------------------------

  /** `Node.unit`: a leaf packs its value above the has-sibling bit, any
      other node its child above the is-state and has-sibling bits.  The
      source writes it with shifts and ors (NodeUnitAsWritten); NodeUnitSum
      shows the two agree. */
  function NodeUnit(n: Node): nat
  {
    if n.nodeLabel == 0 then 2 * n.child + BitOf(n.hasSibling, 1)
    else 4 * n.child + BitOf(n.isState, 2) + BitOf(n.hasSibling, 1)
  }

  /** `Node.unit` as the source writes it: `child << 1 | has_sibling` for a
      leaf, `child << 2 | is_state << 1 | has_sibling` otherwise. */
  function NodeUnitAsWritten(n: Node): nat
  {
    if n.nodeLabel == 0 then Or(Shl(n.child, 1), BitOf(n.hasSibling, 1))
    else Or(Or(Shl(n.child, 2), BitOf(n.isState, 2)), BitOf(n.hasSibling, 1))
  }

  /** `Unit.child`: `unit >> 2`. */
  function UnitChild(u: nat): nat
  {
    u / 4
  }

  /** `Unit.has_sibling`: `(unit & 1) == 1`, stated as the low bit (LowBitTests). */
  predicate UnitHasSibling(u: nat)
  {
    u % 2 == 1
  }

  /** `Unit.value`: `unit >> 1`. */
  function UnitValue(u: nat): nat
  {
    u / 2
  }

  /** `Unit.is_state`: `(unit & 2) == 2`, stated as bit 1 (LowBitTests). */
  predicate UnitIsState(u: nat)
  {
    (u / 2) % 2 == 1
  }

  /** The shifts and ors of the source compute the same unit as NodeUnit. */
  lemma NodeUnitSum(n: Node)
    ensures NodeUnitAsWritten(n) == NodeUnit(n)
  {
    ShlIsMul(n.child, 1);
    ShlIsMul(n.child, 2);
    assert Pow2(1) == 2 && Pow2(2) == 4;
    if n.nodeLabel == 0 {
      OrLowBits(n.child, 1, BitOf(n.hasSibling, 1));
    } else {
      var s := BitOf(n.isState, 2);
      OrLowBits(n.child, 2, s);
      assert 4 * n.child + s == (2 * n.child + s / 2) * Pow2(1);
      OrLowBits(2 * n.child + s / 2, 1, BitOf(n.hasSibling, 1));
    }
  }

  /** The masks of `has_sibling` and `is_state` test bits 0 and 1. */
  lemma LowBitTests(u: nat)
    ensures And(u, 1) == 1 <==> UnitHasSibling(u)
    ensures And(u, 2) == 2 <==> UnitIsState(u)
  {
    assert Pow2(1) == 2;
    AndLowMask(u, 1);
    SingleBitMask(u, 1);
    assert Bit(u, 1) == Bit(u / 2, 0);
  }

  /** The Unit decoders read back what Node.unit packed: child, is-state and
      has-sibling of an inner node; value and has-sibling of a leaf. */
  lemma UnitRoundTrip(n: Node)
    ensures UnitHasSibling(NodeUnit(n)) == n.hasSibling
    ensures n.nodeLabel == 0 ==> UnitValue(NodeUnit(n)) == n.child
    ensures n.nodeLabel != 0 ==> UnitChild(NodeUnit(n)) == n.child
    ensures n.nodeLabel != 0 ==> UnitIsState(NodeUnit(n)) == n.isState
  {
  }

  // ---- hashing ---------------------------------------------------------------

  /** `hash(key)` for a key that is never negative.  On Python's unbounded
      ints the first step `~key + (key << 15)` is `32767 * key - 1`, which is
      -1 only for key 0, and `-1 ^ (-1 >> 12)` is 0; from there on every
      intermediate value is non-negative. */
  function Hash(key: nat): (h: nat)
    ensures key == 0 ==> h == 0
  {
    var k2 := if key == 0 then 0 else var k1 := 32767 * key - 1; Xor(k1, k1 / 4096);
    var k3 := k2 + k2 * 4;
    var k4 := Xor(k3, k3 / 16);
    var k5 := k4 * 2057;
    Xor(k5, k5 / 65536)
  }

  /** The key hash_node hashes for one node. */
  function NodeKey(n: Node): nat
  {
    Xor(Shl(And(n.nodeLabel, 0xFF), 24), NodeUnit(n))
  }

  /** The key hash_unit hashes for one unit. */
  function UnitKey(unit: nat, lab: byte): nat
  {
    Xor(Shl(lab, 24), unit)
  }

  /** The XOR of the node hashes along a chain. */
  function HashOfNodes(nodes: seq<Node>, chain: seq<nat>): nat
    requires forall k :: 0 <= k < |chain| ==> chain[k] < |nodes|
  {
    if chain == [] then 0
    else Xor(Hash(NodeKey(nodes[chain[0]])), HashOfNodes(nodes, chain[1..]))
  }

  /** The XOR of the unit hashes from `id` to the end of its sibling group;
      a unit past the end raises IndexError. */
  function HashOfUnits(units: seq<nat>, labels: seq<byte>, id: nat): (r: Result<nat>)
    decreases |units| - id
  {
    if id == 0 then Ok(0)
    else if id >= |units| || id >= |labels| then Err(OUT_OF_RANGE)
    else
      var h := Hash(UnitKey(units[id], labels[id]));
      if !UnitHasSibling(units[id]) then Ok(h)
      else
        var rest :- HashOfUnits(units, labels, id + 1);
        Ok(Xor(h, rest))
  }

  /** XORs `h` into a hash that may have failed. */
  function XorInto(h: nat, r: Result<nat>): (x: Result<nat>)
  {
    match r
    case Ok(x) => Ok(Xor(h, x))
    case Err(e) => Err(e)
  }

  lemma HashOfUnitsStep(units: seq<nat>, labels: seq<byte>, id: nat)
    requires 0 < id < |units| && id < |labels|
    ensures !UnitHasSibling(units[id]) ==>
              HashOfUnits(units, labels, id) == Ok(Hash(UnitKey(units[id], labels[id])))
    ensures UnitHasSibling(units[id]) ==>
              HashOfUnits(units, labels, id)
              == XorInto(Hash(UnitKey(units[id], labels[id])), HashOfUnits(units, labels, id + 1))
  {
  }

  /** Folding one more hash into an accumulator. */
  lemma XorIntoStep(h: nat, x: nat, r: Result<nat>)
    ensures XorInto(h, XorInto(x, r)) == XorInto(Xor(h, x), r)
  {
    if r.Ok? {
      XorAssoc(h, x, r.value);
    }
  }

  // ---- sibling chains ----------------------------------------------------------

  /** The nodes met by following sibling links from `n` until node 0, within
      `fuel` steps. */
  function SiblingChain(nodes: seq<Node>, n: nat, fuel: nat): (r: Result<seq<nat>>)
    ensures r.Ok? ==> forall k :: 0 <= k < |r.value| ==> 0 < r.value[k] < |nodes|
    ensures r.Ok? ==> |r.value| <= fuel
    ensures r.Ok? ==> (n == 0 <==> r.value == [])
    ensures r.Ok? && n != 0 ==> r.value[0] == n
    ensures r.Ok? ==> forall k :: 0 <= k < |r.value| - 1 ==> nodes[r.value[k]].sibling == r.value[k + 1]
    ensures r.Ok? && r.value != [] ==> nodes[r.value[|r.value| - 1]].sibling == 0
    decreases fuel
  {
    if n == 0 then Ok([])
    else if n >= |nodes| then Err(OUT_OF_RANGE)
    else if fuel == 0 then Err(CYCLIC_SIBLINGS)
    else
      var rest :- SiblingChain(nodes, nodes[n].sibling, fuel - 1);
      Ok([n] + rest)
  }

  /** The sibling links from `n` within as many steps as there are nodes. */
  function Chain(nodes: seq<Node>, n: nat): (r: Result<seq<nat>>)
  {
    SiblingChain(nodes, n, |nodes|)
  }

  /** Units `start .. start + len` form one sibling group: every unit but the
      last has its has-sibling bit set. */
  predicate SiblingRun(units: seq<nat>, start: nat, len: nat)
  {
    start + len < |units|
    && (forall j :: start <= j < start + len ==> UnitHasSibling(units[j]))
    && !UnitHasSibling(units[start + len])
  }

  /** The nodes of `chain` sit in the units ending at `last`, in reverse
      order, with their labels. */
  predicate WrittenReversed(nodes: seq<Node>, chain: seq<nat>, units: seq<nat>, labels: seq<byte>, last: nat)
    requires forall k :: 0 <= k < |chain| ==> chain[k] < |nodes|
  {
    |chain| <= last + 1 && last < |units| && last < |labels|
    && forall k :: 0 <= k < |chain| ==>
         units[last - k] == NodeUnit(nodes[chain[k]]) && labels[last - k] == nodes[chain[k]].nodeLabel
  }

  /** What are_equal checks: the units from `unitId` form a sibling group as
      long as the node's sibling chain, holding the nodes' units and labels in
      reverse order.  Node 0 itself is never compared. */
  ghost predicate SameGroup(nodes: seq<Node>, units: seq<nat>, labels: seq<byte>, nodeId: nat, unitId: nat)
    requires nodeId < |nodes|
  {
    if nodeId == 0 then
      Chain(nodes, nodes[0].sibling).Ok?
      && SiblingRun(units, unitId, |Chain(nodes, nodes[0].sibling).value|)
    else
      Chain(nodes, nodeId).Ok?
      && var chain := Chain(nodes, nodeId).value;
         SiblingRun(units, unitId, |chain| - 1)
         && WrittenReversed(nodes, chain, units, labels, unitId + |chain| - 1)
  }

  /** SameGroup, once the chains are known. */
  lemma SameGroupIs(nodes: seq<Node>, units: seq<nat>, labels: seq<byte>, nodeId: nat, unitId: nat,
                    rest: seq<nat>, chain: seq<nat>)
    requires nodeId < |nodes| && |labels| == |units|
    requires nodeId == 0 ==> Chain(nodes, nodes[0].sibling) == Ok(rest) && chain == []
    requires nodeId != 0 ==> Chain(nodes, nodeId) == Ok(chain) && rest == chain[1..]
    ensures forall k :: 0 <= k < |chain| ==> chain[k] < |nodes|
    ensures SameGroup(nodes, units, labels, nodeId, unitId) <==>
              SiblingRun(units, unitId, |rest|)
              && WrittenReversed(nodes, chain, units, labels, unitId + |rest|)
  {
  }

  /** A bit below `size` lies in one of the words of a valid bit vector. */
  lemma WordInRange(id: nat, size: nat)
    requires id < size
    ensures id / UNIT_SIZE < (size + UNIT_SIZE - 1) / UNIT_SIZE
  {
  }

  /** An equal group lies inside the units. */
  lemma SameGroupInUnits(nodes: seq<Node>, units: seq<nat>, labels: seq<byte>, nodeId: nat, unitId: nat)
    requires nodeId < |nodes| && SameGroup(nodes, units, labels, nodeId, unitId)
    ensures unitId < |units|
  {
  }

  /** The units the hash table indexes: leaves and states. */
  predicate Indexed(units: seq<nat>, labels: seq<byte>, id: nat)
    requires id < |units| && id < |labels|
  {
    labels[id] == 0 || UnitIsState(units[id])
  }

  // ---- walking a key ---------------------------------------------------------------

  /** Where the first loop of insert stops. */
  datatype WalkEnd =
    | Consumed                                  // the whole key and its terminator matched
    | Failed(e: Error)
    | Fresh(id: nat, pos: nat)                  // node `id` has no child yet
    | Branches(id: nat, pos: nat, child: nat)   // the key byte is above the last child's label

  /** The label insert compares at `pos`: the key byte, or 0 past the end. */
  function KeyLabel(key: seq<byte>, pos: nat): byte
  {
    if pos < |key| then key[pos] else 0
  }

  /** Follows the key down the most recent children from node `id`. */
  function Walk(nodes: seq<Node>, key: seq<byte>, id: nat, pos: nat): (r: WalkEnd)
    decreases |key| + 1 - pos
  {
    if pos > |key| then Consumed
    else if id >= |nodes| then Failed(OUT_OF_RANGE)
    else
      var childId := nodes[id].child;
      if childId == 0 then Fresh(id, pos)
      else if pos < |key| && key[pos] == 0 then Failed(INVALID_NULL)
      else if childId >= |nodes| then Failed(OUT_OF_RANGE)
      else
        var unitLabel := nodes[childId].nodeLabel;
        if KeyLabel(key, pos) < unitLabel then Failed(WRONG_KEY_ORDER)
        else if KeyLabel(key, pos) > unitLabel then Branches(id, pos, childId)
        else Walk(nodes, key, childId, pos + 1)
  }

  /** The walk reports a null character only for a key holding a 0 byte. */
  lemma {:induction false} WalkNullIsInKey(nodes: seq<Node>, key: seq<byte>, id: nat, pos: nat)
    requires Walk(nodes, key, id, pos) == Failed(INVALID_NULL)
    ensures exists i :: pos <= i < |key| && key[i] == 0
    decreases |key| + 1 - pos
  {
    var childId := nodes[id].child;
    if pos < |key| && key[pos] == 0 {
    } else {
      WalkNullIsInKey(nodes, key, childId, pos + 1);
    }
  }

  /** The walk stops where it reports, with `pos` inside the key plus its
      terminator and `id` an existing node. */
  lemma {:induction false} WalkStopsInside(nodes: seq<Node>, key: seq<byte>, id: nat, pos: nat)
    requires pos <= |key| + 1
    ensures Walk(nodes, key, id, pos).Fresh? ==>
              Walk(nodes, key, id, pos).pos <= |key| && Walk(nodes, key, id, pos).id < |nodes|
    ensures Walk(nodes, key, id, pos).Branches? ==>
              var w := Walk(nodes, key, id, pos);
              w.pos <= |key| && w.id < |nodes| && w.child < |nodes| && w.child != 0
    decreases |key| + 1 - pos
  {
    if pos <= |key| && id < |nodes| {
      var childId := nodes[id].child;
      if childId != 0 && !(pos < |key| && key[pos] == 0) && childId < |nodes|
         && KeyLabel(key, pos) == nodes[childId].nodeLabel {
        WalkStopsInside(nodes, key, childId, pos + 1);
      }
    }
  }

  /** A table kept a quarter free still has room for one more state once
      it has doubled. */
  lemma RoomAfterDoubling(size: nat, n: nat)
    requires 0 < size && n <= size - size / 4
    ensures n < 2 * size - (2 * size) / 4
  {
  }

  /** The builder.  `isIntersections` marks units shared by several parents. */
  class DawgBuilder {
    var nodes: seq<Node>
    var units: seq<nat>
    var labels: seq<byte>
    var isIntersections: BitVector
    var table: seq<nat>
    var nodeStack: seq<nat>
    var recycleBin: seq<nat>
    var numStates: nat

    /** One label and one intersection bit per unit; the stack and the
        recycle bin hold ids of existing nodes. */
    ghost predicate Valid()
      reads this, isIntersections
    {
      |labels| == |units| && isIntersections.size == |units| && isIntersections.Valid()
      && (forall k :: 0 <= k < |nodeStack| ==> nodeStack[k] < |nodes|)
      && (forall k :: 0 <= k < |recycleBin| ==> recycleBin[k] < |nodes|)
    }

    /** The table keeps a quarter of its slots free. */
    predicate TableRoom()
      reads this
    {
      numStates <= |table| - |table| / 4
    }

    constructor()
      ensures Valid() && fresh(isIntersections)
      ensures nodes == [] && units == [] && labels == [] && table == []
      ensures nodeStack == [] && recycleBin == [] && numStates == 0
    {
      nodes, units, labels := [], [], [];
      isIntersections := new BitVector();
      table, nodeStack, recycleBin := [], [], [];
      numStates := 0;
    }

    /** root: unit 0, which Init reserves. */
    function Root(): (r: nat)
      ensures r == 0
    {
      0
    }

    /** child: the unit without its is-state and has-sibling bits. */
    function Child(id: nat): (r: nat)
      reads this
      requires id < |units|
      ensures units[id] == 4 * r + units[id] % 4
    {
      UnitChild(units[id])
    }

    /** The next unit of the group when the has-sibling bit is set, else 0. */
    function Sibling(id: nat): (s: nat)
      reads this
      requires id < |units|
      ensures s == 0 || s == id + 1
      ensures s != 0 <==> And(units[id], 1) == 1
    {
      LowBitTests(units[id]);
      if UnitHasSibling(units[id]) then id + 1 else 0
    }

    /** value: a leaf unit without its has-sibling bit. */
    function Value(id: nat): (r: nat)
      reads this
      requires id < |units|
      ensures units[id] == 2 * r + units[id] % 2
    {
      UnitValue(units[id])
    }

    /** label: the byte the unit was written with. */
    function Label(id: nat): (r: byte)
      reads this
      requires id < |labels|
      ensures r == labels[id]
    {
      labels[id]
    }

    predicate IsLeaf(id: nat)
      reads this
      requires id < |labels|
    {
      Label(id) == 0
    }

    predicate IsIntersection(id: nat)
      reads this, isIntersections
      requires id / UNIT_SIZE < |isIntersections.units|
    {
      isIntersections.Get(id)
    }

    /** `intersecrion_id` (so spelled in the source): the rank of the id's
        intersection bit, minus one. */
    function IntersectionId(id: nat): (r: int)
      reads this, isIntersections
      requires isIntersections.ranks.Some?
      requires id / UNIT_SIZE < |isIntersections.units|
      requires id / UNIT_SIZE < |isIntersections.ranks.value|
      ensures r >= -1
      ensures isIntersections.Built() ==> r == OnesBefore(isIntersections.units, id / UNIT_SIZE + 1) - 1
    {
      isIntersections.Rank(id) - 1
    }

    /** num_intersections: the ones of the intersection bits, once built. */
    function NumIntersections(): (r: nat)
      reads this, isIntersections
      ensures isIntersections.Built() ==> r == OnesBefore(isIntersections.units, |isIntersections.units|)
    {
      isIntersections.numOnes
    }

    /** size: the number of units written. */
    function Size(): (r: nat)
      reads this
      ensures r == |units|
    {
      |units|
    }

    /** The most recently freed node is reused (after a reset) before the
        pool grows. */
    method AppendNode() returns (id: nat)
      requires Valid()
      modifies this`nodes, this`recycleBin
      ensures Valid() && id < |nodes| && |nodes| >= old(|nodes|)
      ensures old(recycleBin) == [] ==>
                id == old(|nodes|) && nodes == old(nodes) + [FRESH_NODE] && recycleBin == []
      ensures old(recycleBin) != [] ==>
                id == old(recycleBin[|recycleBin| - 1]) && nodes == old(nodes)[id := FRESH_NODE]
                && recycleBin == old(recycleBin[..|recycleBin| - 1])
      ensures units == old(units) && labels == old(labels) && table == old(table)
      ensures nodeStack == old(nodeStack) && numStates == old(numStates)
      ensures isIntersections == old(isIntersections)
    {
      if |recycleBin| == 0 {
        id := |nodes|;
        nodes := nodes + [FRESH_NODE];
      } else {
        id := recycleBin[|recycleBin| - 1];
        nodes := nodes[id := FRESH_NODE];
        recycleBin := recycleBin[..|recycleBin| - 1];
      }
    }

    method FreeNode(id: nat)
      requires Valid() && id < |nodes|
      modifies this`recycleBin
      ensures Valid() && recycleBin == old(recycleBin) + [id]
    {
      recycleBin := recycleBin + [id];
    }

    /** A zero unit with label 0 and a clear intersection bit; the result is
        its id. */
    method AppendUnit() returns (id: nat)
      requires Valid()
      modifies this`units, this`labels, isIntersections`units, isIntersections`size
      ensures Valid()
      ensures units == old(units) + [0] && labels == old(labels) + [0] && id == old(|units|)
      ensures |isIntersections.units| >= old(|isIntersections.units|)
    {
      isIntersections.Append();
      units := units + [0];
      labels := labels + [0];
      id := isIntersections.size - 1;
    }

    /** hash_node: the XOR of the node hashes along the sibling links. */
    method HashNode(id: nat) returns (r: Result<nat>)
      ensures Chain(nodes, id).Err? ==> r == Err(Chain(nodes, id).error)
      ensures Chain(nodes, id).Ok? ==> r == Ok(HashOfNodes(nodes, Chain(nodes, id).value))
    {
      var chain :- Chain(nodes, id);
      var h := 0;
      var k := |chain|;
      while k > 0
        invariant 0 <= k <= |chain|
        invariant h == HashOfNodes(nodes, chain[k..])
      {
        k := k - 1;
        assert chain[k..][1..] == chain[k + 1..];
        h := Xor(Hash(NodeKey(nodes[chain[k]])), h);
      }
      r := Ok(h);
    }

    /** hash_unit: the XOR of the unit hashes over the group starting at `id`. */
    method HashUnit(id: nat) returns (r: Result<nat>)
      ensures r == HashOfUnits(units, labels, id)
    {
      var h := 0;
      var i := id;
      XorZero(0);
      assert HashOfUnits(units, labels, id) == XorInto(h, HashOfUnits(units, labels, i)) by {
        var rr := HashOfUnits(units, labels, id);
        if rr.Ok? { XorZero(rr.value); }
      }
      while i != 0
        invariant i == 0 || i >= id
        invariant HashOfUnits(units, labels, id) == XorInto(h, HashOfUnits(units, labels, i))
        decreases if i == 0 then 0 else |units| + 1 - i
      {
        if i >= |units| || i >= |labels| {
          return Err(OUT_OF_RANGE);
        }
        var hi := Hash(UnitKey(units[i], labels[i]));
        HashOfUnitsStep(units, labels, i);
        if !UnitHasSibling(units[i]) {
          h := Xor(h, hi);
          break;
        }
        XorIntoStep(h, hi, HashOfUnits(units, labels, i + 1));
        h := Xor(h, hi);
        i := i + 1;
      }
      XorZero(h);
      r := Ok(h);
    }

    /** The first loop of are_equal: `len` units from `unitId` with the
        has-sibling bit set, then one without. */
    method RunFrom(unitId: nat, len: nat) returns (r: Result<bool>)
      ensures r == Ok(true) <==> SiblingRun(units, unitId, len)
    {
      var u := unitId;
      while u < unitId + len
        invariant unitId <= u <= unitId + len
        invariant forall t :: unitId <= t < u ==> t < |units| && UnitHasSibling(units[t])
      {
        if u >= |units| {
          return Err(OUT_OF_RANGE);
        }
        if !UnitHasSibling(units[u]) {
          return Ok(false);
        }
        u := u + 1;
      }
      if u >= |units| {
        return Err(OUT_OF_RANGE);
      }
      r := Ok(!UnitHasSibling(units[u]));
    }

    /** The second loop of are_equal: the chain's nodes, read backwards from
        unit `last`, match the units and labels. */
    method MatchesReversed(chain: seq<nat>, last: nat) returns (b: bool)
      requires forall k :: 0 <= k < |chain| ==> chain[k] < |nodes|
      requires |chain| <= last + 1 && last < |units| && |labels| == |units|
      ensures b <==> WrittenReversed(nodes, chain, units, labels, last)
    {
      var k := 0;
      while k < |chain|
        invariant 0 <= k <= |chain|
        invariant forall t :: 0 <= t < k ==>
                    units[last - t] == NodeUnit(nodes[chain[t]]) && labels[last - t] == nodes[chain[t]].nodeLabel
      {
        if NodeUnit(nodes[chain[k]]) != units[last - k] || nodes[chain[k]].nodeLabel != labels[last - k] {
          return false;
        }
        k := k + 1;
      }
      b := true;
    }

    /** are_equal: whether the units from `unitId` hold the node's sibling
        group. */
    method AreEqual(nodeId: nat, unitId: nat) returns (r: Result<bool>)
      requires Valid() && nodeId < |nodes|
      ensures r == Ok(true) <==> SameGroup(nodes, units, labels, nodeId, unitId)
    {
      var rest: seq<nat>;
      var chain: seq<nat>;
      if nodeId == 0 {
        rest :- Chain(nodes, nodes[0].sibling);
        chain := [];
      } else {
        chain :- Chain(nodes, nodeId);
        rest := chain[1..];
      }
      SameGroupIs(nodes, units, labels, nodeId, unitId, rest, chain);
      var run :- RunFrom(unitId, |rest|);
      if !run {
        return Ok(false);
      }
      var same := MatchesReversed(chain, unitId + |rest|);
      r := Ok(same);
    }

    /** find_node: probes from the node's hash for a slot holding an equal
        group (its unit id is returned with the slot) or an empty slot (0 is
        returned with it). */
    method FindNode(nodeId: nat) returns (r: Result<(nat, nat)>)
      requires Valid() && nodeId < |nodes|
      ensures r.Ok? ==> |table| > 0 && r.value.1 < |table|
      ensures r.Ok? && r.value.0 == 0 ==> table[r.value.1] == 0
      ensures r.Ok? && r.value.0 != 0 ==>
                table[r.value.1] == r.value.0 && SameGroup(nodes, units, labels, nodeId, r.value.0)
    {
      var h :- HashNode(nodeId);
      if |table| == 0 {
        return Err(MODULO_BY_ZERO);
      }
      var hashId := h % |table|;
      var probes := 0;
      while true
        invariant 0 <= hashId < |table| && probes <= |table|
        decreases |table| - probes
      {
        if probes == |table| {
          return Err(TABLE_FULL);
        }
        var unitId := table[hashId];
        if unitId == 0 {
          break;
        }
        var equal :- AreEqual(nodeId, unitId);
        if equal {
          return Ok((unitId, hashId));
        }
        hashId := (hashId + 1) % |table|;
        probes := probes + 1;
      }
      r := Ok((0, hashId));
    }

    /** find_unit: the first empty slot probing from the unit group's hash. */
    method FindUnit(id: nat) returns (r: Result<nat>)
      ensures r.Ok? ==> r.value < |table| && table[r.value] == 0
    {
      var h :- HashUnit(id);
      if |table| == 0 {
        return Err(MODULO_BY_ZERO);
      }
      var hashId := h % |table|;
      var probes := 0;
      while table[hashId] != 0
        invariant 0 <= hashId < |table| && probes <= |table|
        decreases |table| - probes
      {
        if probes == |table| {
          return Err(TABLE_FULL);
        }
        hashId := (hashId + 1) % |table|;
        probes := probes + 1;
      }
      r := Ok(hashId);
    }

    /** expand_table: a table twice the size, refilled with every leaf and
        state unit after unit 0. */
    method ExpandTable() returns (r: Result<()>)
      requires Valid()
      modifies this`table
      ensures |table| == 2 * old(|table|)
      ensures r.Ok? ==> forall s :: 0 <= s < |table| && table[s] != 0 ==>
                          table[s] < |units| && Indexed(units, labels, table[s])
      ensures r.Ok? ==> forall id :: 0 < id < |units| && Indexed(units, labels, id) ==> id in table
    {
      var tableSize := 2 * |table|;
      table := seq(tableSize, _ => 0);
      var id := 1;
      while id < |units|
        invariant 1 <= id && (|units| > 0 ==> id <= |units|) && |table| == tableSize
        invariant |labels| == |units|
        invariant forall s :: 0 <= s < |table| && table[s] != 0 ==>
                    0 < table[s] < id && table[s] < |units| && Indexed(units, labels, table[s])
        invariant forall i :: 0 < i < id && i < |units| && Indexed(units, labels, i) ==> i in table
      {
        if Indexed(units, labels, id) {
          var hashId :- FindUnit(id);
          ghost var before := table;
          table := table[hashId := id];
          forall i | 0 < i < id && i < |units| && Indexed(units, labels, i)
            ensures i in table
          {
            var s :| 0 <= s < |before| && before[s] == i;
            assert table[s] == i;
          }
          assert table[hashId] == id;
        }
        id := id + 1;
      }
      r := Ok(());
    }

    /** The else branch of flush: one fresh unit per node of the chain, the
        nodes written into them last-first, and the group's first unit
        recorded in the table.  An empty chain records unit 1. */
    method WriteGroup(chain: seq<nat>, hashId: nat) returns (matchId: nat)
      requires Valid() && hashId < |table|
      requires forall k :: 0 <= k < |chain| ==> 0 < chain[k] < |nodes|
      modifies this`units, this`labels, this`table, this`numStates, isIntersections`units, isIntersections`size
      ensures Valid()
      ensures |units| == old(|units|) + |chain|
      ensures units[..old(|units|)] == old(units) && labels[..old(|labels|)] == old(labels)
      ensures chain == [] ==> matchId == 1
      ensures chain != [] ==> matchId == old(|units|) && WrittenReversed(nodes, chain, units, labels, |units| - 1)
      ensures table == old(table)[hashId := matchId] && numStates == old(numStates) + 1
    {
      var unitId: int := 0;
      var i := 0;
      while i < |chain|
        invariant 0 <= i <= |chain| && Valid()
        invariant |units| == old(|units|) + i
        invariant units[..old(|units|)] == old(units) && labels[..old(|labels|)] == old(labels)
        invariant i > 0 ==> unitId == |units| - 1
        invariant i == 0 ==> unitId == 0
        invariant table == old(table) && numStates == old(numStates)
      {
        unitId := AppendUnit();
        i := i + 1;
      }
      var last := unitId;
      var k := 0;
      while k < |chain|
        invariant 0 <= k <= |chain| && unitId == last - k
        invariant |units| == old(|units|) + |chain| && |labels| == |units|
        invariant isIntersections.size == |units| && isIntersections.Valid()
        invariant units[..old(|units|)] == old(units) && labels[..old(|labels|)] == old(labels)
        invariant forall t :: 0 <= t < k ==>
                    units[last - t] == NodeUnit(nodes[chain[t]]) && labels[last - t] == nodes[chain[t]].nodeLabel
        invariant table == old(table) && numStates == old(numStates)
      {
        units := units[unitId := NodeUnit(nodes[chain[k]])];
        labels := labels[unitId := nodes[chain[k]].nodeLabel];
        unitId := unitId - 1;
        k := k + 1;
      }
      matchId := unitId + 1;
      table := table[hashId := matchId];
      numStates := numStates + 1;
    }

    /** The last loop of flush: every node of the chain goes to the recycle
        bin, in chain order. */
    method FreeChain(chain: seq<nat>)
      requires Valid()
      requires forall k :: 0 <= k < |chain| ==> chain[k] < |nodes|
      modifies this`recycleBin
      ensures Valid() && recycleBin == old(recycleBin) + chain
    {
      var k := 0;
      while k < |chain|
        invariant 0 <= k <= |chain| && Valid()
        invariant recycleBin == old(recycleBin) + chain[..k]
      {
        FreeNode(chain[k]);
        assert chain[..k + 1] == chain[..k] + [chain[k]];
        k := k + 1;
      }
      assert chain[..k] == chain;
    }

    /** One round of flush for the popped node: the table grows first if
        it is three-quarters full; then the node's sibling group is found in
        the table (its units are marked as an intersection) or written into
        fresh units.  The result is the group's first unit. */
    method MergeGroup(nodeId: nat) returns (r: Result<nat>)
      requires Valid() && nodeId < |nodes|
      modifies this`units, this`labels, this`table, this`numStates, this`recycleBin,
               isIntersections`units, isIntersections`size
      ensures Valid()
      ensures |units| >= old(|units|)
      ensures units[..old(|units|)] == old(units) && labels[..old(|labels|)] == old(labels)
      ensures old(TableRoom()) ==> TableRoom()
    {
      ghost var roomy, size0 := TableRoom(), |table|;
      var expanded := numStates >= |table| - |table| / 4;
      if expanded {
        var _ :- ExpandTable();
      }
      r := StoreGroup(nodeId);
      if r.Ok? && roomy && expanded {
        RoomAfterDoubling(size0, old(numStates));
      }
    }

    /** The part of a flush round after the table check: find an equal
        group or write a new one, then free the chain. */
    method StoreGroup(nodeId: nat) returns (r: Result<nat>)
      requires Valid() && nodeId < |nodes|
      modifies this`units, this`labels, this`table, this`numStates, this`recycleBin,
               isIntersections`units, isIntersections`size
      ensures Valid()
      ensures |units| >= old(|units|)
      ensures units[..old(|units|)] == old(units) && labels[..old(|labels|)] == old(labels)
      ensures |table| == old(|table|) && numStates <= old(numStates) + 1
      ensures r.Ok? ==> |table| > 0
      ensures r.Err? ==> numStates == old(numStates)
    {
      var chain :- Chain(nodes, nodeId);
      var found :- FindNode(nodeId);
      var matchId := found.0;
      if matchId != 0 {
        SameGroupInUnits(nodes, units, labels, nodeId, matchId);
        WordInRange(matchId, isIntersections.size);
        isIntersections.Set(matchId, true);
      } else {
        matchId := WriteGroup(chain, found.1);
      }
      FreeChain(chain);
      r := Ok(matchId);
    }

    /** flush: pops the stack down to the last `id`; each popped node's
        sibling group is shared with an equal group already in the units or
        written into fresh units, and its parent is pointed at that group.
        Units already written are never changed. */
    method Flush(id: nat) returns (r: Result<()>)
      requires Valid()
      modifies this, isIntersections
      ensures Valid() && isIntersections == old(isIntersections)
      ensures |nodes| == old(|nodes|) && |units| >= old(|units|)
      ensures units[..old(|units|)] == old(units) && labels[..old(|labels|)] == old(labels)
      ensures old(TableRoom()) ==> TableRoom()
      ensures r.Ok? ==> |nodeStack| < old(|nodeStack|) && nodeStack == old(nodeStack)[..|nodeStack|]
                        && old(nodeStack)[|nodeStack|] == id
      ensures r.Ok? ==> forall k :: |nodeStack| < k < old(|nodeStack|) ==> old(nodeStack)[k] != id
    {
      while true
        invariant Valid() && isIntersections == old(isIntersections)
        invariant |nodes| == old(|nodes|) && |units| >= old(|units|)
        invariant units[..old(|units|)] == old(units) && labels[..old(|labels|)] == old(labels)
        invariant old(TableRoom()) ==> TableRoom()
        invariant |nodeStack| <= old(|nodeStack|) && nodeStack == old(nodeStack)[..|nodeStack|]
        invariant forall k :: |nodeStack| <= k < old(|nodeStack|) ==> old(nodeStack)[k] != id
        decreases |nodeStack|
      {
        if |nodeStack| == 0 {
          return Err(OUT_OF_RANGE);
        }
        var nodeId := nodeStack[|nodeStack| - 1];
        if nodeId == id {
          break;
        }
        nodeStack := nodeStack[..|nodeStack| - 1];
        var matchId :- MergeGroup(nodeId);
        if |nodeStack| == 0 {
          return Err(OUT_OF_RANGE);
        }
        var parent := nodeStack[|nodeStack| - 1];
        nodes := nodes[parent := nodes[parent].(child := matchId)];
      }
      nodeStack := nodeStack[..|nodeStack| - 1];
      r := Ok(());
    }

    /** init: an empty table of 1024 slots, the root node (label 0xFF) on
        the stack and unit 0 reserved for it. */
    method Init()
      requires Valid()
      modifies this, isIntersections
      ensures Valid() && isIntersections == old(isIntersections)
      ensures table == seq(INITIAL_TABLE_SIZE, _ => 0) && numStates == 1 && TableRoom()
      ensures units == old(units) + [0] && labels == old(labels) + [0]
      ensures |nodes| > 0 && nodes[0].nodeLabel == 0xFF && nodeStack == old(nodeStack) + [0]
      ensures old(nodes) == [] && old(recycleBin) == [] ==> nodes == [Node(0, 0, 0xFF, false, false)]
    {
      table := seq(INITIAL_TABLE_SIZE, _ => 0);
      var _ := AppendNode();
      var _ := AppendUnit();
      numStates := 1;
      nodes := nodes[0 := nodes[0].(nodeLabel := 0xFF)];
      nodeStack := nodeStack + [0];
    }

    /** insert: follows the key down the most recent children; a key byte
        above the last child's label closes that child's subtree (flush) and
        a new path of nodes for the rest of the key and its terminating 0 is
        pushed, its leaf holding the value.  A key already present changes
        nothing. */
    method Insert(key: seq<byte>, value: int) returns (r: Result<()>)
      requires Valid()
      modifies this, isIntersections
      ensures Valid() && isIntersections == old(isIntersections)
      ensures value < 0 ==> r == Err(NEGATIVE_VALUE) && unchanged(this)
      ensures value >= 0 && key == [] ==> r == Err(ZERO_LENGTH_KEY) && unchanged(this)
      ensures value >= 0 && key != [] && old(Walk(nodes, key, 0, 0)).Failed? ==>
                r == Err(old(Walk(nodes, key, 0, 0)).e) && unchanged(this)
      ensures value >= 0 && key != [] && old(Walk(nodes, key, 0, 0)) == Consumed ==>
                r == Ok(()) && unchanged(this)
      ensures old(Walk(nodes, key, 0, 0)).Fresh? && r.Ok? ==>
                |nodeStack| >= old(|nodeStack|) && nodeStack[..old(|nodeStack|)] == old(nodeStack)
                && |nodeStack| == old(|nodeStack|) + |key| + 1 - old(Walk(nodes, key, 0, 0)).pos
      ensures r.Ok? && old(Walk(nodes, key, 0, 0)) != Consumed ==>
                |nodeStack| > 0 && nodeStack[|nodeStack| - 1] < |nodes|
                && nodes[nodeStack[|nodeStack| - 1]].nodeLabel == 0
                && nodes[nodeStack[|nodeStack| - 1]].child == value
    {
      if value < 0 {
        return Err(NEGATIVE_VALUE);
      }
      if |key| == 0 {
        return Err(ZERO_LENGTH_KEY);
      }
      var id := 0;
      var pos := 0;
      var branch := 0;
      while pos <= |key|
        invariant pos <= |key| + 1 && Walk(nodes, key, 0, 0) == Walk(nodes, key, id, pos)
        decreases |key| + 1 - pos
      {
        if id >= |nodes| {
          return Err(OUT_OF_RANGE);
        }
        var childId := nodes[id].child;
        if childId == 0 {
          break;
        }
        var keyLabel := KeyLabel(key, pos);
        if pos < |key| && keyLabel == 0 {
          return Err(INVALID_NULL);
        }
        if childId >= |nodes| {
          return Err(OUT_OF_RANGE);
        }
        var unitLabel := nodes[childId].nodeLabel;
        if keyLabel < unitLabel {
          return Err(WRONG_KEY_ORDER);
        } else if keyLabel > unitLabel {
          branch := childId;
          break;
        }
        id := childId;
        pos := pos + 1;
      }
      if pos > |key| {
        return Ok(());
      }
      WalkStopsInside(nodes, key, 0, 0);
      assert id < |nodes|;
      if branch != 0 {
        nodes := nodes[branch := nodes[branch].(hasSibling := true)];
        var _ :- Flush(branch);
      }
      r := AppendPath(key, pos, id, value);
    }

    /** One round of the second loop of insert: a new node with the label
        becomes the most recent child of `id`, its sibling the previous
        child; it is a state when it is the first child. */
    method AppendChild(id: nat, lab: byte) returns (childId: nat)
      requires Valid() && id < |nodes|
      modifies this`nodes, this`recycleBin
      ensures Valid() && childId < |nodes| && |nodes| >= old(|nodes|)
      ensures nodes[childId].nodeLabel == lab
      ensures nodes[childId].sibling == old(nodes[id].child) || childId == id
      ensures nodes[id].child == childId
    {
      childId := AppendNode();
      var oldChild := nodes[id].child;
      if oldChild == 0 {
        nodes := nodes[childId := nodes[childId].(isState := true)];
      }
      nodes := nodes[childId := nodes[childId].(sibling := oldChild)];
      nodes := nodes[childId := nodes[childId].(nodeLabel := lab)];
      nodes := nodes[id := nodes[id].(child := childId)];
    }

    /** The second loop of insert: one new node per remaining key byte and
        one for the terminator, each the most recent child of the one
        before; the leaf holds the value. */
    method AppendPath(key: seq<byte>, pos0: nat, id0: nat, value: nat) returns (r: Result<()>)
      requires Valid() && pos0 <= |key| && id0 < |nodes|
      modifies this
      ensures Valid() && isIntersections == old(isIntersections)
      ensures |nodeStack| == old(|nodeStack|) + |key| + 1 - pos0
      ensures nodeStack[..old(|nodeStack|)] == old(nodeStack)
      ensures r == Ok(()) && nodeStack[|nodeStack| - 1] < |nodes|
      ensures nodes[nodeStack[|nodeStack| - 1]].nodeLabel == 0
      ensures nodes[nodeStack[|nodeStack| - 1]].child == value
    {
      var id: nat := id0;
      var pos: nat := pos0;
      while pos <= |key|
        invariant pos0 <= pos <= |key| + 1 && id < |nodes|
        invariant Valid() && isIntersections == old(isIntersections)
        invariant |nodeStack| == old(|nodeStack|) + pos - pos0
        invariant nodeStack[..old(|nodeStack|)] == old(nodeStack)
        invariant pos > pos0 ==> nodeStack[|nodeStack| - 1] == id && nodes[id].nodeLabel == KeyLabel(key, pos - 1)
        decreases |key| + 1 - pos
      {
        var childId := AppendChild(id, KeyLabel(key, pos));
        nodeStack := nodeStack + [childId];
        id := childId;
        pos := pos + 1;
      }
      nodes := nodes[id := nodes[id].(child := value)];
      r := Ok(());
    }

    /** finish: closes every open group (flush down to the root), writes
        the root into unit 0, drops the node pool, the table and the stacks,
        and builds the rank directory of the intersection bits. */
    method Finish() returns (r: Result<()>)
      requires Valid()
      modifies this, isIntersections
      ensures Valid() && isIntersections == old(isIntersections)
      ensures r.Ok? ==> |units| > 0 && isIntersections.Built()
      ensures r.Ok? ==> nodes == [] && table == [] && nodeStack == [] && recycleBin == []
      ensures r.Ok? && old(|units|) > 0 ==>
                |units| >= old(|units|) && units[1..old(|units|)] == old(units)[1..] && labels[1..old(|labels|)] == old(labels)[1..]
    {
      var _ :- Flush(0);
      if |nodes| == 0 || |units| == 0 {
        return Err(OUT_OF_RANGE);
      }
      units := units[0 := NodeUnit(nodes[0])];
      labels := labels[0 := nodes[0].nodeLabel];
      nodes, table, nodeStack, recycleBin := [], [], [], [];
      isIntersections.Build();
      r := Ok(());
    }

    /** clear: every list emptied and a new bit vector. */
    method Clear()
      modifies this
      ensures Valid() && fresh(isIntersections) && isIntersections.units == []
      ensures nodes == [] && units == [] && labels == [] && table == []
      ensures nodeStack == [] && recycleBin == [] && numStates == 0
    {
      nodes, units, labels := [], [], [];
      isIntersections := new BitVector();
      table, nodeStack, recycleBin := [], [], [];
      numStates := 0;
    }
  }
}
