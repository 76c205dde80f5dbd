/** The lattice of candidate words over the byte positions of the input,
    searched for the cheapest path from BOS to EOS. */
module Lattices {
  import opened Wrappers
  import opened Grammars
  import opened LatticeNodes

  /** What connect_node reads of a node ending where the node to be
      connected begins. */
  datatype Candidate = Candidate(connected: bool, rightId: int, totalCost: Cost)

  /** The candidates the nodes of `ls` offer, read in the current state. */
  function Snapshot(ls: seq<LatticeNode>): (cs: seq<Candidate>)
    reads ls`isConnectedToBos, ls`rightId, ls`totalCost
    ensures |cs| == |ls|
    ensures forall i :: 0 <= i < |ls| ==> cs[i] == Candidate(ls[i].isConnectedToBos, ls[i].rightId, ls[i].totalCost)
  {
    if ls == [] then []
    else
      var l := ls[|ls| - 1];
      Snapshot(ls[..|ls| - 1]) + [Candidate(l.isConnectedToBos, l.rightId, l.totalCost)]
  }

  /** The predecessor connect_node has settled on after looking at the
      first `k` candidates of `cs`, as an index into `cs` with its cost, or
      None while no node qualified.  Unconnected nodes and inhibited
      connections are skipped; a node replaces the current choice only
      when strictly cheaper, so the earliest of equal candidates stays. */
  function Choose(g: Grammar, cs: seq<Candidate>, leftId: int, k: nat): (r: Result<Option<(nat, Cost)>>)
    requires k <= |cs|
  {
    if k == 0 then Ok(None)
    else
      var best :- Choose(g, cs, leftId, k - 1);
      Consider(g, cs[k - 1], leftId, k - 1, best)
  }

  /** One turn of connect_node's loop: candidate `c`, at index `i`, against
      the choice so far. */
  function Consider(g: Grammar, c: Candidate, leftId: int, i: nat, best: Option<(nat, Cost)>): (r: Result<Option<(nat, Cost)>>)
  {
    if !c.connected then Ok(best)
    else
      var connectCost :- GetConnectCost(g, c.rightId, leftId);
      if connectCost == INHIBITED_CONNECTION then Ok(best)
      else
        var cost := AddCost(c.totalCost, connectCost);
        if Less(cost, CostOf(best)) then Ok(Some((i, cost))) else Ok(best)
  }

  /** The running minimum: infinity while nothing was chosen. */
  function CostOf(best: Option<(nat, Cost)>): (r: Cost)
  {
    if best.None? then Infinity else best.value.1
  }

  /** Candidate `c` can precede a node with left id `leftId`: it is
      connected to BOS and its connection is readable and not inhibited. */
  predicate Eligible(g: Grammar, c: Candidate, leftId: int)
  {
    c.connected
    && GetConnectCost(g, c.rightId, leftId).Ok?
    && GetConnectCost(g, c.rightId, leftId).value != INHIBITED_CONNECTION
  }

  /** The cost of reaching a node through candidate `c`. */
  function ThroughCost(g: Grammar, c: Candidate, leftId: int): (r: Cost)
    requires Eligible(g, c, leftId)
  {
    AddCost(c.totalCost, GetConnectCost(g, c.rightId, leftId).value)
  }

  /** A turn takes an eligible candidate exactly when it is strictly
      cheaper than the choice so far, and fails only on a failing
      connection read. */
  lemma ConsiderTakesCheaper(g: Grammar, c: Candidate, leftId: int, i: nat, best: Option<(nat, Cost)>)
    ensures var r := Consider(g, c, leftId, i, best);
            (r.Err? <==> c.connected && GetConnectCost(g, c.rightId, leftId).Err?)
            && (Eligible(g, c, leftId) && Less(ThroughCost(g, c, leftId), CostOf(best)) ==>
                  r == Ok(Some((i, ThroughCost(g, c, leftId)))))
            && (r.Ok? && !(Eligible(g, c, leftId) && Less(ThroughCost(g, c, leftId), CostOf(best))) ==>
                  r == Ok(best))
  {
  }

  /** What connect_node chooses is a cheapest eligible node, the first of
      the cheapest ones; it chooses none exactly when no eligible node has
      a finite cost. */
  lemma {:induction false} ChooseIsFirstMinimum(g: Grammar, cs: seq<Candidate>, leftId: int, k: nat)
    requires k <= |cs| && Choose(g, cs, leftId, k).Ok?
    ensures var best := Choose(g, cs, leftId, k).value;
            best.Some? ==>
              var (i, c) := best.value;
              i < k && Eligible(g, cs[i], leftId) && ThroughCost(g, cs[i], leftId) == c && c.Finite?
              && (forall j :: 0 <= j < i && Eligible(g, cs[j], leftId) ==> Less(c, ThroughCost(g, cs[j], leftId)))
              && (forall j :: i < j < k && Eligible(g, cs[j], leftId) ==> !Less(ThroughCost(g, cs[j], leftId), c))
    ensures Choose(g, cs, leftId, k).value.None? ==>
              forall j :: 0 <= j < k && Eligible(g, cs[j], leftId) ==> ThroughCost(g, cs[j], leftId).Infinity?
    decreases k
  {
    if k > 0 {
      ChooseIsFirstMinimum(g, cs, leftId, k - 1);
      var best := Choose(g, cs, leftId, k - 1).value;
      var l := cs[k - 1];
      ConsiderTakesCheaper(g, l, leftId, k - 1, best);
      if Eligible(g, l, leftId) && Less(ThroughCost(g, l, leftId), CostOf(best)) {
        var c' := ThroughCost(g, l, leftId);
        forall j | 0 <= j < k - 1 && Eligible(g, cs[j], leftId)
          ensures Less(c', ThroughCost(g, cs[j], leftId))
        {
          var t := ThroughCost(g, cs[j], leftId);
          if best.Some? {
            var (i, c) := best.value;
            if j != i {
              LessIsStrictOrder(c', c, t);
              LessIsStrictOrder(t, c, c');
            }
          }
        }
      }
    }
  }

  /** An unconnected candidate is skipped, so appending one changes
      nothing. */
  lemma ChooseSkipsUnconnected(g: Grammar, cs: seq<Candidate>, n: Candidate, leftId: int)
    requires !n.connected
    ensures Choose(g, cs + [n], leftId, |cs| + 1) == Choose(g, cs, leftId, |cs|)
  {
    ChoosePrefix(g, cs, [n], leftId, |cs|);
  }

  /** The chosen index is among the nodes looked at. */
  lemma {:induction false} ChooseWithin(g: Grammar, cs: seq<Candidate>, leftId: int, k: nat)
    requires k <= |cs|
    ensures var c := Choose(g, cs, leftId, k); c.Ok? && c.value.Some? ==> c.value.value.0 < k
    decreases k
  {
    if k > 0 {
      ChooseWithin(g, cs, leftId, k - 1);
    }
  }

  /** Choose over a prefix only looks at the prefix. */
  lemma {:induction false} ChoosePrefix(g: Grammar, cs: seq<Candidate>, more: seq<Candidate>, leftId: int, k: nat)
    requires k <= |cs|
    ensures Choose(g, cs + more, leftId, k) == Choose(g, cs, leftId, k)
    decreases k
  {
    if k > 0 {
      ChoosePrefix(g, cs, more, leftId, k - 1);
      assert (cs + more)[k - 1] == cs[k - 1];
    }
  }

  /** `s` back to front. */
  function Reversed<T>(s: seq<T>): (r: seq<T>)
    ensures |r| == |s|
    ensures forall i :: 0 <= i < |s| ==> r[i] == s[|s| - 1 - i]
  {
    if s == [] then [] else Reversed(s[1..]) + [s[0]]
  }

  class Lattice {
    var endLists: seq<seq<LatticeNode>>
    var size: nat
    var capacity: nat
    var eosNode: LatticeNode?
    const grammar: Grammar
    /** The node the constructor put first in `end_lists[0]`. */
    const bos: LatticeNode
    /** Every node inserted so far, BOS first, in insertion order. */
    ghost var nodes: seq<LatticeNode>

    /** A connected node's best predecessor was inserted before it, is
        connected, and ends where the node begins. */
    ghost predicate Linked(k: nat)
      requires k < |nodes|
      reads this`nodes, nodes`bestPreviousNode, nodes`isConnectedToBos, nodes`end, nodes`begin
    {
      var p := nodes[k].bestPreviousNode;
      p != null && p in nodes[..k] && p.isConnectedToBos && p.end == nodes[k].begin
    }

    /** The lists and counters: a list per position up to the capacity,
        and BOS first in the list of position 0. */
    ghost predicate Shape()
      reads this
    {
      |endLists| >= capacity + 1 && size <= capacity
      && |nodes| > 0 && nodes[0] == bos && |endLists[0]| > 0 && endLists[0][0] == bos
    }

    /** Every listed node was inserted and ends at its list's position. */
    ghost predicate Listed()
      reads this`endLists, this`nodes, nodes`end
    {
      forall i, j :: 0 <= i < |endLists| && 0 <= j < |endLists[i]| ==>
        endLists[i][j] in nodes && endLists[i][j].end == i
    }

    /** Every connected node after BOS has a best predecessor, and every
        best predecessor is an earlier node. */
    ghost predicate AllLinked()
      reads this`nodes, nodes`bestPreviousNode, nodes`isConnectedToBos, nodes`end, nodes`begin
    {
      forall k :: 0 < k < |nodes| ==>
        (nodes[k].isConnectedToBos ==> nodes[k].bestPreviousNode != null)
        && (nodes[k].bestPreviousNode != null ==> Linked(k))
    }

    /** EOS, once resized, spans [size, size) and, connected, reaches back
        to an inserted connected node. */
    ghost predicate EosLinked()
      reads this`eosNode, this`size, this`nodes, eosNode, nodes`isConnectedToBos, nodes`end
    {
      eosNode != null ==>
        eosNode !in nodes && eosNode.hasParameter && eosNode.begin == size && eosNode.end == size
        && (eosNode.isConnectedToBos ==> eosNode.bestPreviousNode != null)
        && (var p := eosNode.bestPreviousNode;
            p != null ==> p in nodes && p.isConnectedToBos && p.end == eosNode.begin)
    }

    ghost predicate Valid()
      reads this, nodes, eosNode
    {
      Shape()
      && bos.begin == 0 && bos.end == 0 && bos.isConnectedToBos
      && (forall n :: n in nodes ==> n.hasParameter)
      && Listed() && AllLinked() && EosLinked()
    }

    /** A lattice holding only BOS, with the BOS parameters, connected. */
    constructor(grammar: Grammar)
      ensures Valid() && fresh(bos) && nodes == [bos]
      ensures endLists == [[bos]] && size == 0 && capacity == 0 && eosNode == null
      ensures this.grammar == grammar
      ensures bos.leftId == BOS_PARAMETER[0] && bos.rightId == BOS_PARAMETER[1] && bos.cost == BOS_PARAMETER[2]
      ensures bos.totalCost == Finite(0) && bos.bestPreviousNode == null && bos.wordId == -1
    {
      var b := new LatticeNode();
      b.SetParameter(BOS_PARAMETER[0], BOS_PARAMETER[1], BOS_PARAMETER[2]);
      b.isConnectedToBos := true;
      endLists := [[b]];
      size := 0;
      capacity := 0;
      eosNode := null;
      this.grammar := grammar;
      bos := b;
      nodes := [b];
    }

    /** resize: room for `newSize` positions (expand adds one list per
        position past `size`, not past `capacity`), and a fresh EOS node
        with the EOS parameters at [newSize, newSize). */
    method Resize(newSize: nat)
      requires Valid()
      modifies this
      ensures Valid() && nodes == old(nodes)
      ensures size == newSize
      ensures old(capacity) < newSize ==>
                capacity == newSize && endLists == old(endLists) + EmptyLists(newSize - old(size))
      ensures old(capacity) >= newSize ==> capacity == old(capacity) && endLists == old(endLists)
      ensures eosNode != null && fresh(eosNode)
      ensures eosNode.begin == newSize && eosNode.end == newSize && !eosNode.isConnectedToBos
      ensures eosNode.leftId == EOS_PARAMETER[0] && eosNode.rightId == EOS_PARAMETER[1]
      ensures eosNode.cost == EOS_PARAMETER[2] && eosNode.bestPreviousNode == null
    {
      var eos := NewEos(newSize);
      if newSize > capacity {
        Expand(newSize);
      }
      size := newSize;
      eosNode := eos;
    }

    /** expand: one more empty list per position from `size` to `newSize`. */
    method Expand(newSize: nat)
      requires Valid() && newSize > capacity
      modifies this`endLists, this`capacity
      ensures Valid() && capacity == newSize
      ensures endLists == old(endLists) + EmptyLists(newSize - size)
    {
      endLists := endLists + EmptyLists(newSize - size);
      capacity := newSize;
    }

    /** clear: the lists of positions 1 .. size emptied, BOS kept, no EOS. */
    method Clear()
      requires Valid()
      modifies this`endLists, this`size, this`eosNode
      ensures Valid() && nodes == old(nodes)
      ensures |endLists| == |old(endLists)| && endLists[0] == old(endLists[0])
      ensures forall i :: 1 <= i <= old(size) ==> endLists[i] == []
      ensures forall i :: old(size) < i < |endLists| ==> endLists[i] == old(endLists[i])
      ensures size == 0 && eosNode == null
    {
      var i := 1;
      while i <= size
        invariant size == old(size) && eosNode == old(eosNode)
        invariant 1 <= i <= size + 1 <= |endLists|
        invariant |endLists| == |old(endLists)| && endLists[0] == old(endLists[0])
        invariant forall k :: 1 <= k < i ==> endLists[k] == []
        invariant forall k :: i <= k < |endLists| ==> endLists[k] == old(endLists[k])
        invariant Valid()
      {
        endLists := endLists[i := []];
        i := i + 1;
      }
      size := 0;
      eosNode := null;
    }

    function GetNodesWithEnd(end: int): (r: Result<seq<LatticeNode>>)
      reads this
      ensures 0 <= end < |endLists| ==> r == Ok(endLists[end])
    {
      PyIndex(endLists, end)
    }

    /** has_previous_node: some node ends at `index`. */
    function HasPreviousNode(index: int): (r: Result<bool>)
      reads this
      ensures r.Ok? <==> -|endLists| <= index < |endLists|
      ensures 0 <= index < |endLists| ==> r == Ok(endLists[index] != [])
    {
      var l :- PyIndex(endLists, index);
      Ok(|l| != 0)
    }

    /** create_node: a fresh node, never inserted. */
    method CreateNode() returns (n: LatticeNode)
      ensures fresh(n) && n.wordId == -1 && !n.hasParameter && !n.isConnectedToBos && n.extraWordInfo.None?
    {
      n := new LatticeNode();
    }

    /** insert: the node joins the list of its end position, takes the
        range, and is connected through the cheapest node ending at its
        begin (itself skipped when begin == end, since it is not yet
        connected). */
    method Insert(begin: int, end: int, node: LatticeNode) returns (r: Result<()>)
      requires Valid()
      requires 0 <= begin < |endLists| && 0 <= end < |endLists|
      requires node !in nodes && node != eosNode && node.hasParameter
      requires !node.isConnectedToBos && node.bestPreviousNode == null
      modifies this`endLists, this`nodes, node`begin, node`end
      modifies node`totalCost, node`bestPreviousNode, node`isConnectedToBos
      ensures Valid()
      ensures endLists == old(endLists)[end := old(endLists[end]) + [node]]
      ensures nodes == old(nodes) + [node]
      ensures node.begin == begin && node.end == end
      ensures var c := old(Choose(grammar, Snapshot(endLists[begin]), node.leftId, |endLists[begin]|));
              (c.Err? ==> r == Err(c.error) && !node.isConnectedToBos)
              && (c.Ok? ==> r.Ok? && Connected(node, old(endLists[begin]), c.value, old(node.bestPreviousNode)))
    {
      ghost var ls := endLists[begin];
      ghost var cs := Snapshot(ls);
      Append(begin, end, node);
      assert Snapshot(ls) == cs;
      if begin == end {
        assert Snapshot(ls + [node]) == cs + [Candidate(false, node.rightId, node.totalCost)];
        ChooseSkipsUnconnected(grammar, cs, Candidate(false, node.rightId, node.totalCost), node.leftId);
      }
      ChooseWithin(grammar, cs, node.leftId, |ls|);
      r := ConnectNode(node);
    }

    /** The first half of insert: the node listed at its end, with its range. */
    method Append(begin: int, end: int, node: LatticeNode)
      requires Valid()
      requires 0 <= begin < |endLists| && 0 <= end < |endLists|
      requires node !in nodes && node != eosNode && node.hasParameter
      requires !node.isConnectedToBos && node.bestPreviousNode == null
      modifies this`endLists, this`nodes, node`begin, node`end
      ensures Valid() && NewLast(node)
      ensures endLists == old(endLists)[end := old(endLists[end]) + [node]]
      ensures nodes == old(nodes) + [node]
      ensures node.begin == begin && node.end == end
      ensures begin != end ==> endLists[begin] == old(endLists[begin])
      ensures begin == end ==> endLists[begin] == old(endLists[begin]) + [node]
    {
      node.begin, node.end := begin, end;
      AddNode(end, node);
    }

    /** The node, already spanning its range, joins the lattice. */
    method AddNode(end: int, node: LatticeNode)
      requires Valid() && 0 <= end < |endLists| && node.end == end
      requires node !in nodes && node != eosNode && node.hasParameter
      requires !node.isConnectedToBos && node.bestPreviousNode == null
      modifies this`endLists, this`nodes
      ensures Valid() && NewLast(node)
      ensures endLists == old(endLists)[end := old(endLists[end]) + [node]]
      ensures nodes == old(nodes) + [node]
    {
      endLists := endLists[end := endLists[end] + [node]];
      nodes := nodes + [node];
      assert nodes[..|nodes| - 1] == old(nodes);
      assert forall k :: 0 < k < |nodes| - 1 ==> nodes[..k] == old(nodes)[..k];
    }

    /** The state connect_node leaves a node in once every candidate was
        looked at: the chosen node (or the old choice when none), connected
        iff there is one, and the minimum plus its own cost. */
    ghost predicate Connected(r: LatticeNode, ls: seq<LatticeNode>, best: Option<(nat, Cost)>, oldPrevious: LatticeNode?)
      reads r
    {
      (best.Some? ==> best.value.0 < |ls| && r.bestPreviousNode == ls[best.value.0])
      && (best.None? ==> r.bestPreviousNode == oldPrevious)
      && r.isConnectedToBos == (r.bestPreviousNode != null)
      && r.totalCost == AddCost(CostOf(best), r.cost)
    }

    /** connect_node: the node's best predecessor among the nodes ending at
        its begin, as Choose settles it; a failing connection read stops
        the search with the error. */
    method ConnectNode(r: LatticeNode) returns (res: Result<()>)
      requires Valid() && r.hasParameter && 0 <= r.begin < |endLists|
      requires r == eosNode || NewLast(r)
      modifies r`totalCost, r`bestPreviousNode, r`isConnectedToBos
      ensures Valid()
      ensures var c := old(Choose(grammar, Snapshot(endLists[r.begin]), r.leftId, |endLists[r.begin]|));
              (c.Err? ==> res == Err(c.error) && r.isConnectedToBos == old(r.isConnectedToBos))
              && (c.Ok? ==> res.Ok? && Connected(r, endLists[r.begin], c.value, old(r.bestPreviousNode)))
    {
      var ls := endLists[r.begin];
      var err, total, best, found := Search(ls, r.leftId, r.bestPreviousNode);
      ghost var at := if found.Some? then found.value.0 as int else -1;
      if err.Some? {
        WriteBack(r, total, best, false, at);
        return Err(err.value);
      }
      WriteBack(r, AddCost(total, r.cost), best, true, at);
      res := Ok(());
    }

    /** The loop of connect_node over the nodes ending at the node's begin:
        the running minimum and its node, as Choose defines them, or the
        first failing connection read with the minimum so far. */
    method Search(ls: seq<LatticeNode>, leftId: int, previous: LatticeNode?)
      returns (err: Option<Error>, total: Cost, best: LatticeNode?, ghost found: Option<(nat, Cost)>)
      ensures var c := Choose(grammar, Snapshot(ls), leftId, |ls|);
              (c.Err? ==> err == Some(c.error)) && (c.Ok? ==> err.None? && found == c.value)
      ensures err.None? ==> total == CostOf(found)
      ensures found.Some? ==> found.value.0 < |ls| && best == ls[found.value.0] && best.isConnectedToBos
      ensures found.None? ==> best == previous
    {
      ghost var cs := Snapshot(ls);
      best := previous;
      total := Infinity;
      found := None;
      var i := 0;
      while i < |ls|
        invariant i <= |ls|
        invariant Choose(grammar, cs, leftId, i) == Ok(found)
        invariant total == CostOf(found)
        invariant found.Some? ==> found.value.0 < |ls| && best == ls[found.value.0] && best.isConnectedToBos
        invariant found.None? ==> best == previous
      {
        var l := ls[i];
        if l.isConnectedToBos {
          var connectCost := GetConnectCost(grammar, l.rightId, leftId);
          if connectCost.Err? {
            ChooseFailsOn(grammar, cs, leftId, i + 1, |ls|);
            return Some(connectCost.error), total, best, found;
          }
          if connectCost.value != INHIBITED_CONNECTION {
            var cost := AddCost(l.totalCost, connectCost.value);
            if Less(cost, total) {
              total, best := cost, l;
              found := Some((i, cost));
            }
          }
        }
        i := i + 1;
      }
      err := None;
    }

    /** The fields connect_node leaves on `r`: the running total, the best
        predecessor, and, once the search is complete, whether there is one. */
    method WriteBack(r: LatticeNode, total: Cost, best: LatticeNode?, complete: bool, ghost at: int)
      requires Valid() && 0 <= r.begin < |endLists|
      requires r == eosNode || NewLast(r)
      requires at < 0 ==> best == r.bestPreviousNode
      requires at >= 0 ==> at < |endLists[r.begin]| && best == endLists[r.begin][at] && best.isConnectedToBos
      modifies r`totalCost, r`bestPreviousNode, r`isConnectedToBos
      ensures Valid()
      ensures r.totalCost == total && r.bestPreviousNode == best
      ensures r.isConnectedToBos == if complete then best != null else old(r.isConnectedToBos)
    {
      var connected := if complete then best != null else r.isConnectedToBos;
      if r == eosNode {
        RelinkEos(best, connected, total);
      } else {
        if at >= 0 {
          assert best in nodes;
          var i := PositionOf(nodes, best);
          assert i != |nodes| - 1 && best == nodes[..|nodes| - 1][i];
        }
        RelinkLast(r, best, connected, total);
      }
    }

    /** `r` is the node inserted last, once only, not yet connected. */
    ghost predicate NewLast(r: LatticeNode)
      reads this`nodes, r
    {
      |nodes| > 1 && r == nodes[|nodes| - 1] && r !in nodes[..|nodes| - 1]
      && !r.isConnectedToBos && r.bestPreviousNode == null
    }

    /** EOS takes `best` as its predecessor. */
    method RelinkEos(best: LatticeNode?, connected: bool, total: Cost)
      requires Valid() && eosNode != null
      requires best == eosNode.bestPreviousNode
               || (best != null && best in nodes && best.isConnectedToBos && best.end == eosNode.begin)
      requires connected ==> best != null
      modifies eosNode`bestPreviousNode, eosNode`isConnectedToBos, eosNode`totalCost
      ensures Valid() && eosNode.bestPreviousNode == best && eosNode.isConnectedToBos == connected
      ensures eosNode.totalCost == total
    {
      eosNode.bestPreviousNode, eosNode.isConnectedToBos, eosNode.totalCost := best, connected, total;
    }

    /** The node inserted last takes `best`, an earlier connected node
        ending where it begins, as its predecessor. */
    method RelinkLast(r: LatticeNode, best: LatticeNode?, connected: bool, total: Cost)
      requires Valid() && NewLast(r)
      requires best != null ==> best in nodes[..|nodes| - 1] && best.isConnectedToBos && best.end == r.begin
      requires connected ==> best != null
      modifies r`bestPreviousNode, r`isConnectedToBos, r`totalCost
      ensures Valid() && r.bestPreviousNode == best && r.isConnectedToBos == connected && r.totalCost == total
    {
      ghost var last := |nodes| - 1;
      r.bestPreviousNode, r.isConnectedToBos, r.totalCost := best, connected, total;
      forall k | 0 < k < |nodes|
        ensures (nodes[k].isConnectedToBos ==> nodes[k].bestPreviousNode != null)
                && (nodes[k].bestPreviousNode != null ==> Linked(k))
      {
        if k < last {
          var p := nodes[k].bestPreviousNode;
          if p != null {
            assert old(Linked(k));
            var i := PositionOf(nodes[..k], p);
            assert p == nodes[..last][i];
          }
        }
      }
    }

    /** get_best_path: EOS connected, then the chain of best predecessors
        from EOS back to BOS (BOS left out), in forward order. */
    method GetBestPath() returns (r: Result<seq<LatticeNode>>)
      requires Valid()
      modifies eosNode
      ensures Valid()
      ensures old(eosNode) == null ==> r.Err? && r.error.AttributeError?
      ensures r.Ok? ==> BestPath(r.value)
      ensures r.Err? && old(eosNode) != null && old(Choose(grammar, Snapshot(endLists[size]), eosNode.leftId, |endLists[size]|)).Ok? ==>
                r == Err(AttributeError("EOS is not connected to BOS"))
    {
      if eosNode == null {
        return Err(AttributeError("'NoneType' object has no attribute 'begin'"));
      }
      var eos := eosNode;
      var connected := ConnectNode(eos);
      if connected.Err? {
        return Err(connected.error);
      }
      if !eos.isConnectedToBos {
        return Err(AttributeError("EOS is not connected to BOS"));
      }
      var path := Walk(eos);
      r := Ok(Reversed(path));
    }

    /** The loop of get_best_path: from EOS along the best predecessors
        until BOS, each node collected before it is left. */
    method Walk(eos: LatticeNode) returns (result: seq<LatticeNode>)
      requires Shape() && AllLinked() && EosLinked() && bos.end == 0
      requires eos == eosNode && eos.isConnectedToBos
      ensures |result| >= 1 && result[0] == eos
      ensures result[|result| - 1].bestPreviousNode == bos && result[|result| - 1].begin == 0
      ensures forall i :: 0 < i < |result| ==> result[i] == result[i - 1].bestPreviousNode
      ensures forall i :: 0 < i < |result| ==> result[i].end == result[i - 1].begin
      ensures forall i :: 0 <= i < |result| ==> result[i] != bos
      ensures forall i :: 0 < i < |result| ==> result[i] in nodes
    {
      result := [];
      var node: LatticeNode? := eos;
      ghost var k := |nodes|;
      while node != endLists[0][0]
        invariant node != null && 0 <= k <= |nodes| && node.isConnectedToBos
        invariant k < |nodes| ==> node == nodes[k]
        invariant k == |nodes| ==> node == eos
        invariant result == [] ==> node == eos
        invariant result != [] ==> result[0] == eos && node == result[|result| - 1].bestPreviousNode
                                   && node.end == result[|result| - 1].begin
        invariant forall i :: 0 < i < |result| ==> result[i] == result[i - 1].bestPreviousNode
        invariant forall i :: 0 < i < |result| ==> result[i].end == result[i - 1].begin
        invariant forall i :: 0 <= i < |result| ==> result[i] != bos
        invariant forall i :: 0 < i < |result| ==> result[i] in nodes
        decreases k
      {
        result := result + [node];
        if k < |nodes| {
          assert 0 < k && Linked(k);
          k := PositionOf(nodes[..k], node.bestPreviousNode);
        } else {
          k := PositionOf(nodes, node.bestPreviousNode);
        }
        node := node.bestPreviousNode;
      }
    }

    /** A best path: EOS last, BOS's successor first, each node the best
        predecessor of the next, none of them BOS, and consecutive nodes
        meeting, from byte 0 to the end of the text. */
    ghost predicate BestPath(p: seq<LatticeNode>)
      reads this, set n | n in p
    {
      |p| >= 1 && p[|p| - 1] == eosNode
      && p[0].bestPreviousNode == bos && p[0].begin == 0
      && (forall i :: 0 < i < |p| ==> p[i].bestPreviousNode == p[i - 1] && p[i].begin == p[i - 1].end)
      && (forall i :: 0 <= i < |p| ==> p[i] != bos)
      && (forall i :: 0 <= i < |p| - 1 ==> p[i] in nodes)
      && p[|p| - 1].end == size
    }
  }

  /** Once a connection read fails, Choose fails with that error for every
      longer prefix. */
  lemma {:induction false} ChooseFailsOn(g: Grammar, cs: seq<Candidate>, leftId: int, k: nat, n: nat)
    requires 0 < k <= n <= |cs|
    requires Choose(g, cs, leftId, k - 1).Ok? && cs[k - 1].connected
    requires GetConnectCost(g, cs[k - 1].rightId, leftId).Err?
    ensures Choose(g, cs, leftId, n) == Err(GetConnectCost(g, cs[k - 1].rightId, leftId).error)
    decreases n
  {
    if n > k {
      ChooseFailsOn(g, cs, leftId, k, n - 1);
    }
  }

  /** A position of `x` in `s`. */
  ghost function PositionOf<T>(s: seq<T>, x: T): (k: nat)
    requires x in s
    ensures k < |s| && s[k] == x
  {
    if s[0] == x then 0 else 1 + PositionOf(s[1..], x)
  }

  /** A node with the EOS parameters over [size, size), not connected. */
  method NewEos(size: nat) returns (eos: LatticeNode)
    ensures fresh(eos) && eos.hasParameter
    ensures eos.begin == size && eos.end == size && !eos.isConnectedToBos
    ensures eos.leftId == EOS_PARAMETER[0] && eos.rightId == EOS_PARAMETER[1]
    ensures eos.cost == EOS_PARAMETER[2] && eos.bestPreviousNode == null
  {
    eos := new LatticeNode();
    eos.SetParameter(EOS_PARAMETER[0], EOS_PARAMETER[1], EOS_PARAMETER[2]);
    eos.begin, eos.end := size, size;
  }

  /** `n` empty lists. */
  function EmptyLists(n: nat): (r: seq<seq<LatticeNode>>)
    ensures |r| == n && forall i :: 0 <= i < n ==> r[i] == []
  {
    if n == 0 then [] else EmptyLists(n - 1) + [[]]
  }
}
