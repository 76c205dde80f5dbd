/** `set_bunsetu_bi_type` of `ginza/japanese_corrector.py`: three passes over
    the tokens group them into bunsetu (each token gets the index of its
    group's head), then the groups give begin/inside labels and each token a
    position type, with the first function word of each group (from the
    right) promoted to syntactic head. */
module JapaneseCorrectors {
  import opened Wrappers
  import opened Docs

  /** FUNC_POS: parts of speech of function words. */
  const FUNC_POS: set<string> := {"AUX", "ADP", "SCONJ", "CCONJ", "PART"}

  /** FUNC_DEP: dependency labels of functional relations. */
  const FUNC_DEP: set<string> :=
    {"compound", "case", "mark", "cc", "aux", "cop", "nummod", "amod", "nmod", "advmod", "dep"}

  /** Labels the backward pass attaches to a later head. */
  const BACKWARD_DEP: set<string> := {"compound", "nummod", "amod", "aux"}

  /** Parts of speech that always open a new group in the third pass. */
  const OPENING_POS: set<string> := {"VERB", "ADJ", "ADV", "INTJ"}

  /** The part-of-speech detail marking an opening bracket. */
  const OPEN_BRACKET: string := "括弧開"

  /** The label test of the forward pass. */
  predicate Functional(t: Token)
  {
    t.pos in FUNC_POS || t.dep in FUNC_DEP ||
    (t.dep == "punct" && !Contains(t.posDetail, OPEN_BRACKET))
  }

  /** The label test of the backward pass. */
  predicate BackwardFunctional(t: Token)
  {
    t.dep in BACKWARD_DEP || (t.dep == "punct" && Contains(t.posDetail, OPEN_BRACKET))
  }

  /** Every group id is a token index. */
  predicate GroupsIn(c: seq<Option<nat>>, n: nat)
  {
    forall k :: 0 <= k < |c| ==> c[k].Some? ==> c[k].value < n
  }

  // ---------------------------------------------------------------------
  // First pass: forward attachment of functional tokens to the running head

  /** The first pass from token k on, with the running `head` and the
      `continuous` list built so far. */
  function ForwardScan(doc: seq<Token>, k: nat, head: Option<nat>, c: seq<Option<nat>>): (r: seq<Option<nat>>)
    requires WellFormed(doc) && k <= |doc| && |c| == |doc|
    requires head.Some? ==> head.value < k
    ensures |r| == |doc|
    decreases |doc| - k
  {
    if k == |doc| then c
    else
      var t := doc[k];
      if head.Some? && (head.value == t.head || t.i == t.head + 1) && Functional(t) then
        var h := if head.value < t.head then t.head else head.value;
        ForwardScan(doc, k + 1, Some(h), c[h := Some(h)][k := Some(h)])
      else
        ForwardScan(doc, k + 1, Some(k), c)
  }

  /** The `continuous` list after the first pass. */
  function ForwardGroups(doc: seq<Token>): (r: seq<Option<nat>>)
    requires WellFormed(doc)
    ensures |r| == |doc|
  {
    ForwardScan(doc, 0, None, seq(|doc|, _ => None))
  }

  /** The first pass only ever points a token at itself or at an earlier
      token: the running head is always behind the token being read. */
  lemma {:induction false} ForwardScanPointsBack(doc: seq<Token>, k: nat, head: Option<nat>, c: seq<Option<nat>>)
    requires WellFormed(doc) && k <= |doc| && |c| == |doc|
    requires head.Some? ==> head.value < k
    requires forall j :: 0 <= j < |c| ==> c[j].Some? ==> c[j].value <= j
    ensures |ForwardScan(doc, k, head, c)| == |doc|
    ensures forall j :: 0 <= j < |doc| ==>
      ForwardScan(doc, k, head, c)[j].Some? ==> ForwardScan(doc, k, head, c)[j].value <= j
    decreases |doc| - k
  {
    if k < |doc| {
      var t := doc[k];
      if head.Some? && (head.value == t.head || t.i == t.head + 1) && Functional(t) {
        var h := if head.value < t.head then t.head else head.value;
        assert h < k;
        ForwardScanPointsBack(doc, k + 1, Some(h), c[h := Some(h)][k := Some(h)]);
      } else {
        ForwardScanPointsBack(doc, k + 1, Some(k), c);
      }
    }
  }

  /** The first pass, as the source runs it. */
  method ForwardPass(doc: seq<Token>) returns (c: seq<Option<nat>>)
    requires WellFormed(doc)
    ensures c == ForwardGroups(doc)
    ensures forall j :: 0 <= j < |c| ==> c[j].Some? ==> c[j].value <= j
  {
    c := seq(|doc|, _ => None);
    ForwardScanPointsBack(doc, 0, None, c);
    var head: Option<nat> := None;
    var k := 0;
    while k < |doc|
      invariant k <= |doc| && |c| == |doc|
      invariant head.Some? ==> head.value < k
      invariant ForwardScan(doc, k, head, c) == ForwardGroups(doc)
    {
      var t := doc[k];
      if head.Some? && (head.value == t.head || t.i == t.head + 1) && Functional(t) {
        var h := head.value;
        if h < t.head {
          h := t.head;
        }
        c := c[h := Some(h)];
        c := c[k := Some(h)];
        head := Some(h);
      } else {
        head := Some(k);
      }
      k := k + 1;
    }
  }

  // ---------------------------------------------------------------------
  // Second pass: backward attachment of modifiers to a later head

  /** The second pass over tokens k-1 down to 0. */
  function BackwardScan(doc: seq<Token>, k: nat, head: Option<nat>, c: seq<Option<nat>>): (r: seq<Option<nat>>)
    requires WellFormed(doc) && k <= |doc| && |c| == |doc|
    ensures |r| == |doc|
    decreases k
  {
    if k == 0 then c
    else
      var t := doc[k - 1];
      if head.Some? && c[k - 1].None? && head.value == t.head && BackwardFunctional(t) then
        BackwardScan(doc, k - 1, head, c[k - 1 := head])
      else
        BackwardScan(doc, k - 1, Some(k - 1), c)
  }

  /** The `continuous` list after the second pass. */
  function BackwardGroups(doc: seq<Token>): (r: seq<Option<nat>>)
    requires WellFormed(doc)
    ensures |r| == |doc|
  {
    BackwardScan(doc, |doc|, None, ForwardGroups(doc))
  }

  /** The second pass fills only empty entries, and each one it fills points
      at the token's own head, which lies after it. */
  lemma {:induction false} BackwardScanFills(doc: seq<Token>, k: nat, head: Option<nat>, c: seq<Option<nat>>)
    requires WellFormed(doc) && k <= |doc| && |c| == |doc|
    requires head.Some? ==> head.value >= k
    ensures |BackwardScan(doc, k, head, c)| == |doc|
    ensures forall j :: 0 <= j < |doc| ==>
      var r := BackwardScan(doc, k, head, c);
      (c[j].Some? ==> r[j] == c[j]) &&
      (r[j] != c[j] ==> j < k && r[j] == Some(doc[j].head) && doc[j].head > j)
    decreases k
  {
    if k > 0 {
      var t := doc[k - 1];
      if head.Some? && c[k - 1].None? && head.value == t.head && BackwardFunctional(t) {
        BackwardScanFills(doc, k - 1, head, c[k - 1 := head]);
      } else {
        BackwardScanFills(doc, k - 1, Some(k - 1), c);
      }
    }
  }

  /** The second pass, as the source runs it. */
  method BackwardPass(doc: seq<Token>, c0: seq<Option<nat>>) returns (c: seq<Option<nat>>)
    requires WellFormed(doc) && c0 == ForwardGroups(doc)
    ensures c == BackwardGroups(doc)
  {
    c := c0;
    var head: Option<nat> := None;
    var k: nat := |doc|;
    while k > 0
      invariant k <= |doc| && |c| == |doc|
      invariant BackwardScan(doc, k, head, c) == BackwardGroups(doc)
    {
      var t := doc[k - 1];
      if head.Some? && c[k - 1].None? && head.value == t.head && BackwardFunctional(t) {
        c := c[k - 1 := head];
      } else {
        head := Some(k - 1);
      }
      k := k - 1;
    }
  }

  // ---------------------------------------------------------------------
  // Third pass: every token still without a group gets one

  /** The third pass from token k on. */
  function FillScan(doc: seq<Token>, k: nat, head: Option<nat>, c: seq<Option<nat>>): (r: seq<Option<nat>>)
    requires WellFormed(doc) && k <= |doc| && |c| == |doc|
    ensures |r| == |doc|
    decreases |doc| - k
  {
    if k == |doc| then c
    else if c[k].None? then
      var h := if head.None? || doc[k].pos in OPENING_POS then k else head.value;
      FillScan(doc, k + 1, Some(h), c[k := Some(h)])
    else
      FillScan(doc, k + 1, None, c)
  }

  /** The `continuous` list after the third pass. */
  function FilledGroups(doc: seq<Token>): (r: seq<Option<nat>>)
    requires WellFormed(doc)
    ensures |r| == |doc|
  {
    FillScan(doc, 0, None, BackwardGroups(doc))
  }

  /** What the third pass gives token j, told apart by what the second pass
      left: an assigned token keeps its group; an unassigned one opens a new
      group (its own index) at the start, after an assigned token, or when it
      is a verb, adjective, adverb or interjection; otherwise it joins the
      group of the token before it. */
  predicate FillsAs(doc: seq<Token>, c: seq<Option<nat>>, r: seq<Option<nat>>, j: nat)
    requires |c| == |doc| == |r| && j < |doc|
  {
    r[j].Some? &&
    (c[j].Some? ==> r[j] == c[j]) &&
    (c[j].None? ==>
      if j == 0 || c[j - 1].Some? || doc[j].pos in OPENING_POS then r[j] == Some(j)
      else r[j] == r[j - 1])
  }

  lemma {:induction false} FillScanAssigns(doc: seq<Token>, k: nat, head: Option<nat>, c: seq<Option<nat>>, c0: seq<Option<nat>>)
    requires WellFormed(doc) && k <= |doc| && |c| == |doc| == |c0|
    requires forall j :: k <= j < |doc| ==> c[j] == c0[j]
    requires head == (if k == 0 || c0[k - 1].Some? then None else c[k - 1])
    requires forall j :: 0 <= j < k ==> FillsAs(doc, c0, c, j)
    ensures |FillScan(doc, k, head, c)| == |doc|
    ensures forall j :: 0 <= j < |doc| ==> FillsAs(doc, c0, FillScan(doc, k, head, c), j)
    decreases |doc| - k
  {
    if k < |doc| {
      var c' := if c[k].None? then
        c[k := Some(if head.None? || doc[k].pos in OPENING_POS then k else head.value)]
      else c;
      var head' := if c[k].None? then c'[k] else None;
      assert forall j :: 0 <= j <= k ==> FillsAs(doc, c0, c', j) by {
        forall j | 0 <= j <= k
          ensures FillsAs(doc, c0, c', j)
        {
          if j < k {
            assert FillsAs(doc, c0, c, j);
          } else if c[k].None? && !(k == 0 || c0[k - 1].Some? || doc[k].pos in OPENING_POS) {
            assert FillsAs(doc, c0, c, k - 1);
            assert c'[k] == c[k - 1] == c'[k - 1];
          }
        }
      }
      FillScanAssigns(doc, k + 1, head', c', c0);
    }
  }

  /** After the third pass every token has a group, each assigned as
      FillsAs describes, and every group id is a token index. */
  lemma FilledGroupsMeaning(doc: seq<Token>)
    requires WellFormed(doc)
    ensures |FilledGroups(doc)| == |doc|
    ensures forall j :: 0 <= j < |doc| ==> FillsAs(doc, BackwardGroups(doc), FilledGroups(doc), j)
    ensures forall j :: 0 <= j < |doc| ==> FilledGroups(doc)[j].Some? && FilledGroups(doc)[j].value < |doc|
  {
    var c0 := seq(|doc|, _ => None);
    ForwardScanPointsBack(doc, 0, None, c0);
    var c1 := ForwardGroups(doc);
    BackwardScanFills(doc, |doc|, None, c1);
    var c2 := BackwardGroups(doc);
    assert GroupsIn(c2, |doc|);
    FillScanAssigns(doc, 0, None, c2, c2);
    var c3 := FilledGroups(doc);
    forall j | 0 <= j < |doc|
      ensures c3[j].Some? && c3[j].value < |doc|
    {
      FilledIndex(doc, c2, c3, j);
    }
  }

  lemma {:induction false} FilledIndex(doc: seq<Token>, c: seq<Option<nat>>, r: seq<Option<nat>>, j: nat)
    requires |c| == |doc| == |r| && j < |doc| && GroupsIn(c, |doc|)
    requires forall i :: 0 <= i < |doc| ==> FillsAs(doc, c, r, i)
    ensures r[j].Some? && r[j].value < |doc|
  {
    assert FillsAs(doc, c, r, j);
    if c[j].None? && !(j == 0 || c[j - 1].Some? || doc[j].pos in OPENING_POS) {
      FilledIndex(doc, c, r, j - 1);
    }
  }

  /** The third pass, as the source runs it. */
  method FillPass(doc: seq<Token>, c0: seq<Option<nat>>) returns (c: seq<Option<nat>>)
    requires WellFormed(doc) && c0 == BackwardGroups(doc)
    ensures c == FilledGroups(doc)
  {
    c := c0;
    assert |c| == |doc| by {
      BackwardScanFills(doc, |doc|, None, ForwardGroups(doc));
    }
    var head: Option<nat> := None;
    var k := 0;
    while k < |doc|
      invariant k <= |doc| && |c| == |doc|
      invariant FillScan(doc, k, head, c) == FilledGroups(doc)
    {
      if c[k].None? {
        if head.None? || doc[k].pos in OPENING_POS {
          head := Some(k);
        }
        c := c[k := head];
      } else {
        head := None;
      }
      k := k + 1;
    }
  }

  /** The group of every token, once all three passes have run. */
  function Groups(doc: seq<Token>): (g: seq<nat>)
    requires WellFormed(doc)
    ensures |g| == |doc|
    ensures forall j :: 0 <= j < |doc| ==> g[j] < |doc| && FilledGroups(doc)[j] == Some(g[j])
  {
    FilledGroupsMeaning(doc);
    var c := FilledGroups(doc);
    var g: seq<nat> := seq(|doc|, j requires 0 <= j < |doc| => c[j].value);
    g
  }

  // ---------------------------------------------------------------------
  // Labels and position types

  /** `bunsetu_bi_label`: B for the first token, then I exactly where a
      token is in the same group as the one before it. */
  function BiLabels(g: seq<nat>): (r: seq<BI>)
    requires |g| > 0
    ensures |r| == |g| && r[0] == B
    ensures forall j :: 0 < j < |g| ==> (r[j] == I <==> g[j - 1] == g[j])
  {
    [B] + seq(|g| - 1, j requires 0 <= j < |g| - 1 => if g[j] == g[j + 1] then I else B)
  }

  /** The position type of one token given its group, before promotion. */
  function PositionOf(t: Token, g: nat): (r: PositionType)
  {
    if t.i == t.head then ROOT
    else if t.i == g then (if t.dep == "punct" then NO_HEAD else SEM_HEAD)
    else if t.i > g && t.pos in FUNC_POS then FUNC
    else CONT
  }

  function PositionTypes(doc: seq<Token>, g: seq<nat>): (p: seq<PositionType>)
    requires |g| == |doc|
    ensures |p| == |doc|
    ensures forall j :: 0 <= j < |doc| ==> p[j] == PositionOf(doc[j], g[j])
  {
    seq(|doc|, j requires 0 <= j < |doc| => PositionOf(doc[j], g[j]))
  }

  /** The first FUNC position at or after k. */
  function FirstFuncFrom(p: seq<PositionType>, k: nat): (r: Option<nat>)
    decreases |p| - k
    ensures r.Some? ==> k <= r.value < |p| && p[r.value] == FUNC
    ensures r.Some? ==> forall j :: k <= j < r.value ==> p[j] != FUNC
    ensures r.None? ==> forall j :: k <= j < |p| ==> p[j] != FUNC
  {
    if k >= |p| then None
    else if p[k] == FUNC then Some(k)
    else FirstFuncFrom(p, k + 1)
  }

  /** A FUNC token is promoted to SYN_HEAD when no FUNC token follows it or
      the next FUNC token belongs to another group. */
  predicate Promoted(p: seq<PositionType>, g: seq<nat>, j: nat)
    requires |g| == |p| && j < |p|
  {
    p[j] == FUNC &&
    (FirstFuncFrom(p, j + 1).None? || g[FirstFuncFrom(p, j + 1).value] != g[j])
  }

  function SynHeads(p: seq<PositionType>, g: seq<nat>): (r: seq<PositionType>)
    requires |g| == |p|
    ensures |r| == |p|
    ensures forall j :: 0 <= j < |p| ==> r[j] == if Promoted(p, g, j) then SYN_HEAD else p[j]
  {
    seq(|p|, j requires 0 <= j < |p| => if Promoted(p, g, j) then SYN_HEAD else p[j])
  }

  /** The right-to-left promotion loop: `prev_c` is always the group of the
      nearest FUNC token already passed, so the loop promotes exactly the
      tokens SynHeads names. */
  method PromoteSynHeads(p: seq<PositionType>, g: seq<nat>) returns (r: seq<PositionType>)
    requires |g| == |p|
    ensures r == SynHeads(p, g)
  {
    r := p;
    var prev: Option<nat> := None;
    var k: nat := |p|;
    while k > 0
      invariant k <= |p| && |r| == |p|
      invariant prev == (if FirstFuncFrom(p, k).Some? then Some(g[FirstFuncFrom(p, k).value]) else None)
      invariant forall j :: 0 <= j < k ==> r[j] == p[j]
      invariant forall j :: k <= j < |p| ==> r[j] == if Promoted(p, g, j) then SYN_HEAD else p[j]
    {
      var j := k - 1;
      if p[j] == FUNC {
        if prev.None? || prev.value != g[j] {
          r := r[j := SYN_HEAD];
          prev := Some(g[j]);
        }
      }
      k := j;
    }
  }

  /** `set_bunsetu_bi_type(doc)`: an empty document gets `clauses = []` and
      nothing else; otherwise the BI labels and the position types of the
      grouped tokens are stored. */
  method SetBunsetuBiType(doc: Doc)
    requires WellFormed(doc.tokens)
    modifies doc
    ensures doc.tokens == old(doc.tokens)
    ensures doc.bunsetuHeads == old(doc.bunsetuHeads) && doc.bunsetuBiLabels == old(doc.bunsetuBiLabels)
    ensures |doc.tokens| == 0 ==>
      doc.clauses == Some([]) && doc.bunsetuBiLabel == old(doc.bunsetuBiLabel) &&
      doc.bunsetuPositionType == old(doc.bunsetuPositionType)
    ensures |doc.tokens| > 0 ==>
      doc.clauses == old(doc.clauses) &&
      doc.bunsetuBiLabel == Some(BiLabels(Groups(doc.tokens))) &&
      doc.bunsetuPositionType ==
        Some(SynHeads(PositionTypes(doc.tokens, Groups(doc.tokens)), Groups(doc.tokens)))
  {
    var tokens := doc.tokens;
    if |tokens| == 0 {
      doc.clauses := Some([]);
      return;
    }
    var c1 := ForwardPass(tokens);
    var c2 := BackwardPass(tokens, c1);
    var c3 := FillPass(tokens, c2);
    var g := Groups(tokens);
    assert forall j :: 0 <= j < |tokens| ==> c3[j] == Some(g[j]);
    doc.bunsetuBiLabel := Some(BiLabels(g));
    var p := PositionTypes(tokens, g);
    var r := PromoteSynHeads(p, g);
    doc.bunsetuPositionType := Some(r);
  }
}
