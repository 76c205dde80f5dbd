/** The path-rewrite plugin that joins unknown katakana words: a katakana
    node that is OOV, or one character long at a byte where an OOV word may
    begin, sets off a join of the katakana run around it into one OOV node
    of the part of speech 名詞,普通名詞,一般. */
module JoinKatakanaOovPlugins {
  import opened Wrappers
  import opened CategoryTypes
  import opened WordInfoLists
  import opened Grammars
  import opened InputTexts
  import opened LatticeNodes
  import opened PathRewritePlugins

  const OOV_POS: seq<string> := ["名詞", "普通名詞", "一般", "*", "*", "*"]

  /** The per-byte tables of the text are one entry longer than its bytes,
      as get_code_points_offset_length needs. */
  predicate WellFormed(t: UTF8InputText)
  {
    |t.byteIndexes| == |t.bytes| + 1
  }

  /** is_katakana_node: KATAKANA is among the categories common to the
      node's range. */
  function IsKatakana(t: UTF8InputText, n: LatticeNode): (r: Result<bool>)
    reads n
  {
    var types :- NodeCategoryTypes(t, n);
    Ok(KATAKANA in types)
  }

  /** is_one_char: the node ends one character after its begin. */
  function IsOneChar(t: UTF8InputText, n: LatticeNode): (r: Result<bool>)
    reads n
    requires WellFormed(t) && n.begin >= 0
  {
    var length :- CodePointsOffsetLength(t, n.begin, 1);
    Ok(n.begin + length == n.end)
  }

  /** can_oov_bow_node: the character at the node's begin does not forbid
      an OOV word to begin there. */
  function CanOovBow(t: UTF8InputText, n: LatticeNode): (r: Result<bool>)
    reads n
  {
    var types :- CharCategoryTypesAt(t, n.begin);
    Ok(NOOOVBOW !in types)
  }

  method IsKatakanaNode(t: UTF8InputText, n: LatticeNode) returns (r: Result<bool>)
    ensures r == IsKatakana(t, n)
  {
    var types :- GetCharCategoryTypes(t, n);
    r := Ok(KATAKANA in types);
  }

  method IsOneCharNode(t: UTF8InputText, n: LatticeNode) returns (r: Result<bool>)
    requires WellFormed(t) && n.begin >= 0
    ensures r == IsOneChar(t, n)
  {
    var b := n.begin;
    var length :- GetCodePointsOffsetLength(t, b, 1);
    r := Ok(b + length == n.end);
  }

  method CanOovBowNode(t: UTF8InputText, n: LatticeNode) returns (r: Result<bool>)
    ensures r == CanOovBow(t, n)
  {
    var types :- CharCategoryTypesAt(t, n.begin);
    r := Ok(NOOOVBOW !in types);
  }

  /** A node is one character long exactly when it spans the bytes of the
      character at its begin: they all belong to that character, and the
      byte after them, if any, to a later one. */
  lemma OneCharSpansOneCharacter(t: UTF8InputText, n: LatticeNode)
    requires WellFormed(t) && 0 <= n.begin <= |t.bytes|
    ensures IsOneChar(t, n).Ok?
    ensures IsOneChar(t, n).value <==>
              n.begin <= n.end <= |t.bytes|
              && (forall k :: n.begin <= k < n.end ==> t.byteIndexes[k] <= t.byteIndexes[n.begin])
              && (n.end < |t.bytes| ==> t.byteIndexes[n.end] > t.byteIndexes[n.begin])
  {
    CodePointsOffsetLengthSpans(t, n.begin, 1);
  }

  /** A node is katakana only when its whole range lies in the category
      run starting at its begin and every character of it is KATAKANA. */
  lemma KatakanaNodeInOneRun(t: UTF8InputText, n: LatticeNode)
    requires IsKatakana(t, n) == Ok(true)
    requires 0 <= n.begin < |t.continuities| && 0 <= n.begin < |t.byteIndexes| && 0 <= n.end < |t.byteIndexes|
    requires t.byteIndexes[n.begin] < t.byteIndexes[n.end] <= |t.charCategories|
    ensures n.end <= n.begin + t.continuities[n.begin]
    ensures forall c :: t.byteIndexes[n.begin] <= c < t.byteIndexes[n.end] ==> KATAKANA in t.charCategories[c]
  {
  }

  /** What the plugin learns of a node: whether it is katakana, whether an
      OOV word may begin at it, and whether it is OOV or one character
      long; it sets off a join when it is katakana and opens one. */
  datatype Kind = Kind(katakana: bool, bow: bool, opener: bool)

  predicate Triggers(d: Kind)
  {
    d.opener && d.katakana
  }

  /** The queries of the plugin answer `d` for `n`; the opening test reads
      as the source's `is_oov or (is_one_char and can_oov_bow_node)`. */
  predicate Observes(t: UTF8InputText, n: LatticeNode, d: Kind)
    reads n
    requires WellFormed(t)
  {
    IsKatakana(t, n) == Ok(d.katakana) && CanOovBow(t, n) == Ok(d.bow) && n.begin >= 0
    && IsOneChar(t, n).Ok? && d.opener == (n.isOov || (IsOneChar(t, n).value && d.bow))
  }

  /** `ks` is what the queries answer for each node of `path`. */
  predicate Observed(t: UTF8InputText, path: seq<LatticeNode>, ks: seq<Kind>)
    reads path
    requires WellFormed(t)
  {
    |ks| == |path| && forall k {:trigger Observes(t, path[k], ks[k])} :: 0 <= k < |path| ==> Observes(t, path[k], ks[k])
  }

  /** Whether the node sets off a join, asked in the source's order. */
  method TriggerOf(t: UTF8InputText, n: LatticeNode, ghost d: Kind) returns (b: bool)
    requires WellFormed(t) && Observes(t, n, d)
    ensures b == Triggers(d)
  {
    var opens := n.isOov;
    if !opens {
      var one := IsOneCharNode(t, n);
      if one.value {
        var bow := CanOovBowNode(t, n);
        opens := bow.value;
      }
    }
    if !opens {
      return false;
    }
    var k := IsKatakanaNode(t, n);
    b := k.value;
  }

  /** The start of the katakana run that ends just before `j`. */
  function RunLeft(ks: seq<Kind>, j: nat): (b: nat)
    requires j <= |ks|
    ensures b <= j && (b == 0 || !ks[b - 1].katakana) && forall k :: b <= k < j ==> ks[k].katakana
    decreases j
  {
    if j == 0 || !ks[j - 1].katakana then j else RunLeft(ks, j - 1)
  }

  /** The end of the katakana run that starts at `j`. */
  function RunRight(ks: seq<Kind>, j: nat): (e: nat)
    requires j <= |ks|
    ensures j <= e <= |ks| && (e == |ks| || !ks[e].katakana) && forall k :: j <= k < e ==> ks[k].katakana
    decreases |ks| - j
  {
    if j == |ks| || !ks[j].katakana then j else RunRight(ks, j + 1)
  }

  /** The first node of `b .. t - 1` at which an OOV word may begin, or
      `t`. */
  function FirstBow(ks: seq<Kind>, b: nat, t: nat): (r: nat)
    requires b <= t < |ks|
    ensures b <= r <= t && (r < t ==> ks[r].bow) && forall k :: b <= k < r ==> !ks[k].bow
    decreases t - b
  {
    if b == t || ks[b].bow then b else FirstBow(ks, b + 1, t)
  }

  /** The first node of `b .. e - 1` that sets off a join, or `e`. */
  function FirstTrigger(ks: seq<Kind>, b: nat, e: nat): (r: nat)
    requires b <= e <= |ks|
    ensures b <= r <= e && (r < e ==> Triggers(ks[r])) && forall k :: b <= k < r ==> !Triggers(ks[k])
    decreases e - b
  {
    if b == e || Triggers(ks[b]) then b else FirstTrigger(ks, b + 1, e)
  }

  /** Where the join set off at `t` begins: the katakana run before it,
      less its leading nodes at which no OOV word may begin, never past
      `t`. */
  function JoinBegin(ks: seq<Kind>, t: nat): nat
    requires t < |ks|
  {
    FirstBow(ks, RunLeft(ks, t), t)
  }

  /** Where the join set off at `t` ends: at the end of the katakana run
      after it. */
  function JoinEnd(ks: seq<Kind>, t: nat): nat
    requires t < |ks|
  {
    RunRight(ks, t + 1)
  }

  /** The node at `t` sets off a join of two nodes or more. */
  predicate Joins(ks: seq<Kind>, t: nat)
    requires t < |ks|
  {
    Triggers(ks[t]) && JoinEnd(ks, t) >= JoinBegin(ks, t) + 2
  }

  /** The group starting at `k`: a whole katakana run is joined from the
      first node at which an OOV word may begin (up to its first trigger)
      to the run's end, when its first trigger makes it two nodes or more;
      every other node stays alone. */
  function GroupEnd(ks: seq<Kind>, k: nat): (e: nat)
    requires k < |ks|
    ensures k < e <= |ks|
  {
    if !ks[k].katakana then k + 1
    else
      var l, r := RunLeft(ks, k), RunRight(ks, k);
      var t := FirstTrigger(ks, l, r);
      if t < r && FirstBow(ks, l, t) == k && k + 2 <= r then r else k + 1
  }

  function KatakanaEnds(ks: seq<Kind>): (g: seq<nat>)
    ensures |g| == |ks| && Ends(g)
  {
    seq(|ks|, k requires 0 <= k < |ks| => GroupEnd(ks, k))
  }

  /** The groups rewrite cuts the path into, given what it learns of each
      node. */
  function KatakanaCuts(ks: seq<Kind>): (cuts: seq<nat>)
    ensures Cuts(cuts, |ks|) && cuts[|cuts| - 1] == |ks|
  {
    Chain(KatakanaEnds(ks))
  }

  /** Inside a katakana run every node has the run's start. */
  lemma {:induction false} RunLeftWithin(ks: seq<Kind>, x: nat, j: nat)
    requires x <= j <= |ks| && forall k :: x <= k < j ==> ks[k].katakana
    ensures RunLeft(ks, j) == RunLeft(ks, x)
    decreases j - x
  {
    if x < j {
      RunLeftWithin(ks, x, j - 1);
    }
  }

  /** Inside a katakana run every node has the run's end. */
  lemma {:induction false} RunRightWithin(ks: seq<Kind>, j: nat, x: nat)
    requires j <= x <= |ks| && forall k :: j <= k < x ==> ks[k].katakana
    ensures RunRight(ks, j) == RunRight(ks, x)
    decreases x - j
  {
    if j < x {
      RunRightWithin(ks, j + 1, x);
    }
  }

  lemma RunLeftAt(ks: seq<Kind>, x: nat, j: nat)
    requires x <= j <= |ks| && (forall k :: x <= k < j ==> ks[k].katakana) && (x == 0 || !ks[x - 1].katakana)
    ensures RunLeft(ks, j) == x
  {
    RunLeftWithin(ks, x, j);
  }

  lemma RunRightAt(ks: seq<Kind>, j: nat, x: nat)
    requires j <= x <= |ks| && (forall k :: j <= k < x ==> ks[k].katakana) && (x == |ks| || !ks[x].katakana)
    ensures RunRight(ks, j) == x
  {
    RunRightWithin(ks, j, x);
  }

  lemma {:induction false} FirstBowAt(ks: seq<Kind>, b: nat, x: nat, t: nat)
    requires b <= x <= t < |ks| && (forall k :: b <= k < x ==> !ks[k].bow) && (x == t || ks[x].bow)
    ensures FirstBow(ks, b, t) == x
    decreases x - b
  {
    if b < x {
      FirstBowAt(ks, b + 1, x, t);
    }
  }

  lemma {:induction false} FirstTriggerAt(ks: seq<Kind>, b: nat, x: nat, e: nat)
    requires b <= x < e <= |ks| && (forall k :: b <= k < x ==> !Triggers(ks[k])) && Triggers(ks[x])
    ensures FirstTrigger(ks, b, e) == x
    decreases x - b
  {
    if b < x {
      FirstTriggerAt(ks, b + 1, x, e);
    }
  }

  /** A katakana run does not reach back past a node that is not
      katakana. */
  lemma {:induction false} RunLeftFloor(ks: seq<Kind>, s: nat, k: nat)
    requires s <= k < |ks| && (s == 0 || !ks[s - 1].katakana)
    ensures s <= RunLeft(ks, k)
    decreases k
  {
    if k > s && ks[k - 1].katakana {
      RunLeftFloor(ks, s, k - 1);
    }
  }

  /** A katakana run does not reach on past a node that is not
      katakana. */
  lemma {:induction false} RunRightCeiling(ks: seq<Kind>, j: nat, x: nat)
    requires j <= x < |ks| && !ks[x].katakana
    ensures RunRight(ks, j) <= x
    decreases x - j
  {
    if j < x && ks[j].katakana {
      RunRightCeiling(ks, j + 1, x);
    }
  }

  /** A group either holds one node or is the rest of a katakana run. */
  lemma GroupEndShape(ks: seq<Kind>, k: nat)
    requires k < |ks|
    ensures GroupEnd(ks, k) == k + 1 || (ks[k].katakana && GroupEnd(ks, k) == RunRight(ks, k))
  {
  }

  /** A node stays alone when no trigger of its katakana run sets off a
      join. */
  lemma SingleOf(ks: seq<Kind>, k: nat)
    requires k < |ks|
    requires ks[k].katakana ==> forall t :: RunLeft(ks, k) <= t < RunRight(ks, k) && Triggers(ks[t]) ==> !Joins(ks, t)
    ensures GroupEnd(ks, k) == k + 1
  {
    if ks[k].katakana {
      var l, r := RunLeft(ks, k), RunRight(ks, k);
      var t := FirstTrigger(ks, l, r);
      if k <= t < r {
        RunLeftWithin(ks, k, t);
        RunRightWithin(ks, k, t + 1);
        assert !Joins(ks, t);
      }
    }
  }

  /** The first trigger of a katakana run that sets off a join starts its
      group where the join begins, and the nodes of the run before that
      stay alone. */
  lemma JoinGroupAt(ks: seq<Kind>, t: nat)
    requires t < |ks| && Joins(ks, t)
    requires forall x :: RunLeft(ks, t) <= x < t ==> !Triggers(ks[x])
    ensures GroupEnd(ks, JoinBegin(ks, t)) == JoinEnd(ks, t)
    ensures forall k :: RunLeft(ks, t) <= k < JoinBegin(ks, t) ==> GroupEnd(ks, k) == k + 1
  {
    var l, b, e := RunLeft(ks, t), JoinBegin(ks, t), JoinEnd(ks, t);
    forall k | l <= k <= b
      ensures RunLeft(ks, k) == l && RunRight(ks, k) == e && FirstTrigger(ks, l, e) == t
    {
      RunLeftWithin(ks, k, t);
      RunRightWithin(ks, k, t + 1);
      FirstTriggerAt(ks, l, t, e);
    }
  }

  /** Where the scan stands: `s` starts a katakana run or follows a node
      that is not katakana. */
  predicate Boundary(ks: seq<Kind>, s: nat)
  {
    s == 0 || s >= |ks| || !ks[s - 1].katakana
  }

  /** No trigger of `s .. c - 1` sets off a join. */
  predicate NoJoinIn(ks: seq<Kind>, s: nat, c: nat)
  {
    forall t :: s <= t < c && t < |ks| && Triggers(ks[t]) ==> !Joins(ks, t)
  }

  /** Between a boundary and the end of a katakana run, with no join set
      off, every node stays alone. */
  lemma SinglesUpTo(ks: seq<Kind>, s: nat, m: nat)
    requires s <= m <= |ks| && Boundary(ks, s) && (m == |ks| || m == s || !ks[m - 1].katakana) && NoJoinIn(ks, s, m)
    ensures forall k :: s <= k < m ==> GroupEnd(ks, k) == k + 1
  {
    forall k | s <= k < m
      ensures GroupEnd(ks, k) == k + 1
    {
      if ks[k].katakana {
        RunLeftFloor(ks, s, k);
        if m < |ks| {
          RunRightCeiling(ks, k, m - 1);
        }
      }
      SingleOf(ks, k);
    }
  }

  /** A trigger that is the first to set off a join after a boundary is
      the first trigger of its katakana run. */
  lemma NoTriggerBefore(ks: seq<Kind>, s: nat, c: nat)
    requires s <= c < |ks| && Boundary(ks, s) && NoJoinIn(ks, s, c) && ks[c].katakana
    ensures s <= RunLeft(ks, c)
    ensures forall x :: RunLeft(ks, c) <= x < c ==> !Triggers(ks[x])
  {
    RunLeftFloor(ks, s, c);
    forall x | RunLeft(ks, c) <= x < c
      ensures !Triggers(ks[x])
    {
      assert ks[x + 1].katakana;
    }
  }

  /** The groups of a join begin at a katakana run, and the singles before
      it, as committed when the node at `c` sets off a join. */
  lemma GroupsAtJoin(ks: seq<Kind>, s: nat, c: nat)
    requires s <= c < |ks| && Boundary(ks, s) && NoJoinIn(ks, s, c) && Joins(ks, c)
    ensures s <= JoinBegin(ks, c) && JoinBegin(ks, c) + 2 <= JoinEnd(ks, c)
    ensures forall k :: s <= k < JoinBegin(ks, c) ==> KatakanaEnds(ks)[k] == k + 1
    ensures KatakanaEnds(ks)[JoinBegin(ks, c)] == JoinEnd(ks, c)
    ensures JoinEnd(ks, c) < |ks| ==> KatakanaEnds(ks)[JoinEnd(ks, c)] == JoinEnd(ks, c) + 1
  {
    var l := RunLeft(ks, c);
    NoTriggerBefore(ks, s, c);
    SinglesUpTo(ks, s, l);
    JoinGroupAt(ks, c);
  }

  /** The nodes `s .. m - 1` stay alone: each is committed as its own
      group, and node `m` is then at `fm` in the path. */
  lemma {:induction false} CommitSingles(o: seq<LatticeNode>, vs: seq<Result<WordInfo>>, g: seq<nat>,
                                         done: seq<nat>, s: nat, p: seq<LatticeNode>, f: nat, m: nat,
                                         oovPosId: Option<nat>, fm: nat)
    returns (done': seq<nat>)
    requires Progress(o, vs, done, s, p, f, oovPosId) && |g| == |o| && Reaches(g, done, s)
    requires s <= m <= |o| && forall k :: s <= k < m ==> g[k] == k + 1
    requires fm == f + (m - s)
    ensures Progress(o, vs, done', m, p, fm, oovPosId) && Reaches(g, done', m)
    decreases m - s
  {
    if s == m {
      done' := done;
    } else {
      CommitSingle(o, vs, g, done, s, p, f, oovPosId);
      done' := CommitSingles(o, vs, g, done + [s], s + 1, p, f + 1, m, oovPosId, fm);
    }
  }

  /** The state of rewrite before it looks at the node at `i`: the groups
      before `s` are committed along the chain of `KatakanaEnds(ks)`, the
      nodes `p[f..i]` are untouched and set off no join, and `s` is a
      boundary whose node before is still in place; once a join reached
      the end of the path, `i` is one past it. */
  predicate KScanning(t: UTF8InputText, o: seq<LatticeNode>, vs: seq<Result<WordInfo>>, ks: seq<Kind>,
                      done: seq<nat>, s: nat, p: seq<LatticeNode>, f: nat, i: nat, id: nat)
    reads o, p
    requires WellFormed(t)
  {
    Observed(t, o, ks) && Progress(o, vs, done, s, p, f, Some(id)) && Reaches(KatakanaEnds(ks), done, s)
    && f <= i <= |p| + 1 && (i == |p| + 1 ==> f == |p|) && (s == 0 ==> f == 0)
    && Boundary(ks, s) && (0 < s < |o| ==> 0 < f && p[f - 1] == o[s - 1])
    && NoJoinIn(ks, s, s + (i - f))
  }

  /** The untouched nodes of the current path, index by index. */
  lemma ProgressTail(o: seq<LatticeNode>, vs: seq<Result<WordInfo>>, done: seq<nat>, s: nat,
                     p: seq<LatticeNode>, f: nat, oovPosId: Option<nat>)
    requires Progress(o, vs, done, s, p, f, oovPosId)
    ensures forall x :: f <= x < |p| ==> s + (x - f) < |o| && p[x] == o[s + (x - f)]
  {
    forall x | f <= x < |p|
      ensures s + (x - f) < |o| && p[x] == o[s + (x - f)]
    {
      assert p[f..][x - f] == o[s..][x - f];
    }
  }

  /** The first loop of a join: back from `i - 1` over katakana nodes, to
      the start of the katakana run before the node at `i`. */
  method ExtendLeft(t: UTF8InputText, p: seq<LatticeNode>, ghost o: seq<LatticeNode>, ghost ks: seq<Kind>,
                    ghost s: nat, ghost f: nat, i: nat)
    returns (begin: nat)
    requires WellFormed(t) && Observed(t, o, ks) && f <= s && f <= i < |p| && s + (i - f) < |o|
    requires forall x :: f <= x < |p| ==> s + (x - f) < |o| && p[x] == o[s + (x - f)]
    requires s == 0 ==> f == 0
    requires s > 0 ==> 0 < f && p[f - 1] == o[s - 1] && !ks[s - 1].katakana
    ensures begin == f + (RunLeft(ks, s + (i - f)) - s) && s <= RunLeft(ks, s + (i - f))
  {
    var b: int := i - 1;
    while b >= 0
      invariant f - 1 <= b < i
      invariant forall y :: s + (b - f) < y < s + (i - f) ==> ks[y].katakana
      decreases b
    {
      var n := p[b];
      ghost var k: int := s + (b - f);
      if b == f - 1 {
        assert Observes(t, o[s - 1], ks[s - 1]);
      } else {
        assert Observes(t, o[k], ks[k]);
      }
      var kata := IsKatakanaNode(t, n);
      assert n == o[k];
      assert kata == Ok(ks[k].katakana);
      if !kata.value {
        RunLeftAt(ks, k + 1, s + (i - f));
        return b + 1;
      }
      b := b - 1;
    }
    RunLeftAt(ks, 0, s + (i - f));
    begin := 0;
  }

  /** The second loop of a join: past the leading nodes at which no OOV
      word may begin, never past `i`. */
  method SkipNoBow(t: UTF8InputText, p: seq<LatticeNode>, ghost o: seq<LatticeNode>, ghost ks: seq<Kind>,
                   ghost s: nat, ghost f: nat, i: nat, begin: nat)
    returns (b: nat)
    requires WellFormed(t) && Observed(t, o, ks) && f <= i < |p| && s + (i - f) < |o|
    requires forall x :: f <= x < |p| ==> s + (x - f) < |o| && p[x] == o[s + (x - f)]
    requires begin == f + (RunLeft(ks, s + (i - f)) - s) && s <= RunLeft(ks, s + (i - f))
    ensures b == f + (JoinBegin(ks, s + (i - f)) - s)
  {
    ghost var c := s + (i - f);
    ghost var l := RunLeft(ks, c);
    b := begin;
    while b != i
      invariant begin <= b <= i
      invariant forall y :: s + (begin - f) <= y < s + (b - f) ==> !ks[y].bow
      decreases i - b
    {
      assert Observes(t, o[s + (b - f)], ks[s + (b - f)]);
      var bow := CanOovBowNode(t, p[b]);
      if bow.value {
        FirstBowAt(ks, l, s + (b - f), c);
        return;
      }
      b := b + 1;
    }
    FirstBowAt(ks, l, c, c);
  }

  /** The third loop of a join: on from `i + 1` over katakana nodes. */
  method ExtendRight(t: UTF8InputText, p: seq<LatticeNode>, ghost o: seq<LatticeNode>, ghost ks: seq<Kind>,
                     ghost s: nat, ghost f: nat, i: nat)
    returns (end: nat)
    requires WellFormed(t) && Observed(t, o, ks) && f <= i < |p| && |p| - f == |o| - s
    requires forall x :: f <= x < |p| ==> s + (x - f) < |o| && p[x] == o[s + (x - f)]
    ensures end == f + (JoinEnd(ks, s + (i - f)) - s)
  {
    ghost var c := s + (i - f);
    end := i + 1;
    while end < |p|
      invariant i + 1 <= end <= |p|
      invariant forall y :: c + 1 <= y < s + (end - f) ==> ks[y].katakana
      decreases |p| - end
    {
      assert Observes(t, o[s + (end - f)], ks[s + (end - f)]);
      var kata := IsKatakanaNode(t, p[end]);
      if !kata.value {
        RunRightAt(ks, c + 1, s + (end - f));
        return;
      }
      end := end + 1;
    }
    RunRightAt(ks, c + 1, |o|);
  }

  /** The node at `i` sets off a join of two nodes or more over
      `p[begin..end]`: the nodes before it stay alone, the run is joined
      by concatenate_oov, the node after it, not katakana, stays alone, and
      the scan goes on after that node. */
  method CommitJoin(p: seq<LatticeNode>, ghost t: UTF8InputText, ghost o: seq<LatticeNode>,
                    ghost vs: seq<Result<WordInfo>>, ghost ks: seq<Kind>, ghost done: seq<nat>, ghost s: nat,
                    ghost f: nat, i: nat, begin: nat, end: nat, id: nat)
    returns (r: Result<seq<LatticeNode>>, ghost f': nat, i': nat, ghost done': seq<nat>, ghost s': nat)
    requires WellFormed(t) && KScanning(t, o, vs, ks, done, s, p, f, i, id) && Answers(o, vs) && i < |p|
    requires Joins(ks, s + (i - f))
    requires begin == f + (JoinBegin(ks, s + (i - f)) - s) && end == f + (JoinEnd(ks, s + (i - f)) - s)
    ensures r.Err? ==> !Joinable(vs, KatakanaCuts(ks))
    ensures r.Ok? ==> KScanning(t, o, vs, ks, done', s', r.value, f', i', id)
                      && s' + (i' - f') > s + (i - f)
  {
    ghost var c := s + (i - f);
    ghost var d1 := SinglesBeforeJoin(t, o, vs, ks, done, s, p, f, i, begin, end, id);
    r, f', i', done', s' := JoinRun(p, t, o, vs, ks, d1, c, begin, end, id);
  }

  /** The nodes before the join stay alone, and the join's group is the
      next one of the chain. */
  lemma SinglesBeforeJoin(t: UTF8InputText, o: seq<LatticeNode>, vs: seq<Result<WordInfo>>, ks: seq<Kind>,
                          done: seq<nat>, s: nat, p: seq<LatticeNode>, f: nat, i: nat, begin: nat, end: nat,
                          id: nat)
    returns (d: seq<nat>)
    requires WellFormed(t) && KScanning(t, o, vs, ks, done, s, p, f, i, id) && i < |p|
    requires Joins(ks, s + (i - f))
    requires begin == f + (JoinBegin(ks, s + (i - f)) - s) && end == f + (JoinEnd(ks, s + (i - f)) - s)
    ensures Observed(t, o, ks) && s + (i - f) < |ks| && Joins(ks, s + (i - f))
    ensures JoinBegin(ks, s + (i - f)) + (end - begin) == JoinEnd(ks, s + (i - f))
    ensures Progress(o, vs, d, JoinBegin(ks, s + (i - f)), p, begin, Some(id)) && begin < end <= |p|
    ensures Reaches(KatakanaEnds(ks), d, JoinBegin(ks, s + (i - f)))
    ensures KatakanaEnds(ks)[JoinBegin(ks, s + (i - f))] == JoinEnd(ks, s + (i - f))
  {
    var c := s + (i - f);
    var g := KatakanaEnds(ks);
    assert Observed(t, o, ks) && Progress(o, vs, done, s, p, f, Some(id)) && Reaches(g, done, s);
    assert c < |ks| && Boundary(ks, s) && NoJoinIn(ks, s, c);
    GroupsAtJoin(ks, s, c);
    var b := JoinBegin(ks, c);
    assert f + (b - s) == begin && b + (end - begin) == JoinEnd(ks, c);
    d := CommitSingles(o, vs, g, done, s, p, f, b, Some(id), begin);
  }

  /** The join itself, from the progress that reached its first node: the
      run is joined by concatenate_oov, or the rewrite fails exactly when
      the cut cannot be joined, and the scan resumes after the run. */
  method JoinRun(p: seq<LatticeNode>, ghost t: UTF8InputText, ghost o: seq<LatticeNode>,
                 ghost vs: seq<Result<WordInfo>>, ghost ks: seq<Kind>, ghost d: seq<nat>, ghost c: nat,
                 begin: nat, end: nat, id: nat)
    returns (r: Result<seq<LatticeNode>>, ghost f': nat, i': nat, ghost done': seq<nat>, ghost s': nat)
    requires WellFormed(t) && Observed(t, o, ks) && Answers(o, vs) && c < |ks| && Joins(ks, c)
    requires JoinBegin(ks, c) + (end - begin) == JoinEnd(ks, c)
    requires Progress(o, vs, d, JoinBegin(ks, c), p, begin, Some(id)) && begin < end <= |p|
    requires Reaches(KatakanaEnds(ks), d, JoinBegin(ks, c)) && KatakanaEnds(ks)[JoinBegin(ks, c)] == JoinEnd(ks, c)
    ensures r.Err? ==> !Joinable(vs, KatakanaCuts(ks))
    ensures r.Ok? ==> KScanning(t, o, vs, ks, done', s', r.value, f', i', id) && s' + (i' - f') > c
  {
    ghost var g := KatakanaEnds(ks);
    ghost var b := JoinBegin(ks, c);
    f', i', done', s' := 0, 0, [], 0;
    var p1 :- CommitGroup(p, o, vs, g, d, b, begin, end, Some(id));
    r, i' := Ok(p1), begin + 2;
    f', done', s' := ScanAfterJoin(t, o, vs, ks, d, b, p1, begin, end, id, g, c, b + (end - begin), i');
  }

  /** After the join the scan resumes past the node that follows it, which
      is not katakana and stays alone; at the end of the path it stops. */
  lemma ScanAfterJoin(t: UTF8InputText, o: seq<LatticeNode>, vs: seq<Result<WordInfo>>, ks: seq<Kind>,
                      d: seq<nat>, b: nat, p: seq<LatticeNode>, begin: nat, end: nat, id: nat, g: seq<nat>, c: nat,
                      e: nat, i': nat)
    returns (f': nat, done': seq<nat>, s': nat)
    requires WellFormed(t) && Observed(t, o, ks) && g == KatakanaEnds(ks) && begin < end
    requires c < |ks| && Joins(ks, c) && b == JoinBegin(ks, c) && e == JoinEnd(ks, c) && b + (end - begin) == e
    requires Progress(o, vs, d + [b], e, p, begin + 1, Some(id)) && Reaches(g, d + [b], e)
    requires i' == begin + 2
    ensures KScanning(t, o, vs, ks, done', s', p, f', i', id) && s' + (i' - f') > c
  {
    JoinEndFacts(ks, c, e);
    if e < |o| {
      f', done', s' := ScanPastEnd(t, o, vs, ks, d + [b], e, p, begin + 1, id, g, c, i');
    } else {
      f', done', s' := begin + 1, d + [b], e;
      ScanAtEnd(t, o, vs, ks, done', s', p, f', id, c, i');
    }
  }

  /** What the end of a join is. */
  lemma JoinEndFacts(ks: seq<Kind>, c: nat, e: nat)
    requires c < |ks| && e == JoinEnd(ks, c)
    ensures c < e <= |ks| && (e < |ks| ==> !ks[e].katakana && KatakanaEnds(ks)[e] == e + 1)
  {
  }

  /** After a join that ends before the last node, the node at its end
      stays alone. */
  lemma ScanPastEnd(t: UTF8InputText, o: seq<LatticeNode>, vs: seq<Result<WordInfo>>, ks: seq<Kind>,
                    d: seq<nat>, e: nat, p: seq<LatticeNode>, f: nat, id: nat, g: seq<nat>, c: nat, i': nat)
    returns (f': nat, done': seq<nat>, s': nat)
    requires WellFormed(t) && Observed(t, o, ks) && g == KatakanaEnds(ks)
    requires c < e < |ks| && !ks[e].katakana && g[e] == e + 1
    requires Progress(o, vs, d, e, p, f, Some(id)) && Reaches(g, d, e) && i' == f + 1
    ensures KScanning(t, o, vs, ks, done', s', p, f', i', id) && s' + (i' - f') > c
  {
    assert p[f..] == o[e..];
    assert p[f] == o[e];
    CommitSingle(o, vs, g, d, e, p, f, Some(id));
    f', done', s' := f + 1, d + [e], e + 1;
  }

  /** After a join that reaches the last node, the scan is at the end of
      the path. */
  lemma ScanAtEnd(t: UTF8InputText, o: seq<LatticeNode>, vs: seq<Result<WordInfo>>, ks: seq<Kind>,
                  d: seq<nat>, e: nat, p: seq<LatticeNode>, f: nat, id: nat, c: nat, i': nat)
    requires WellFormed(t) && Observed(t, o, ks) && c < e == |o|
    requires Progress(o, vs, d, e, p, f, Some(id)) && Reaches(KatakanaEnds(ks), d, e) && i' == f + 1
    ensures KScanning(t, o, vs, ks, d, e, p, f, i', id) && e + (i' - f) > c
  {
  }

  /** One turn of the loop of rewrite over the node at `i`, which sets off
      a join: the join's range is found and, when it holds two nodes or
      more, joined. */
  method VisitTrigger(p: seq<LatticeNode>, t: UTF8InputText, ghost o: seq<LatticeNode>,
                      ghost vs: seq<Result<WordInfo>>, ghost ks: seq<Kind>, ghost done: seq<nat>, ghost s: nat,
                      ghost f: nat, i: nat, id: nat)
    returns (r: Result<seq<LatticeNode>>, ghost f': nat, i': nat, ghost done': seq<nat>, ghost s': nat)
    requires WellFormed(t) && KScanning(t, o, vs, ks, done, s, p, f, i, id) && Answers(o, vs) && i < |p|
    requires Triggers(ks[s + (i - f)])
    ensures r.Err? ==> !Joinable(vs, KatakanaCuts(ks))
    ensures r.Ok? ==> KScanning(t, o, vs, ks, done', s', r.value, f', i', id)
                      && s' + (i' - f') > s + (i - f)
  {
    ProgressTail(o, vs, done, s, p, f, Some(id));
    var begin := ExtendLeft(t, p, o, ks, s, f, i);
    begin := SkipNoBow(t, p, o, ks, s, f, i, begin);
    var end := ExtendRight(t, p, o, ks, s, f, i);
    if end - begin > 1 {
      r, f', i', done', s' := CommitJoin(p, t, o, vs, ks, done, s, f, i, begin, end, id);
      return;
    }
    r, f', i', done', s' := Ok(p), f, i + 1, done, s;
  }

  /** A scan past the end of the path leaves the rest of it alone: the
      whole path is cut along the chain. */
  lemma ScanComplete(t: UTF8InputText, o: seq<LatticeNode>, vs: seq<Result<WordInfo>>, ks: seq<Kind>,
                     done: seq<nat>, s: nat, p: seq<LatticeNode>, f: nat, i: nat, id: nat)
    requires WellFormed(t) && KScanning(t, o, vs, ks, done, s, p, f, i, id) && i >= |p|
    ensures Tiles(o, vs, KatakanaCuts(ks), p, Some(id)) && Joinable(vs, KatakanaCuts(ks))
  {
    var g := KatakanaEnds(ks);
    SinglesUpTo(ks, s, |o|);
    var d := CommitSingles(o, vs, g, done, s, p, f, |o|, Some(id), |p|);
    ProgressComplete(o, vs, g, d, |o|, p, |p|, Some(id));
  }

  /** Every group of two nodes or more is the rest of a katakana run from
      its start on: all katakana, ending at the end of the path or before a
      node that is not katakana, holding a trigger, and starting at a node
      at which an OOV word may begin or at that trigger; the nodes of the
      run before it are neither. */
  lemma KatakanaGroupIsRun(ks: seq<Kind>, k: nat)
    requires k + 1 < |KatakanaCuts(ks)| && KatakanaCuts(ks)[k] + 2 <= KatakanaCuts(ks)[k + 1]
    ensures var b, e := KatakanaCuts(ks)[k], KatakanaCuts(ks)[k + 1];
            (forall x :: b <= x < e ==> ks[x].katakana) && (e == |ks| || !ks[e].katakana)
            && FirstTrigger(ks, b, e) < e && (ks[b].bow || Triggers(ks[b]))
            && forall x :: RunLeft(ks, b) <= x < b ==> !ks[x].bow && !Triggers(ks[x])
  {
    var g := KatakanaEnds(ks);
    ChainStep(g, k);
    var b := KatakanaCuts(ks)[k];
    var l, r := RunLeft(ks, b), RunRight(ks, b);
    var t := FirstTrigger(ks, l, r);
    assert g[b] == GroupEnd(ks, b) == r;
    FirstTriggerAt(ks, b, t, r);
  }

  /** Chaining reaches every node that no group jumps over. */
  lemma {:induction false} CutsByVisits(g: seq<nat>, s: nat, x: nat)
    requires Ends(g) && s <= x <= |g| && forall k :: s <= k < x ==> g[k] <= x
    ensures exists j :: 0 <= j < |CutsBy(g, s)| && CutsBy(g, s)[j] == x
    decreases x - s
  {
    if s == x {
      assert CutsBy(g, s)[0] == x;
    } else {
      CutsByVisits(g, g[s], x);
      var j :| 0 <= j < |CutsBy(g, g[s])| && CutsBy(g, g[s])[j] == x;
      assert CutsBy(g, s)[j + 1] == x;
    }
  }

  /** Conversely, the first trigger of every katakana run that sets off a
      join of two nodes or more gets its join: it is a group of the cut. */
  lemma FirstTriggerJoined(ks: seq<Kind>, t: nat)
    requires t < |ks| && Joins(ks, t) && forall x :: RunLeft(ks, t) <= x < t ==> !Triggers(ks[x])
    ensures exists j :: 0 <= j < |KatakanaCuts(ks)| - 1
                        && KatakanaCuts(ks)[j] == JoinBegin(ks, t) && KatakanaCuts(ks)[j + 1] == JoinEnd(ks, t)
  {
    var g := KatakanaEnds(ks);
    var b := JoinBegin(ks, t);
    JoinGroupAt(ks, t);
    NoGroupOver(ks, t);
    CutsByVisits(g, 0, b);
    var j :| 0 <= j < |Chain(g)| && Chain(g)[j] == b;
    ChainFrom(g, j);
    assert KatakanaCuts(ks) == Chain(g);
    assert KatakanaCuts(ks)[j] == b && KatakanaCuts(ks)[j + 1] == JoinEnd(ks, t);
  }

  /** No group before the join jumps over its start. */
  lemma NoGroupOver(ks: seq<Kind>, t: nat)
    requires t < |ks| && Joins(ks, t) && forall x :: RunLeft(ks, t) <= x < t ==> !Triggers(ks[x])
    ensures forall k :: 0 <= k < JoinBegin(ks, t) ==> KatakanaEnds(ks)[k] <= JoinBegin(ks, t)
  {
    var l, b := RunLeft(ks, t), JoinBegin(ks, t);
    JoinGroupAt(ks, t);
    forall k | 0 <= k < b
      ensures GroupEnd(ks, k) <= b
    {
      GroupEndShape(ks, k);
      if k < l && GroupEnd(ks, k) != k + 1 {
        RunRightCeiling(ks, k, l - 1);
      }
    }
  }

  /** A cut before the end of the nodes is followed by the end of its
      group. */
  lemma ChainFrom(g: seq<nat>, j: nat)
    requires Ends(g) && j < |Chain(g)| && Chain(g)[j] < |g|
    ensures j + 1 < |Chain(g)| && Chain(g)[j + 1] == g[Chain(g)[j]]
  {
    CutsByCuts(g, 0);
    ChainStep(g, j);
  }

  class JoinKatakanaOovPlugin {
    /** None until set_up. */
    var oovPosId: Option<nat>

    constructor()
      ensures oovPosId == None
    {
      oovPosId := None;
    }

    /** set_up: the id of the OOV part of speech, whose absence from the
        grammar raises ValueError; the part of speech is never empty and an
        index is never negative, so neither AttributeError can be raised. */
    method SetUp(grammar: Grammar) returns (r: Result<()>)
      modifies this
      ensures r.Ok? <==> OOV_POS in grammar.posList
      ensures r.Err? ==> r.error.ValueError? && oovPosId == old(oovPosId)
      ensures r.Ok? ==> oovPosId.Some? && oovPosId.value < |grammar.posList| && grammar.posList[oovPosId.value] == OOV_POS
    {
      var id :- GetPartOfSpeechId(grammar, OOV_POS);
      oovPosId := Some(id);
      r := Ok(());
    }

    /** rewrite: the path cut at the katakana joins, each join of two
        nodes or more replaced by the OOV node concatenate_oov makes of it;
        the first join whose word infos cannot be read raises. */
    method Rewrite(t: UTF8InputText, path: seq<LatticeNode>, ghost vs: seq<Result<WordInfo>>, ghost ks: seq<Kind>)
      returns (r: Result<seq<LatticeNode>>)
      requires oovPosId.Some? && WellFormed(t) && Answers(path, vs) && Observed(t, path, ks)
      ensures r.Ok? <==> Joinable(vs, KatakanaCuts(ks))
      ensures r.Ok? ==> Tiles(path, vs, KatakanaCuts(ks), r.value, oovPosId)
    {
      var id := oovPosId.value;
      ghost var o := path;
      ghost var done: seq<nat> := [];
      ghost var s: nat := 0;
      ProgressStart(o, vs, Some(id));
      var p := path;
      ghost var f: nat := 0;
      var i: nat := 0;
      while i < |p|
        invariant KScanning(t, o, vs, ks, done, s, p, f, i, id)
        decreases |o| + 1 - (s + (i - f))
      {
        ProgressTail(o, vs, done, s, p, f, Some(id));
        ghost var c := s + (i - f);
        assert Observes(t, o[c], ks[c]);
        var trigger := TriggerOf(t, p[i], ks[c]);
        if trigger {
          p, f, i, done, s :- VisitTrigger(p, t, o, vs, ks, done, s, f, i, id);
        } else {
          i := i + 1;
        }
      }
      ScanComplete(t, o, vs, ks, done, s, p, f, i, id);
      r := Ok(p);
    }
  }
}
