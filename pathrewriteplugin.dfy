/** What the path-rewrite plugins share: the splice that replaces a range of
    the best path by one new node whose word info joins those of the range,
    and the description of a rewritten path as the old one cut into groups,
    each group of two nodes or more joined into one node. */
module PathRewritePlugins {
  import opened Wrappers
  import opened CategoryTypes
  import opened WordInfoLists
  import opened InputTexts
  import opened LatticeNodes

  /** The four text forms concatenate joins. */
  datatype Form = Surface | Normalized | Dictionary | Reading

  function FormOf(w: WordInfo, f: Form): string
  {
    match f
    case Surface => w.surface
    case Normalized => w.normalizedForm
    case Dictionary => w.dictionaryForm
    case Reading => w.readingForm
  }

  /** Every word info of `vs[b..e]` was read without error. */
  predicate AllOk(vs: seq<Result<WordInfo>>, b: nat, e: nat)
    requires b <= e <= |vs|
  {
    forall k :: b <= k < e ==> vs[k].Ok?
  }

  /** The error of the first word info of `vs[b..e]` that failed. */
  function FirstErrorIn(vs: seq<Result<WordInfo>>, b: nat, e: nat): (r: Option<Error>)
    requires b <= e <= |vs|
    ensures r.None? <==> AllOk(vs, b, e)
    decreases e
  {
    if e == b then None
    else
      var before := FirstErrorIn(vs, b, e - 1);
      if before.Some? then before
      else if vs[e - 1].Err? then Some(vs[e - 1].error)
      else None
  }

  /** The form `f` of the word infos `vs[b..e]`, concatenated in order. */
  function ConcatIn(vs: seq<Result<WordInfo>>, b: nat, e: nat, f: Form): string
    requires b <= e <= |vs| && AllOk(vs, b, e)
    decreases e
  {
    if e == b then "" else ConcatIn(vs, b, e - 1, f) + FormOf(vs[e - 1].value, f)
  }

  /** The head word lengths of `vs[b..e]`, summed. */
  function LengthIn(vs: seq<Result<WordInfo>>, b: nat, e: nat): nat
    requires b <= e <= |vs| && AllOk(vs, b, e)
    decreases e
  {
    if e == b then 0 else LengthIn(vs, b, e - 1) + vs[e - 1].value.headWordLength
  }

  /** Concatenation distributes over the split of a range in two. */
  lemma {:induction false} ConcatInSplit(vs: seq<Result<WordInfo>>, b: nat, m: nat, e: nat, f: Form)
    requires b <= m <= e <= |vs| && AllOk(vs, b, e)
    ensures ConcatIn(vs, b, e, f) == ConcatIn(vs, b, m, f) + ConcatIn(vs, m, e, f)
    decreases e
  {
    if e > m {
      ConcatInSplit(vs, b, m, e - 1, f);
    }
  }

  lemma {:induction false} LengthInSplit(vs: seq<Result<WordInfo>>, b: nat, m: nat, e: nat)
    requires b <= m <= e <= |vs| && AllOk(vs, b, e)
    ensures LengthIn(vs, b, e) == LengthIn(vs, b, m) + LengthIn(vs, m, e)
    decreases e
  {
    if e > m {
      LengthInSplit(vs, b, m, e - 1);
    }
  }

  /** The word info concatenate builds for `vs[b..e]`: the forms joined in
      order, the head lengths summed, the first word's part of speech, no
      dictionary-form word and no splits; concatenate_oov (`oovPosId` not
      None) makes the joined surface also the normalized and dictionary
      form, leaves the reading empty and takes the given part of speech. */
  function JoinedAt(vs: seq<Result<WordInfo>>, b: nat, e: nat, oovPosId: Option<nat>): (r: WordInfo)
    requires b < e <= |vs| && AllOk(vs, b, e)
  {
    if oovPosId.None? then
      WordInfo(ConcatIn(vs, b, e, Surface), LengthIn(vs, b, e), vs[b].value.posId, ConcatIn(vs, b, e, Normalized),
               -1, ConcatIn(vs, b, e, Dictionary), ConcatIn(vs, b, e, Reading), [], [], [])
    else OovWordInfo(ConcatIn(vs, b, e, Surface), LengthIn(vs, b, e), oovPosId.value)
  }

  /** get_char_category_types of a node: the categories common to its
      bytes. */
  function NodeCategoryTypes(t: UTF8InputText, n: LatticeNode): (r: Result<set<CategoryType>>)
    reads n
  {
    CharCategoryTypesOver(t, n.begin, n.end)
  }

  const EMPTY_RANGE: Error := IndexError("begin >= end")

  /** `vs` is what the nodes of `path` answer get_word_info with. */
  predicate Answers(path: seq<LatticeNode>, vs: seq<Result<WordInfo>>)
    reads path
  {
    AnswersIn(path, vs, 0, |path|)
  }

  /** `vs` is what the nodes `path[b..e]` answer get_word_info with. */
  predicate AnswersIn(path: seq<LatticeNode>, vs: seq<Result<WordInfo>>, b: nat, e: nat)
    reads path
  {
    |vs| == |path| && b <= e <= |path| && forall k {:trigger Says(path[k], vs[k])} :: b <= k < e ==> Says(path[k], vs[k])
  }

  /** `n` answers get_word_info with `v`. */
  predicate Says(n: LatticeNode, v: Result<WordInfo>)
    reads n
  {
    n.WordInfo() == v
  }

  /** `n` is the node joining `o[b..e]`, whose word infos are `vs[b..e]`:
      it spans from the first node's begin to the last node's end and
      carries the joined word info as its own, that of concatenate when
      `oovPosId` is None, that of concatenate_oov with the given part of
      speech otherwise. */
  predicate JoinOf(o: seq<LatticeNode>, vs: seq<Result<WordInfo>>, b: nat, e: nat, n: LatticeNode,
                   oovPosId: Option<nat>)
    reads o, n
    requires b < e <= |o| && |vs| == |o|
  {
    AllOk(vs, b, e) && n.begin == o[b].begin && n.end == o[e - 1].end && n.isOov == oovPosId.Some?
    && n.wordId == -1 && n.extraWordInfo == Some(JoinedAt(vs, b, e, oovPosId))
  }

  /** get_word_info of the node at `i`. */
  method ReadInfo(path: seq<LatticeNode>, ghost vs: seq<Result<WordInfo>>, i: nat) returns (r: Result<WordInfo>)
    requires AnswersIn(path, vs, i, i + 1)
    ensures r == vs[i]
  {
    assert Says(path[i], vs[i]);
    r := path[i].GetWordInfo();
  }

  /** The node concatenate creates: a new node over [b, e) that carries
      `info`, marked OOV for concatenate_oov. */
  method NewJoinedNode(b: int, e: int, info: WordInfo, oov: bool) returns (n: LatticeNode)
    ensures fresh(n) && n.begin == b && n.end == e && n.isOov == oov
    ensures n.wordId == -1 && n.extraWordInfo == Some(info)
  {
    n := new LatticeNode();
    n.SetRange(b, e);
    n.SetWordInfo(info);
    if oov {
      n.SetOov();
    }
  }

  /** The loop of concatenate: the word infos of `path[begin..end]` read in
      order, their forms and head lengths joined; the first error stops it. */
  method JoinInfos(path: seq<LatticeNode>, ghost vs: seq<Result<WordInfo>>, begin: nat, end: nat,
                   oovPosId: Option<nat>)
    returns (r: Result<WordInfo>)
    requires begin < end && AnswersIn(path, vs, begin, end)
    ensures r.Ok? <==> AllOk(vs, begin, end)
    ensures r.Err? ==> r.error == FirstErrorIn(vs, begin, end).value
    ensures r.Ok? ==> r.value == JoinedAt(vs, begin, end, oovPosId)
  {
    var surface, normalized, dictionary, reading := "", "", "", "";
    var length := 0;
    var i := begin;
    while i < end
      invariant begin <= i <= end && AllOk(vs, begin, i)
      invariant surface == ConcatIn(vs, begin, i, Surface) && normalized == ConcatIn(vs, begin, i, Normalized)
      invariant dictionary == ConcatIn(vs, begin, i, Dictionary) && reading == ConcatIn(vs, begin, i, Reading)
      invariant length == LengthIn(vs, begin, i)
    {
      assert Says(path[i], vs[i]);
      var info := ReadInfo(path, vs, i);
      if info.Err? {
        FirstErrorAt(vs, begin, i, end);
        return Err(info.error);
      }
      surface := surface + info.value.surface;
      normalized := normalized + info.value.normalizedForm;
      dictionary := dictionary + info.value.dictionaryForm;
      reading := reading + info.value.readingForm;
      length := length + info.value.headWordLength;
      i := i + 1;
    }
    if oovPosId.None? {
      assert Says(path[begin], vs[begin]);
      var first := ReadInfo(path, vs, begin);
      r := Ok(WordInfo(surface, length, first.value.posId, normalized, -1, dictionary, reading, [], [], []));
    } else {
      r := Ok(OovWordInfo(surface, length, oovPosId.value));
    }
  }

  /** concatenate (with `oovPosId` None) and concatenate_oov: IndexError for
      an empty range; the first error reading a word info of the range;
      otherwise a new node joining the range, which replaces the range in
      the path.  No other node changes. */
  method Concatenate(path: seq<LatticeNode>, ghost vs: seq<Result<WordInfo>>, begin: nat, end: nat,
                     oovPosId: Option<nat>)
    returns (r: Result<LatticeNode>, spliced: seq<LatticeNode>)
    requires end <= |path| && (begin < end ==> AnswersIn(path, vs, begin, end))
    ensures begin >= end ==> r == Err(EMPTY_RANGE)
    ensures begin < end ==> (r.Ok? <==> AllOk(vs, begin, end))
    ensures begin < end && r.Err? ==> r == Err(FirstErrorIn(vs, begin, end).value)
    ensures r.Err? ==> spliced == path
    ensures r.Ok? ==> fresh(r.value) && begin < end && spliced == path[..begin] + [r.value] + path[end..]
                      && JoinOf(path, vs, begin, end, r.value, oovPosId)
  {
    if begin >= end {
      return Err(EMPTY_RANGE), path;
    }
    var b := path[begin].begin;
    var e := path[end - 1].end;
    var info := JoinInfos(path, vs, begin, end, oovPosId);
    if info.Err? {
      return Err(info.error), path;
    }
    var node := NewJoinedNode(b, e, info.value, oovPosId.Some?);
    r, spliced := Ok(node), path[..begin] + [node] + path[end..];
  }

  /** When `vs[b..i]` read without error and `vs[i]` did not, the first
      error of any longer range is that of `vs[i]`. */
  lemma {:induction false} FirstErrorAt(vs: seq<Result<WordInfo>>, b: nat, i: nat, e: nat)
    requires b <= i < e <= |vs| && AllOk(vs, b, i) && vs[i].Err?
    ensures FirstErrorIn(vs, b, e) == Some(vs[i].error)
    decreases e
  {
    if e > i + 1 {
      FirstErrorAt(vs, b, i, e - 1);
    } else {
      assert FirstErrorIn(vs, b, i).None?;
    }
  }

  /** The word info the group `b .. e` answers with after the rewrite: the
      node's own when it stays alone, the joined one otherwise. */
  function PieceInfo(vs: seq<Result<WordInfo>>, b: nat, e: nat, oovPosId: Option<nat>): (r: Result<WordInfo>)
    requires b < e <= |vs|
  {
    if e == b + 1 then vs[b]
    else if AllOk(vs, b, e) then Ok(JoinedAt(vs, b, e, oovPosId))
    else Err(FirstErrorIn(vs, b, e).value)
  }

  /** `cuts` splits the first `cuts[|cuts| - 1]` of `n` nodes into
      consecutive groups, none empty. */
  predicate Cuts(cuts: seq<nat>, n: nat)
  {
    |cuts| >= 1 && cuts[0] == 0 && (forall k :: 0 <= k < |cuts| ==> cuts[k] <= n)
    && forall i, j :: 0 <= i < j < |cuts| ==> cuts[i] < cuts[j]
  }

  /** The word infos of the rewritten path, group by group. */
  function RewrittenInfos(vs: seq<Result<WordInfo>>, cuts: seq<nat>, oovPosId: Option<nat>): (r: seq<Result<WordInfo>>)
    requires Cuts(cuts, |vs|)
    ensures |r| == |cuts| - 1
    ensures forall k :: 0 <= k < |r| ==> r[k] == PieceInfo(vs, cuts[k], cuts[k + 1], oovPosId)
  {
    seq(|cuts| - 1, k requires 0 <= k < |cuts| - 1 => PieceInfo(vs, cuts[k], cuts[k + 1], oovPosId))
  }

  /** One group of a rewritten path: the node kept as it was, or the node
      joining two nodes or more. */
  predicate Piece(o: seq<LatticeNode>, vs: seq<Result<WordInfo>>, b: nat, e: nat, n: LatticeNode,
                  oovPosId: Option<nat>)
    reads o, n
    requires b < e <= |o| && |vs| == |o|
  {
    if e == b + 1 then n == o[b] else JoinOf(o, vs, b, e, n, oovPosId)
  }

  /** `p` is the first `cuts[|p|]` nodes of `o` cut at `cuts`, each group
      replaced by its piece. */
  predicate Tiles(o: seq<LatticeNode>, vs: seq<Result<WordInfo>>, cuts: seq<nat>, p: seq<LatticeNode>,
                  oovPosId: Option<nat>)
    reads o, p
  {
    |vs| == |o| && |cuts| == |p| + 1 && Cuts(cuts, |o|)
    && forall k {:trigger Piece(o, vs, cuts[k], cuts[k + 1], p[k], oovPosId)} :: 0 <= k < |p| ==> Piece(o, vs, cuts[k], cuts[k + 1], p[k], oovPosId)
  }

  lemma TilesStart(o: seq<LatticeNode>, vs: seq<Result<WordInfo>>, oovPosId: Option<nat>)
    requires |vs| == |o|
    ensures Tiles(o, vs, [0], [], oovPosId)
  {
  }

  /** One more group extends a tiling. */
  lemma TilesExtend(o: seq<LatticeNode>, vs: seq<Result<WordInfo>>, cuts: seq<nat>, p: seq<LatticeNode>,
                    e: nat, n: LatticeNode, oovPosId: Option<nat>)
    requires Tiles(o, vs, cuts, p, oovPosId)
    requires cuts[|p|] < e <= |o| && Piece(o, vs, cuts[|p|], e, n, oovPosId)
    ensures Tiles(o, vs, cuts + [e], p + [n], oovPosId)
  {
    var cuts', p' := cuts + [e], p + [n];
    assert forall k :: 0 <= k < |cuts| ==> cuts'[k] == cuts[k];
    assert forall k :: 0 <= k < |p| ==> p'[k] == p[k];
  }

  /** Every group of two nodes or more can be joined: its word infos read
      without error. */
  predicate Joinable(vs: seq<Result<WordInfo>>, cuts: seq<nat>)
    requires Cuts(cuts, |vs|)
  {
    forall k :: 0 <= k < |cuts| - 1 && cuts[k] + 2 <= cuts[k + 1] ==> AllOk(vs, cuts[k], cuts[k + 1])
  }

  /** A tiling joined every group it covers. */
  lemma TilesJoinable(o: seq<LatticeNode>, vs: seq<Result<WordInfo>>, cuts: seq<nat>, p: seq<LatticeNode>,
                      oovPosId: Option<nat>)
    requires Tiles(o, vs, cuts, p, oovPosId)
    ensures Joinable(vs, cuts)
  {
    forall k | 0 <= k < |cuts| - 1 && cuts[k] + 2 <= cuts[k + 1]
      ensures AllOk(vs, cuts[k], cuts[k + 1])
    {
      assert Piece(o, vs, cuts[k], cuts[k + 1], p[k], oovPosId);
    }
  }

  /** The nodes of a tiling answer get_word_info with the rewritten infos. */
  lemma TilesAnswer(o: seq<LatticeNode>, vs: seq<Result<WordInfo>>, cuts: seq<nat>, p: seq<LatticeNode>,
                    oovPosId: Option<nat>)
    requires Tiles(o, vs, cuts, p, oovPosId) && Answers(o, vs)
    ensures Answers(p, RewrittenInfos(vs, cuts, oovPosId))
  {
    var ws := RewrittenInfos(vs, cuts, oovPosId);
    forall k | 0 <= k < |p|
      ensures Says(p[k], ws[k])
    {
      var b, e := cuts[k], cuts[k + 1];
      assert Piece(o, vs, b, e, p[k], oovPosId);
      if e == b + 1 {
        assert Says(o[b], vs[b]);
      }
    }
  }

  /** The nodes follow each other without gap: each ends where the next
      begins. */
  predicate Contiguous(p: seq<LatticeNode>)
    reads p
  {
    forall k {:trigger p[k].end} :: 0 <= k < |p| - 1 ==> p[k].end == p[k + 1].begin
  }

  /** A rewrite keeps the best path a tiling of the same bytes: the new path
      is as contiguous as the old one, and begins and ends where it did. */
  lemma TilesKeepSpan(o: seq<LatticeNode>, vs: seq<Result<WordInfo>>, cuts: seq<nat>, p: seq<LatticeNode>,
                      oovPosId: Option<nat>)
    requires Tiles(o, vs, cuts, p, oovPosId) && cuts[|p|] == |o| && Contiguous(o)
    ensures Contiguous(p)
    ensures |p| == 0 <==> |o| == 0
    ensures |p| > 0 ==> p[0].begin == o[0].begin && p[|p| - 1].end == o[|o| - 1].end
  {
    forall k | 0 <= k < |p|
      ensures p[k].begin == o[cuts[k]].begin && p[k].end == o[cuts[k + 1] - 1].end
    {
      PieceSpan(o, vs, cuts[k], cuts[k + 1], p[k], oovPosId);
    }
    forall k | 0 <= k < |p| - 1
      ensures p[k].end == p[k + 1].begin
    {
      var c := cuts[k + 1];
      assert c < cuts[k + 2] <= |o|;
      assert o[c - 1].end == o[c].begin;
    }
  }

  /** A piece spans its group. */
  lemma PieceSpan(o: seq<LatticeNode>, vs: seq<Result<WordInfo>>, b: nat, e: nat, n: LatticeNode,
                  oovPosId: Option<nat>)
    requires b < e <= |o| && |vs| == |o| && Piece(o, vs, b, e, n, oovPosId)
    ensures n.begin == o[b].begin && n.end == o[e - 1].end
  {
  }

  /** A rewrite keeps the text: the surfaces of the first `m` groups of the
      rewritten path, concatenated, are those of the nodes they cover. */
  lemma {:induction false} RewriteKeepsText(vs: seq<Result<WordInfo>>, cuts: seq<nat>, oovPosId: Option<nat>, m: nat)
    requires Cuts(cuts, |vs|) && m < |cuts| && AllOk(vs, 0, cuts[m])
    ensures AllOk(RewrittenInfos(vs, cuts, oovPosId), 0, m)
    ensures ConcatIn(RewrittenInfos(vs, cuts, oovPosId), 0, m, Surface) == ConcatIn(vs, 0, cuts[m], Surface)
    decreases m
  {
    if m > 0 {
      var rs := RewrittenInfos(vs, cuts, oovPosId);
      var b, e := cuts[m - 1], cuts[m];
      RewriteKeepsText(vs, cuts, oovPosId, m - 1);
      ConcatInSplit(vs, 0, b, e, Surface);
      PieceSurface(vs, b, e, oovPosId);
      assert rs[m - 1] == PieceInfo(vs, b, e, oovPosId);
      assert ConcatIn(rs, 0, m, Surface) == ConcatIn(rs, 0, m - 1, Surface) + rs[m - 1].value.surface;
    }
  }

  /** The surface of a group's piece is that of the group. */
  lemma PieceSurface(vs: seq<Result<WordInfo>>, b: nat, e: nat, oovPosId: Option<nat>)
    requires b < e <= |vs| && AllOk(vs, b, e)
    ensures PieceInfo(vs, b, e, oovPosId).Ok?
    ensures PieceInfo(vs, b, e, oovPosId).value.surface == ConcatIn(vs, b, e, Surface)
  {
    if e == b + 1 {
      assert ConcatIn(vs, b, b, Surface) == "";
    }
  }

  /** Reading the word infos from an offset `d` on shifts every range. */
  lemma {:induction false} ConcatInShift(vs: seq<Result<WordInfo>>, d: nat, b: nat, e: nat, f: Form)
    requires b <= e && d + e <= |vs| && AllOk(vs[d..], b, e)
    ensures AllOk(vs, b + d, e + d) && ConcatIn(vs[d..], b, e, f) == ConcatIn(vs, b + d, e + d, f)
    decreases e
  {
    assert forall k :: b + d <= k < e + d ==> vs[k] == vs[d..][k - d];
    if e > b {
      ConcatInShift(vs, d, b, e - 1, f);
    }
  }

  lemma {:induction false} LengthInShift(vs: seq<Result<WordInfo>>, d: nat, b: nat, e: nat)
    requires b <= e && d + e <= |vs| && AllOk(vs[d..], b, e)
    ensures AllOk(vs, b + d, e + d) && LengthIn(vs[d..], b, e) == LengthIn(vs, b + d, e + d)
    decreases e
  {
    assert forall k :: b + d <= k < e + d ==> vs[k] == vs[d..][k - d];
    if e > b {
      LengthInShift(vs, d, b, e - 1);
    }
  }

  lemma JoinedAtShift(vs: seq<Result<WordInfo>>, d: nat, b: nat, e: nat, oovPosId: Option<nat>)
    requires b < e && d + e <= |vs| && AllOk(vs[d..], b, e)
    ensures AllOk(vs, b + d, e + d) && JoinedAt(vs[d..], b, e, oovPosId) == JoinedAt(vs, b + d, e + d, oovPosId)
  {
    ConcatInShift(vs, d, b, e, Surface);
    ConcatInShift(vs, d, b, e, Normalized);
    ConcatInShift(vs, d, b, e, Dictionary);
    ConcatInShift(vs, d, b, e, Reading);
    LengthInShift(vs, d, b, e);
  }

  /** A choice of groups given position by position: the group starting at
      `k` ends before `g[k]`. */
  predicate Ends(g: seq<nat>)
  {
    forall k :: 0 <= k < |g| ==> k < g[k] <= |g|
  }

  /** The cuts of the groups chained from `s` on: each group starts where
      the previous one ended. */
  function CutsBy(g: seq<nat>, s: nat): (r: seq<nat>)
    requires Ends(g) && s <= |g|
    ensures |r| >= 1 && r[0] == s
    decreases |g| - s
  {
    if s == |g| then [s] else [s] + CutsBy(g, g[s])
  }

  /** The chained cuts cut all the nodes. */
  lemma {:induction false} CutsByCuts(g: seq<nat>, s: nat)
    requires Ends(g) && s <= |g|
    ensures var r := CutsBy(g, s);
            r[|r| - 1] == |g| && (forall k :: 0 <= k < |r| ==> s <= r[k] <= |g|)
            && forall i, j :: 0 <= i < j < |r| ==> r[i] < r[j]
    decreases |g| - s
  {
    if s < |g| {
      CutsByCuts(g, g[s]);
      var r, r' := CutsBy(g, s), CutsBy(g, g[s]);
      assert forall k :: 1 <= k < |r| ==> r[k] == r'[k - 1];
    }
  }

  /** The progress of a rewrite through the path `o`: the nodes `vs`
      answers for, cut at `done + [s]`, were replaced by the first `f` nodes
      of the current path `p`, which goes on with `o[s..]` untouched. */
  predicate Progress(o: seq<LatticeNode>, vs: seq<Result<WordInfo>>, done: seq<nat>, s: nat,
                     p: seq<LatticeNode>, f: nat, oovPosId: Option<nat>)
    reads o, p
  {
    |done| == f && f <= |p| && f <= s <= |o| && |p| - f == |o| - s
    && Tiles(o, vs, done + [s], p[..f], oovPosId) && p[f..] == o[s..]
  }

  lemma ProgressStart(o: seq<LatticeNode>, vs: seq<Result<WordInfo>>, oovPosId: Option<nat>)
    requires |vs| == |o|
    ensures Progress(o, vs, [], 0, o, 0, oovPosId)
  {
    assert o[..0] == [];
  }

  /** The next node stays as it is. */
  lemma ProgressSingle(o: seq<LatticeNode>, vs: seq<Result<WordInfo>>, done: seq<nat>, s: nat,
                       p: seq<LatticeNode>, f: nat, oovPosId: Option<nat>)
    requires Progress(o, vs, done, s, p, f, oovPosId) && f < |p|
    ensures Progress(o, vs, done + [s], s + 1, p, f + 1, oovPosId)
  {
    assert p[f] == o[s];
    TilesExtend(o, vs, done + [s], p[..f], s + 1, p[f], oovPosId);
    assert p[..f] + [p[f]] == p[..f + 1];
    assert done + [s] + [s + 1] == (done + [s]) + [s + 1];
  }

  /** The progress is complete: the current path tiles all of `o`. */
  lemma ProgressDone(o: seq<LatticeNode>, vs: seq<Result<WordInfo>>, done: seq<nat>, s: nat,
                     p: seq<LatticeNode>, f: nat, oovPosId: Option<nat>)
    requires Progress(o, vs, done, s, p, f, oovPosId) && f == |p|
    ensures s == |o| && Tiles(o, vs, done + [|o|], p, oovPosId)
  {
    assert p[..f] == p;
  }

  /** concatenate (or concatenate_oov) over `p[f..i]`, the next `i - f`
      untouched nodes, which become one joined group of the progress. */
  method JoinGroup(p: seq<LatticeNode>, ghost o: seq<LatticeNode>, ghost vs: seq<Result<WordInfo>>,
                   ghost done: seq<nat>, ghost s: nat, f: nat, i: nat, oovPosId: Option<nat>)
    returns (r: Result<seq<LatticeNode>>)
    requires Progress(o, vs, done, s, p, f, oovPosId) && Answers(o, vs) && f + 2 <= i <= |p|
    ensures r.Ok? <==> AllOk(vs, s, s + (i - f))
    ensures r.Ok? ==> Progress(o, vs, done + [s], s + (i - f), r.value, f + 1, oovPosId)
  {
    ghost var ws := vs[s - f..];
    AnswersShifted(o, vs, done, s, p, f, i, oovPosId);
    var node, spliced := Concatenate(p, ws, f, i, oovPosId);
    if node.Err? {
      ShiftedOk(vs, s - f, f, i);
      return Err(node.error);
    }
    ProgressJoin(o, vs, done, s, p, f, i, node.value, spliced, oovPosId);
    r := Ok(spliced);
  }

  /** The untouched nodes answer with the infos of `vs` shifted to their
      place in the current path. */
  lemma AnswersShifted(o: seq<LatticeNode>, vs: seq<Result<WordInfo>>, done: seq<nat>, s: nat,
                       p: seq<LatticeNode>, f: nat, i: nat, oovPosId: Option<nat>)
    requires Progress(o, vs, done, s, p, f, oovPosId) && Answers(o, vs) && f <= i <= |p|
    ensures AnswersIn(p, vs[s - f..], f, i)
  {
    var d := s - f;
    var ws := vs[d..];
    forall k | f <= k < i
      ensures Says(p[k], ws[k])
    {
      assert p[k] == o[k + d] && ws[k] == vs[k + d];
      assert Says(o[k + d], vs[k + d]);
    }
  }

  lemma ShiftedOk(vs: seq<Result<WordInfo>>, d: nat, b: nat, e: nat)
    requires b <= e && d + e <= |vs|
    ensures AllOk(vs[d..], b, e) <==> AllOk(vs, b + d, e + d)
  {
    assert forall k :: b <= k < e ==> vs[d..][k] == vs[k + d];
  }

  /** The joined node takes the place of the group in the progress. */
  lemma ProgressJoin(o: seq<LatticeNode>, vs: seq<Result<WordInfo>>, done: seq<nat>, s: nat,
                     p: seq<LatticeNode>, f: nat, i: nat, n: LatticeNode, spliced: seq<LatticeNode>,
                     oovPosId: Option<nat>)
    requires Progress(o, vs, done, s, p, f, oovPosId) && f + 2 <= i <= |p|
    requires JoinOf(p, vs[s - f..], f, i, n, oovPosId) && spliced == p[..f] + [n] + p[i..]
    ensures AllOk(vs, s, s + (i - f))
    ensures Progress(o, vs, done + [s], s + (i - f), spliced, f + 1, oovPosId)
  {
    var d, j := s - f, s + (i - f);
    JoinedAtShift(vs, d, f, i, oovPosId);
    assert p[f] == o[s] && p[i - 1] == o[j - 1];
    assert JoinOf(o, vs, s, j, n, oovPosId);
    TilesExtend(o, vs, done + [s], p[..f], j, n, oovPosId);
    assert spliced[..f + 1] == p[..f] + [n];
    assert done + [s] + [j] == (done + [s]) + [j];
    forall k | f + 1 <= k < |spliced|
      ensures spliced[k] == o[j + (k - (f + 1))]
    {
      assert spliced[k] == p[k + (i - f - 1)];
    }
  }

  /** A group that cannot be joined makes the whole cut unjoinable. */
  lemma NotJoinable(vs: seq<Result<WordInfo>>, cuts: seq<nat>, k: nat)
    requires Cuts(cuts, |vs|) && k + 1 < |cuts| && cuts[k] + 2 <= cuts[k + 1] && !AllOk(vs, cuts[k], cuts[k + 1])
    ensures !Joinable(vs, cuts)
  {
  }

  /** The chained cuts from the first node: a cut of all the nodes. */
  function Chain(g: seq<nat>): (r: seq<nat>)
    requires Ends(g)
    ensures Cuts(r, |g|) && r[|r| - 1] == |g|
  {
    CutsByCuts(g, 0);
    CutsBy(g, 0)
  }

  /** Each group of a chained cut starts where the previous one ended. */
  lemma {:induction false} CutsByStep(g: seq<nat>, s: nat)
    requires Ends(g) && s <= |g|
    ensures forall k {:trigger CutsBy(g, s)[k]} :: 0 <= k < |CutsBy(g, s)| - 1 ==>
              CutsBy(g, s)[k] < |g| && CutsBy(g, s)[k + 1] == g[CutsBy(g, s)[k]]
    decreases |g| - s
  {
    if s < |g| {
      CutsByStep(g, g[s]);
      var r, r' := CutsBy(g, s), CutsBy(g, g[s]);
      assert r == [s] + r';
      forall k | 0 <= k < |r| - 1
        ensures r[k] < |g| && r[k + 1] == g[r[k]]
      {
        if k == 0 {
          assert r[1] == r'[0] == g[s];
        } else {
          assert r[k] == r'[k - 1] && r[k + 1] == r'[k];
        }
      }
    }
  }

  /** The chain steps through `g`. */
  lemma ChainStep(g: seq<nat>, k: nat)
    requires Ends(g) && k + 1 < |Chain(g)|
    ensures Chain(g)[k] < |g| && Chain(g)[k + 1] == g[Chain(g)[k]]
  {
    CutsByStep(g, 0);
  }

  /** Following `g` from the first node passes the group starts `done`
      and arrives at `s`. */
  predicate Reaches(g: seq<nat>, done: seq<nat>, s: nat)
    decreases |done|
  {
    if |done| == 0 then s == 0
    else
      var l := done[|done| - 1];
      l < |g| && g[l] == s && Reaches(g, done[..|done| - 1], l)
  }

  /** The group starts passed, followed by the chain from where they
      arrive, are the whole chain. */
  lemma {:induction false} ReachesChain(g: seq<nat>, done: seq<nat>, s: nat)
    requires Ends(g) && Reaches(g, done, s)
    ensures s <= |g| && done + CutsBy(g, s) == Chain(g)
    decreases |done|
  {
    if |done| > 0 {
      var l := done[|done| - 1];
      var done' := done[..|done| - 1];
      ReachesChain(g, done', l);
      assert CutsBy(g, l) == [l] + CutsBy(g, s);
      assert done == done' + [l];
    }
  }

  /** Where the chain arrives after `done`, its next group starts. */
  lemma GroupOfChain(g: seq<nat>, done: seq<nat>, s: nat)
    requires Ends(g) && Reaches(g, done, s) && s < |g|
    ensures |done| + 1 < |Chain(g)| && Chain(g)[|done|] == s && Chain(g)[|done| + 1] == g[s]
  {
    ReachesChain(g, done, s);
    assert CutsBy(g, s) == [s] + CutsBy(g, g[s]);
  }

  /** A progress over the whole path has cut it along the chain. */
  lemma ProgressComplete(o: seq<LatticeNode>, vs: seq<Result<WordInfo>>, g: seq<nat>, done: seq<nat>, s: nat,
                         p: seq<LatticeNode>, f: nat, oovPosId: Option<nat>)
    requires Progress(o, vs, done, s, p, f, oovPosId) && f == |p| && Ends(g) && |g| == |o| && Reaches(g, done, s)
    ensures Tiles(o, vs, Chain(g), p, oovPosId) && Joinable(vs, Chain(g))
  {
    ProgressDone(o, vs, done, s, p, f, oovPosId);
    ReachesChain(g, done, s);
    assert CutsBy(g, s) == [|o|];
    TilesJoinable(o, vs, Chain(g), p, oovPosId);
  }

  /** The group of the progress closes where `g` ends it: one node stays,
      or two nodes or more are joined; the rewrite fails exactly when the
      chained cut cannot be joined. */
  method CommitGroup(p: seq<LatticeNode>, ghost o: seq<LatticeNode>, ghost vs: seq<Result<WordInfo>>,
                     ghost g: seq<nat>, ghost done: seq<nat>, ghost s: nat, f: nat, i: nat, oovPosId: Option<nat>)
    returns (r: Result<seq<LatticeNode>>)
    requires Progress(o, vs, done, s, p, f, oovPosId) && Answers(o, vs) && f < i <= |p|
    requires Ends(g) && |g| == |o| && Reaches(g, done, s) && g[s] == s + (i - f)
    ensures r.Err? ==> !Joinable(vs, Chain(g))
    ensures r.Ok? ==> Progress(o, vs, done + [s], s + (i - f), r.value, f + 1, oovPosId)
                      && Reaches(g, done + [s], s + (i - f))
  {
    ghost var j := s + (i - f);
    assert (done + [s])[..|done|] == done;
    if i - f > 1 {
      r := JoinGroup(p, o, vs, done, s, f, i, oovPosId);
      if r.Err? {
        GroupOfChain(g, done, s);
        NotJoinable(vs, Chain(g), f);
      }
    } else {
      ProgressSingle(o, vs, done, s, p, f, oovPosId);
      r := Ok(p);
    }
  }

  /** A node stays as it is where `g` ends its group after it. */
  lemma CommitSingle(o: seq<LatticeNode>, vs: seq<Result<WordInfo>>, g: seq<nat>, done: seq<nat>, s: nat,
                     p: seq<LatticeNode>, f: nat, oovPosId: Option<nat>)
    requires Progress(o, vs, done, s, p, f, oovPosId) && f < |p|
    requires |g| == |o| && Reaches(g, done, s) && g[s] == s + 1
    ensures Progress(o, vs, done + [s], s + 1, p, f + 1, oovPosId) && Reaches(g, done + [s], s + 1)
  {
    ProgressSingle(o, vs, done, s, p, f, oovPosId);
    assert (done + [s])[..|done|] == done;
  }

  /** get_char_category_types of a node: the types over its range. */
  method GetCharCategoryTypes(t: UTF8InputText, n: LatticeNode) returns (r: Result<set<CategoryType>>)
    ensures r == NodeCategoryTypes(t, n)
  {
    r := CharCategoryTypesIn(t, n.begin, n.end);
  }

  /** `tys` is what get_char_category_types answers for each node of `path`. */
  predicate Typed(t: UTF8InputText, path: seq<LatticeNode>, tys: seq<set<CategoryType>>)
    reads path
  {
    |tys| == |path| && forall k {:trigger NodeCategoryTypes(t, path[k])} :: 0 <= k < |path| ==> NodeCategoryTypes(t, path[k]) == Ok(tys[k])
  }
}
