/** The path-rewrite plugin that joins numbers: every maximal run of two
    nodes or more over digits, or over kanji numerals, on the best path is
    replaced by one node whose word info joins theirs. */
module JoinNumericPlugins {
  import opened Wrappers
  import opened CategoryTypes
  import opened WordInfoLists
  import opened Grammars
  import opened InputTexts
  import opened LatticeNodes
  import opened PathRewritePlugins

  /** What a node is to the plugin: over digits (its types hold NUMERIC),
      over kanji numerals (KANJINUMERIC, when those are joined), or
      neither. */
  datatype NumericClass = Digits | Kanji | Neither

  function ClassOf(types: set<CategoryType>, joinKanji: bool): (r: NumericClass)
  {
    if NUMERIC in types then Digits
    else if KANJINUMERIC in types && joinKanji then Kanji
    else Neither
  }

  function Classes(tys: seq<set<CategoryType>>, joinKanji: bool): (cls: seq<NumericClass>)
    ensures |cls| == |tys| && forall k :: 0 <= k < |tys| ==> cls[k] == ClassOf(tys[k], joinKanji)
  {
    seq(|tys|, k requires 0 <= k < |tys| => ClassOf(tys[k], joinKanji))
  }

  /** The end of the run of nodes of the class of `cls[s]` that goes on
      from `j`. */
  function RunEnd(cls: seq<NumericClass>, s: nat, j: nat): (r: nat)
    requires s < j <= |cls|
    ensures j <= r <= |cls|
    decreases |cls| - j
  {
    if j == |cls| || cls[j] != cls[s] then j else RunEnd(cls, s, j + 1)
  }

  /** The run is of one class, and the node after it of another. */
  lemma {:induction false} RunEndIsRun(cls: seq<NumericClass>, s: nat, j: nat)
    requires s < j <= |cls|
    ensures var r := RunEnd(cls, s, j);
            (r == |cls| || cls[r] != cls[s]) && forall k :: j <= k < r ==> cls[k] == cls[s]
    decreases |cls| - j
  {
    if j < |cls| && cls[j] == cls[s] {
      RunEndIsRun(cls, s, j + 1);
    }
  }

  /** A run is where it stops. */
  lemma {:induction false} RunEndAt(cls: seq<NumericClass>, s: nat, m: nat, j: nat)
    requires s < m <= j <= |cls| && (forall k :: s <= k < j ==> cls[k] == cls[s])
    requires j == |cls| || cls[j] != cls[s]
    ensures RunEnd(cls, s, m) == j
    decreases j - m
  {
    if m < j {
      RunEndAt(cls, s, m + 1, j);
    }
  }

  /** The group starting at each node: a node of neither class alone, any
      other the whole run of its class from there. */
  function GroupEnds(cls: seq<NumericClass>): (g: seq<nat>)
    ensures |g| == |cls| && Ends(g)
  {
    seq(|cls|, k requires 0 <= k < |cls| => if cls[k] == Neither then k + 1 else RunEnd(cls, k, k + 1))
  }

  /** The groups rewrite cuts the path into, given the category types of
      its nodes. */
  function NumericCuts(tys: seq<set<CategoryType>>, joinKanji: bool): (cuts: seq<nat>)
    ensures Cuts(cuts, |tys|) && cuts[|cuts| - 1] == |tys|
  {
    Chain(GroupEnds(Classes(tys, joinKanji)))
  }

  /** Every numeric group is of one class. */
  lemma NumericGroupUniform(tys: seq<set<CategoryType>>, joinKanji: bool, k: nat, m: nat)
    requires k + 1 < |NumericCuts(tys, joinKanji)|
    requires NumericCuts(tys, joinKanji)[k] <= m < NumericCuts(tys, joinKanji)[k + 1]
    ensures Classes(tys, joinKanji)[m] == Classes(tys, joinKanji)[NumericCuts(tys, joinKanji)[k]]
  {
    var cls := Classes(tys, joinKanji);
    var c := NumericCuts(tys, joinKanji)[k];
    ChainStep(GroupEnds(cls), k);
    if cls[c] != Neither {
      RunEndIsRun(cls, c, c + 1);
    }
  }

  /** A numeric group of two nodes or more is over digits or over kanji
      numerals. */
  lemma NumericGroupJoinsRun(tys: seq<set<CategoryType>>, joinKanji: bool, k: nat)
    requires k + 1 < |NumericCuts(tys, joinKanji)|
    requires NumericCuts(tys, joinKanji)[k] + 1 < NumericCuts(tys, joinKanji)[k + 1]
    ensures Classes(tys, joinKanji)[NumericCuts(tys, joinKanji)[k]] != Neither
  {
    ChainStep(GroupEnds(Classes(tys, joinKanji)), k);
  }

  /** Numeric groups are maximal runs: two neighbouring groups of the same
      class are both of neither class. */
  lemma NumericGroupsMaximal(tys: seq<set<CategoryType>>, joinKanji: bool, k: nat)
    requires k + 2 < |NumericCuts(tys, joinKanji)|
    requires var cls, cuts := Classes(tys, joinKanji), NumericCuts(tys, joinKanji);
             cls[cuts[k]] == cls[cuts[k + 1]]
    ensures Classes(tys, joinKanji)[NumericCuts(tys, joinKanji)[k]] == Neither
  {
    var cls, cuts := Classes(tys, joinKanji), NumericCuts(tys, joinKanji);
    var c := cuts[k];
    ChainStep(GroupEnds(cls), k);
    assert cuts[k + 1] < cuts[k + 2];
    if cls[c] != Neither {
      RunEndIsRun(cls, c, c + 1);
    }
  }

  /** The class a run of the category type `ty` is made of. */
  function RunClass(ty: CategoryType): (r: NumericClass)
  {
    if ty == NUMERIC then Digits else Kanji
  }

  /** The state of rewrite before it looks at the node at `i`: the groups
      before the open run are committed along the chain of `GroupEnds(cls)`,
      and the open run, if any (`beginIndex` at least 0), is `p[f..i]`, all of
      the class of its type. */
  predicate Scanning(o: seq<LatticeNode>, vs: seq<Result<WordInfo>>, cls: seq<NumericClass>,
                     done: seq<nat>, s: nat, p: seq<LatticeNode>, f: nat, i: nat,
                     beginIndex: int, ty: Option<CategoryType>, joinKanji: bool)
    reads o, p
  {
    |cls| == |o| && i <= |p| && Progress(o, vs, done, s, p, f, None) && Reaches(GroupEnds(cls), done, s)
    && (beginIndex < 0 ==> beginIndex == -1 && ty == None && f == i)
    && (beginIndex >= 0 ==> beginIndex == f < i && ty.Some? && ty.value in {NUMERIC, KANJINUMERIC})
    && (ty == Some(KANJINUMERIC) ==> joinKanji)
    && (ty.Some? ==> forall k :: s <= k < s + (i - f) ==> cls[k] == RunClass(ty.value))
  }

  /** The node at `i` is of the class of the open run, which goes on. */
  lemma ScanContinue(o: seq<LatticeNode>, vs: seq<Result<WordInfo>>, cls: seq<NumericClass>,
                     done: seq<nat>, s: nat, p: seq<LatticeNode>, f: nat, i: nat,
                     beginIndex: int, ty: Option<CategoryType>, joinKanji: bool, i': nat)
    requires Scanning(o, vs, cls, done, s, p, f, i, beginIndex, ty, joinKanji) && i < |p|
    requires ty.Some? && cls[s + (i - f)] == RunClass(ty.value) && i' == i + 1
    ensures Scanning(o, vs, cls, done, s, p, f, i', beginIndex, ty, joinKanji)
  {
  }

  /** With no run open, the node at `i` opens one of the type `t`. */
  lemma ScanOpen(o: seq<LatticeNode>, vs: seq<Result<WordInfo>>, cls: seq<NumericClass>,
                 done: seq<nat>, s: nat, p: seq<LatticeNode>, f: nat, i: nat,
                 beginIndex: int, ty: Option<CategoryType>, t: CategoryType, joinKanji: bool,
                 i': nat, beginIndex': int)
    requires Scanning(o, vs, cls, done, s, p, f, i, beginIndex, ty, joinKanji) && i < |p| && beginIndex < 0
    requires t in {NUMERIC, KANJINUMERIC} && (t == KANJINUMERIC ==> joinKanji) && cls[s] == RunClass(t)
    requires i' == i + 1 && beginIndex' == i
    ensures Scanning(o, vs, cls, done, s, p, f, i', beginIndex', Some(t), joinKanji)
  {
  }

  /** With no run open, a node of neither class stays alone. */
  lemma ScanSingle(o: seq<LatticeNode>, vs: seq<Result<WordInfo>>, cls: seq<NumericClass>,
                   done: seq<nat>, s: nat, p: seq<LatticeNode>, f: nat, i: nat,
                   beginIndex: int, ty: Option<CategoryType>, joinKanji: bool,
                   done': seq<nat>, s': nat, f': nat, i': nat, beginIndex': int)
    requires Scanning(o, vs, cls, done, s, p, f, i, beginIndex, ty, joinKanji) && i < |p| && beginIndex < 0
    requires cls[s] == Neither
    requires done' == done + [s] && s' == s + 1 && f' == f + 1 && i' == i + 1 && beginIndex' == -1
    ensures Scanning(o, vs, cls, done', s', p, f', i', beginIndex', None, joinKanji)
  {
    CommitSingle(o, vs, GroupEnds(cls), done, s, p, f, None);
  }

  /** The open run `p[f..i]` ends before the node at `i`, of another
      class, or at the end of the path: it is committed, joined when it
      holds two nodes or more, and no run is open after it. */
  method CloseRun(p: seq<LatticeNode>, ghost o: seq<LatticeNode>, ghost vs: seq<Result<WordInfo>>,
                  ghost cls: seq<NumericClass>, ghost done: seq<nat>, ghost s: nat, f: nat, i: nat,
                  beginIndex: int, ghost ty: Option<CategoryType>, ghost joinKanji: bool)
    returns (r: Result<seq<LatticeNode>>, ghost done': seq<nat>, ghost s': nat)
    requires Scanning(o, vs, cls, done, s, p, f, i, beginIndex, ty, joinKanji) && Answers(o, vs) && beginIndex >= 0
    requires i == |p| || cls[s + (i - f)] != RunClass(ty.value)
    ensures r.Err? ==> !Joinable(vs, Chain(GroupEnds(cls)))
    ensures r.Ok? ==> s' == s + (i - f) && |r.value| + i == |p| + f + 1
                      && Scanning(o, vs, cls, done', s', r.value, f + 1, f + 1, -1, None, joinKanji)
  {
    ghost var g := GroupEnds(cls);
    RunGroupEnd(o, vs, cls, done, s, p, f, i, beginIndex, ty, joinKanji, g);
    done', s' := done + [s], s + (i - f);
    r := CommitGroup(p, o, vs, g, done, s, f, i, None);
  }

  /** The open run ends where its group does, so it can be committed. */
  lemma RunGroupEnd(o: seq<LatticeNode>, vs: seq<Result<WordInfo>>, cls: seq<NumericClass>,
                    done: seq<nat>, s: nat, p: seq<LatticeNode>, f: nat, i: nat,
                    beginIndex: int, ty: Option<CategoryType>, joinKanji: bool, g: seq<nat>)
    requires Scanning(o, vs, cls, done, s, p, f, i, beginIndex, ty, joinKanji) && beginIndex >= 0
    requires i == |p| || cls[s + (i - f)] != RunClass(ty.value)
    requires g == GroupEnds(cls)
    ensures Progress(o, vs, done, s, p, f, None) && f < i <= |p| && |p| - f == |o| - s
    ensures Ends(g) && |g| == |o| && Reaches(g, done, s) && g[s] == s + (i - f)
  {
    RunEndAt(cls, s, s + 1, s + (i - f));
  }

  /** One turn of the loop of rewrite, over the node at `i` whose category
      types are `types`: the open run goes on, or it is closed (joined when
      it holds two nodes or more) and the node starts a run or stays alone.
      The index returned is the one the loop then steps past. */
  method Visit(p: seq<LatticeNode>, ghost o: seq<LatticeNode>, ghost vs: seq<Result<WordInfo>>,
               ghost cls: seq<NumericClass>, ghost done: seq<nat>, ghost s: nat, f: nat,
               i: nat, beginIndex: int, ty: Option<CategoryType>, types: set<CategoryType>, joinKanji: bool)
    returns (r: Result<seq<LatticeNode>>, f': nat, i': nat, beginIndex': int, ty': Option<CategoryType>,
             ghost done': seq<nat>, ghost s': nat)
    requires Scanning(o, vs, cls, done, s, p, f, i, beginIndex, ty, joinKanji) && Answers(o, vs) && i < |p|
    requires cls[s + (i - f)] == ClassOf(types, joinKanji)
    ensures r.Err? ==> !Joinable(vs, Chain(GroupEnds(cls)))
    ensures r.Ok? ==> Scanning(o, vs, cls, done', s', r.value, f', i' + 1, beginIndex', ty', joinKanji)
                      && s' + (i' + 1 - f') == s + (i - f) + 1
  {
    if NUMERIC in types {
      r, f', i', beginIndex', ty', done', s' := VisitDigits(p, o, vs, cls, done, s, f, i, beginIndex, ty, types, joinKanji);
    } else if KANJINUMERIC in types {
      r, f', i', beginIndex', ty', done', s' := VisitKanji(p, o, vs, cls, done, s, f, i, beginIndex, ty, types, joinKanji);
    } else {
      r, f', i', beginIndex', ty', done', s' := VisitOther(p, o, vs, cls, done, s, f, i, beginIndex, ty, types, joinKanji);
    }
  }

  /** A node over digits continues a run of digits, or closes the run of
      kanji numerals before it and opens one, or opens one. */
  method VisitDigits(p: seq<LatticeNode>, ghost o: seq<LatticeNode>, ghost vs: seq<Result<WordInfo>>,
               ghost cls: seq<NumericClass>, ghost done: seq<nat>, ghost s: nat, f: nat,
               i: nat, beginIndex: int, ty: Option<CategoryType>, types: set<CategoryType>, joinKanji: bool)
    returns (r: Result<seq<LatticeNode>>, f': nat, i': nat, beginIndex': int, ty': Option<CategoryType>,
             ghost done': seq<nat>, ghost s': nat)
    requires Scanning(o, vs, cls, done, s, p, f, i, beginIndex, ty, joinKanji) && Answers(o, vs) && i < |p|
    requires cls[s + (i - f)] == ClassOf(types, joinKanji)
    requires NUMERIC in types
    ensures r.Err? ==> !Joinable(vs, Chain(GroupEnds(cls)))
    ensures r.Ok? ==> Scanning(o, vs, cls, done', s', r.value, f', i' + 1, beginIndex', ty', joinKanji)
                      && s' + (i' + 1 - f') == s + (i - f) + 1
  {
    if ty == Some(NUMERIC) {
      r, f', i', beginIndex', ty', done', s' := Ok(p), f, i, beginIndex, ty, done, s;
      ScanContinue(o, vs, cls, done, s, p, f, i, beginIndex, ty, joinKanji, i' + 1);
      return;
    }
    if ty == Some(KANJINUMERIC) {
      r, f', i', beginIndex', ty', done', s' := SwitchRun(p, o, vs, cls, done, s, f, i, beginIndex, ty, NUMERIC, joinKanji);
      return;
    }
    r, f', i', beginIndex', ty', done', s' := Ok(p), f, i, i, Some(NUMERIC), done, s;
    ScanOpen(o, vs, cls, done, s, p, f, i, beginIndex, ty, NUMERIC, joinKanji, i' + 1, beginIndex');
  }

  /** A node over kanji numerals continues a run of them, or closes the run
      of digits before it and opens one or, when kanji numerals are not
      joined, stays alone. */
  method VisitKanji(p: seq<LatticeNode>, ghost o: seq<LatticeNode>, ghost vs: seq<Result<WordInfo>>,
               ghost cls: seq<NumericClass>, ghost done: seq<nat>, ghost s: nat, f: nat,
               i: nat, beginIndex: int, ty: Option<CategoryType>, types: set<CategoryType>, joinKanji: bool)
    returns (r: Result<seq<LatticeNode>>, f': nat, i': nat, beginIndex': int, ty': Option<CategoryType>,
             ghost done': seq<nat>, ghost s': nat)
    requires Scanning(o, vs, cls, done, s, p, f, i, beginIndex, ty, joinKanji) && Answers(o, vs) && i < |p|
    requires cls[s + (i - f)] == ClassOf(types, joinKanji)
    requires NUMERIC !in types && KANJINUMERIC in types
    ensures r.Err? ==> !Joinable(vs, Chain(GroupEnds(cls)))
    ensures r.Ok? ==> Scanning(o, vs, cls, done', s', r.value, f', i' + 1, beginIndex', ty', joinKanji)
                      && s' + (i' + 1 - f') == s + (i - f) + 1
  {
    if ty == Some(KANJINUMERIC) {
      r, f', i', beginIndex', ty', done', s' := Ok(p), f, i, beginIndex, ty, done, s;
      ScanContinue(o, vs, cls, done, s, p, f, i, beginIndex, ty, joinKanji, i' + 1);
      return;
    }
    if joinKanji && ty == Some(NUMERIC) {
      r, f', i', beginIndex', ty', done', s' := SwitchRun(p, o, vs, cls, done, s, f, i, beginIndex, ty, KANJINUMERIC, joinKanji);
      return;
    }
    if joinKanji {
      r, f', i', beginIndex', ty', done', s' := Ok(p), f, i, i, Some(KANJINUMERIC), done, s;
      ScanOpen(o, vs, cls, done, s, p, f, i, beginIndex, ty, KANJINUMERIC, joinKanji, i' + 1, beginIndex');
      return;
    }
    r, f', i', beginIndex', ty', done', s' := VisitOther(p, o, vs, cls, done, s, f, i, beginIndex, ty, types, joinKanji);
  }

  /** A node of neither class closes the open run and stays alone. */
  method VisitOther(p: seq<LatticeNode>, ghost o: seq<LatticeNode>, ghost vs: seq<Result<WordInfo>>,
               ghost cls: seq<NumericClass>, ghost done: seq<nat>, ghost s: nat, f: nat,
               i: nat, beginIndex: int, ty: Option<CategoryType>, types: set<CategoryType>, joinKanji: bool)
    returns (r: Result<seq<LatticeNode>>, f': nat, i': nat, beginIndex': int, ty': Option<CategoryType>,
             ghost done': seq<nat>, ghost s': nat)
    requires Scanning(o, vs, cls, done, s, p, f, i, beginIndex, ty, joinKanji) && Answers(o, vs) && i < |p|
    requires cls[s + (i - f)] == ClassOf(types, joinKanji)
    requires ClassOf(types, joinKanji) == Neither
    ensures r.Err? ==> !Joinable(vs, Chain(GroupEnds(cls)))
    ensures r.Ok? ==> Scanning(o, vs, cls, done', s', r.value, f', i' + 1, beginIndex', ty', joinKanji)
                      && s' + (i' + 1 - f') == s + (i - f) + 1
  {
    if beginIndex < 0 {
      r, f', i', beginIndex', ty', done', s' := Ok(p), f + 1, i, -1, None, done + [s], s + 1;
      ScanSingle(o, vs, cls, done, s, p, f, i, beginIndex, ty, joinKanji, done', s', f', i' + 1, beginIndex');
      return;
    }
    r, f', i', beginIndex', ty', done', s' := CloseThenSingle(p, o, vs, cls, done, s, f, i, beginIndex, ty, joinKanji);
  }

  /** The open run is closed by a node of the other class, which opens a
      run of the type `t`. */
  method SwitchRun(p: seq<LatticeNode>, ghost o: seq<LatticeNode>, ghost vs: seq<Result<WordInfo>>,
                   ghost cls: seq<NumericClass>, ghost done: seq<nat>, ghost s: nat, f: nat,
                   i: nat, beginIndex: int, ghost ty: Option<CategoryType>, t: CategoryType, ghost joinKanji: bool)
    returns (r: Result<seq<LatticeNode>>, f': nat, i': nat, beginIndex': int, ty': Option<CategoryType>,
             ghost done': seq<nat>, ghost s': nat)
    requires Scanning(o, vs, cls, done, s, p, f, i, beginIndex, ty, joinKanji) && Answers(o, vs) && i < |p|
    requires beginIndex >= 0 && t in {NUMERIC, KANJINUMERIC} && (t == KANJINUMERIC ==> joinKanji)
    requires cls[s + (i - f)] == RunClass(t) != RunClass(ty.value)
    ensures r.Err? ==> !Joinable(vs, Chain(GroupEnds(cls)))
    ensures r.Ok? ==> Scanning(o, vs, cls, done', s', r.value, f', i' + 1, beginIndex', ty', joinKanji)
                      && s' + (i' + 1 - f') == s + (i - f) + 1
  {
    f', i', beginIndex', ty', done', s' := f, i, beginIndex, None, done, s;
    var p', d, j :- CloseRun(p, o, vs, cls, done, s, f, i, beginIndex, ty, joinKanji);
    r, f', i', beginIndex', ty', done', s' := Ok(p'), f + 1, f + 1, f + 1, Some(t), d, j;
    ScanOpen(o, vs, cls, d, j, p', f + 1, f + 1, -1, None, t, joinKanji, i' + 1, beginIndex');
  }

  /** The open run is closed by a node of neither class, which stays
      alone. */
  method CloseThenSingle(p: seq<LatticeNode>, ghost o: seq<LatticeNode>, ghost vs: seq<Result<WordInfo>>,
                         ghost cls: seq<NumericClass>, ghost done: seq<nat>, ghost s: nat, f: nat,
                         i: nat, beginIndex: int, ghost ty: Option<CategoryType>, ghost joinKanji: bool)
    returns (r: Result<seq<LatticeNode>>, f': nat, i': nat, beginIndex': int, ty': Option<CategoryType>,
             ghost done': seq<nat>, ghost s': nat)
    requires Scanning(o, vs, cls, done, s, p, f, i, beginIndex, ty, joinKanji) && Answers(o, vs) && i < |p|
    requires beginIndex >= 0 && cls[s + (i - f)] == Neither
    ensures r.Err? ==> !Joinable(vs, Chain(GroupEnds(cls)))
    ensures r.Ok? ==> Scanning(o, vs, cls, done', s', r.value, f', i' + 1, beginIndex', ty', joinKanji)
                      && s' + (i' + 1 - f') == s + (i - f) + 1
  {
    f', i', beginIndex', ty', done', s' := f, i, beginIndex, None, done, s;
    var p', d, j :- CloseRun(p, o, vs, cls, done, s, f, i, beginIndex, ty, joinKanji);
    r, f', i', beginIndex', ty', done', s' := Ok(p'), f + 2, f + 1, -1, None, d + [j], j + 1;
    ScanSingle(o, vs, cls, d, j, p', f + 1, f + 1, -1, None, joinKanji, done', s', f', i' + 1, beginIndex');
  }

  /** A scan that reached the end of the path with no run open has cut it
      along the whole chain. */
  lemma ScanComplete(o: seq<LatticeNode>, vs: seq<Result<WordInfo>>, cls: seq<NumericClass>,
                     done: seq<nat>, s: nat, p: seq<LatticeNode>, f: nat, joinKanji: bool)
    requires Scanning(o, vs, cls, done, s, p, f, f, -1, None, joinKanji) && f == |p|
    ensures Tiles(o, vs, Chain(GroupEnds(cls)), p, None) && Joinable(vs, Chain(GroupEnds(cls)))
  {
    ProgressComplete(o, vs, GroupEnds(cls), done, s, p, f, None);
  }

  class JoinNumericPlugin {
    var joinKanjiNumeric: bool
    var joinAllNumeric: bool

    /** Both settings start as None, which reads as false. */
    constructor()
      ensures !joinKanjiNumeric && !joinAllNumeric
    {
      joinKanjiNumeric, joinAllNumeric := false, false;
    }

    /** set_up: kanji numerals are joined, digits and kanji numerals are
        not joined together. */
    method SetUp(grammar: Grammar)
      modifies this
      ensures joinKanjiNumeric && !joinAllNumeric
    {
      joinKanjiNumeric := true;
      joinAllNumeric := false;
    }

    /** rewrite: the path cut at the numeric runs, each run of two nodes or
        more replaced by the node concatenate makes of it; the first run
        whose word infos cannot be read raises. */
    method Rewrite(t: UTF8InputText, path: seq<LatticeNode>, ghost vs: seq<Result<WordInfo>>,
                   ghost tys: seq<set<CategoryType>>)
      returns (r: Result<seq<LatticeNode>>)
      requires !joinAllNumeric && Answers(path, vs) && Typed(t, path, tys)
      ensures r.Ok? <==> Joinable(vs, NumericCuts(tys, joinKanjiNumeric))
      ensures r.Ok? ==> Tiles(path, vs, NumericCuts(tys, joinKanjiNumeric), r.value, None)
    {
      ghost var o := path;
      ghost var cls := Classes(tys, joinKanjiNumeric);
      ghost var done: seq<nat> := [];
      ghost var s: nat := 0;
      ProgressStart(o, vs, None);
      var p := path;
      var f: nat := 0;
      var beginIndex := -1;
      var ty: Option<CategoryType> := None;
      var i: nat := 0;
      while i < |p|
        invariant Scanning(o, vs, cls, done, s, p, f, i, beginIndex, ty, joinKanjiNumeric)
        decreases |o| - (s + (i - f))
      {
        assert p[i] == o[s + (i - f)];
        var types := GetCharCategoryTypes(t, p[i]);
        assert NodeCategoryTypes(t, o[s + (i - f)]) == Ok(tys[s + (i - f)]);
        p, f, i, beginIndex, ty, done, s :- Visit(p, o, vs, cls, done, s, f, i, beginIndex, ty, types.value, joinKanjiNumeric);
        i := i + 1;
      }
      if beginIndex >= 0 {
        p, done, s :- CloseRun(p, o, vs, cls, done, s, f, i, beginIndex, ty, joinKanjiNumeric);
        f := f + 1;
      }
      ScanComplete(o, vs, cls, done, s, p, f, joinKanjiNumeric);
      r := Ok(p);
    }
  }
}
