/** Tokenizer.SplitMode: A for the shortest units, B for the middle ones,
    C for the words of the dictionary as they are. */
module SplitModes {
  datatype SplitMode = A | B | C
}

/** The tokenizer: the input text rewritten by the input text plugins and
    analysed, a lattice of dictionary and OOV words built over its bytes,
    the cheapest path through it rewritten by the path rewrite plugins and,
    for modes A and B, its words split into smaller units. */
module Tokenizers {
  import opened Wrappers
  import opened WordInfoLists
  import opened Texts
  import opened CategoryTypes
  import opened Grammars
  import opened CharacterCategories
  import opened InputTexts
  import opened InputTextBuilders
  import opened LexiconSets
  import opened Lexicons
  import opened LatticeNodes
  import opened Lattices
  import opened PathRewritePlugins
  import opened MorphemeLists
  import opened SplitModes
  import DefaultInputTextPlugins
  import SimpleOovPlugins
  import MeCabOovPlugins
  import JoinNumericPlugins
  import JoinKatakanaOovPlugins

  /** An OOV provider plugin of either kind. */
  datatype OovProvider =
    | SimpleOov(simple: SimpleOovPlugins.SimpleOovPlugin)
    | MeCabOov(mecab: MeCabOovPlugins.MeCabOovPlugin)

  /** A path rewrite plugin of either kind. */
  datatype PathRewriter =
    | JoinNumeric(numeric: JoinNumericPlugins.JoinNumericPlugin)
    | JoinKatakanaOov(katakana: JoinKatakanaOovPlugins.JoinKatakanaOovPlugin)

  /** What tokenize returns: the empty Python list for an empty text, a
      morpheme list otherwise. */
  datatype Tokens = NoTokens | Tokens(list: MorphemeList)

  /** Reading `self.default_oov_provider` when the constructor did not set it. */
  const NO_DEFAULT: Error := AttributeError("'Tokenizer' object has no attribute 'default_oov_provider'")

  /** The error raised when nothing begins at the byte `i`. */
  function NoMorphemeAt(i: nat): (r: Error)
  {
    AttributeError("there is no morpheme at " + NatToString(i))
  }

  /** The text and offset map after one input text plugin's rewrite. */
  ghost function RewriteStep(p: DefaultInputTextPlugins.DefaultInputTextPlugin, text: string, offsets: seq<int>)
    : (string, seq<int>)
    reads p
    requires |text| < |offsets|
  {
    (DefaultInputTextPlugins.RewriteText(p.Rules(), p.maps, text),
     DefaultInputTextPlugins.RewriteOffsets(p.Rules(), p.maps, text, offsets) + [offsets[|text|]])
  }

  /** `states` are the builder's text and offset map before the first
      plugin, and after each plugin in turn. */
  ghost predicate RewriteTrace(plugins: seq<DefaultInputTextPlugins.DefaultInputTextPlugin>, text: string,
                               states: seq<(string, seq<int>)>)
    reads set p | p in plugins
  {
    |states| == |plugins| + 1 && states[0] == (text, Indexes(|text| + 1))
    && forall k :: 0 <= k < |plugins| ==>
         |states[k].0| < |states[k].1| && states[k + 1] == RewriteStep(plugins[k], states[k].0, states[k].1)
  }

  /** `input` is the text built from `text` after the input text plugins'
      rewrites `states`. */
  ghost predicate Prepared(plugins: seq<DefaultInputTextPlugins.DefaultInputTextPlugin>, text: string,
                           states: seq<(string, seq<int>)>, input: UTF8InputText)
    reads set p | p in plugins
  {
    RewriteTrace(plugins, text, states)
    && input.originalText == text && input.modifiedText == states[|states| - 1].0
  }

  /** The left id, right id and cost of a word, read in that order. */
  function WordParameters(lexicon: LexiconSet, wid: nat): (r: Result<(nat, nat, int)>)
  {
    var left :- lexicon.GetLeftId(wid);
    var right :- lexicon.GetRightId(wid);
    var cost :- lexicon.GetCost(wid);
    Ok((left, right, cost))
  }

  /** How a lexicon answers the parameters of its words. */
  type Parameters = nat -> Result<(nat, nat, int)>

  function ParametersOf(lexicon: LexiconSet): (r: Parameters)
  {
    (w: nat) => WordParameters(lexicon, w)
  }

  /** A node made for the word of `hit` with the given parameters, placed
      at [i, end of the hit), not OOV. */
  predicate Made(n: LatticeNode, lexicon: LexiconSet, i: nat, hit: (nat, nat), params: (nat, nat, int))
    reads n
  {
    n.lexicon == lexicon && n.wordId == hit.0 && n.hasParameter && !n.isOov && n.extraWordInfo.None?
    && n.leftId == params.0 && n.rightId == params.1 && n.cost == params.2
    && n.begin == i && n.end == hit.1
  }

  /** The nodes made for the hits of a lookup at `i`, one per hit, in
      order, each with the parameters its word has. */
  ghost predicate WordNodes(params: Parameters, lexicon: LexiconSet, i: nat, hits: seq<(nat, nat)>, ns: seq<LatticeNode>)
    reads ns
  {
    |ns| == |hits|
    && forall k :: 0 <= k < |ns| ==> params(hits[k].0).Ok? && Made(ns[k], lexicon, i, hits[k], params(hits[k].0).value)
  }

  lemma WordNodesSnoc(params: Parameters, lexicon: LexiconSet, i: nat, hits: seq<(nat, nat)>, k: nat,
                      ns: seq<LatticeNode>, n: LatticeNode, p: (nat, nat, int))
    requires k < |hits| && WordNodes(params, lexicon, i, hits[..k], ns)
    requires params(hits[k].0) == Ok(p) && Made(n, lexicon, i, hits[k], p)
    ensures WordNodes(params, lexicon, i, hits[..k + 1], ns + [n])
  {
    assert hits[..k + 1] == hits[..k] + [hits[k]];
  }

  /** An OOV node not yet in the lattice, beginning at `i`. */
  predicate Waiting(n: LatticeNode, i: nat)
    reads n
  {
    n.hasParameter && !n.isConnectedToBos && n.bestPreviousNode == null && n.begin == i && i <= n.end
  }

  /** OOV nodes waiting to be inserted: none listed yet, none the EOS
      node, no node twice. */
  ghost predicate Pending(rest: seq<LatticeNode>, listed: seq<LatticeNode>, eos: LatticeNode?, i: nat)
    reads rest
  {
    (forall k :: 0 <= k < |rest| ==> rest[k] !in listed && rest[k] != eos && Waiting(rest[k], i))
    && forall j, k :: 0 <= j < k < |rest| ==> rest[j] != rest[k]
  }

  lemma PendingNext(rest: seq<LatticeNode>, listed: seq<LatticeNode>, eos: LatticeNode?, i: nat)
    requires |rest| > 0 && Pending(rest, listed, eos, i)
    ensures rest[0] !in listed && rest[0] != eos && Waiting(rest[0], i) && rest[0] !in rest[1..]
    ensures Pending(rest[1..], listed + [rest[0]], eos, i)
  {
  }

  /** Every node begins at `i`. */
  ghost predicate AllAt(ns: seq<LatticeNode>, i: nat)
    reads ns
  {
    forall k :: 0 <= k < |ns| ==> ns[k].begin == i
  }

  /** Nodes added in two steps: the list grew by both, and all begin at `i`. */
  lemma Extended(start: seq<LatticeNode>, a: seq<LatticeNode>, b: seq<LatticeNode>,
                 mid: seq<LatticeNode>, end: seq<LatticeNode>, i: nat)
    requires mid == start + a && end == mid + b
    requires AllAt(a, i) && AllAt(b, i)
    ensures end == start + (a + b) && AllAt(a + b, i)
  {
  }

  // ---- path rewriting ----------------------------------------------------------

  /** What a path rewrite plugin's queries answer for each node of a path:
      the category types for numeric joining, what the katakana plugin
      asks for katakana joining. */
  datatype Queried =
    | CategoriesOf(tys: seq<set<CategoryType>>)
    | KindsOf(ks: seq<JoinKatakanaOovPlugins.Kind>)

  /** The katakana plugin's questions about `n` all have answers. */
  predicate KindKnown(t: UTF8InputText, n: LatticeNode)
    reads n
    requires JoinKatakanaOovPlugins.WellFormed(t)
  {
    n.begin >= 0 && JoinKatakanaOovPlugins.IsKatakana(t, n).Ok? && JoinKatakanaOovPlugins.CanOovBow(t, n).Ok?
    && JoinKatakanaOovPlugins.IsOneChar(t, n).Ok?
  }

  /** Every query `p` makes of a node of `path` has an answer. */
  predicate Queryable(p: PathRewriter, t: UTF8InputText, path: seq<LatticeNode>)
    reads path
  {
    match p
    case JoinNumeric(_) => forall k :: 0 <= k < |path| ==> NodeCategoryTypes(t, path[k]).Ok?
    case JoinKatakanaOov(_) =>
      JoinKatakanaOovPlugins.WellFormed(t) && forall k :: 0 <= k < |path| ==> KindKnown(t, path[k])
  }

  /** The objects holding the settings of `p`. */
  function Holders(p: PathRewriter): set<object>
  {
    match p
    case JoinNumeric(q) => {q}
    case JoinKatakanaOov(q) => {q}
  }

  /** `p` rewrote `before` into `after`: its queries answered `q`, and
      `after` is `before` cut into the groups those answers give, each
      group of two or more nodes joined into one node. */
  ghost predicate Rewrote(p: PathRewriter, t: UTF8InputText, before: seq<LatticeNode>, q: Queried,
                          after: seq<LatticeNode>)
    reads before, after, Holders(p)
  {
    match p
    case JoinNumeric(n) =>
      q.CategoriesOf? && Typed(t, before, q.tys)
      && Tiles(before, Infos(before), JoinNumericPlugins.NumericCuts(q.tys, n.joinKanjiNumeric), after, None)
    case JoinKatakanaOov(k) =>
      q.KindsOf? && JoinKatakanaOovPlugins.WellFormed(t) && JoinKatakanaOovPlugins.Observed(t, before, q.ks)
      && Tiles(before, Infos(before), JoinKatakanaOovPlugins.KatakanaCuts(q.ks), after, k.oovPosId)
  }

  /** get_char_category_types of every node, asked in path order. */
  method Categories(t: UTF8InputText, path: seq<LatticeNode>) returns (r: Result<seq<set<CategoryType>>>)
    ensures r.Ok? <==> forall k :: 0 <= k < |path| ==> NodeCategoryTypes(t, path[k]).Ok?
    ensures r.Ok? ==> Typed(t, path, r.value)
  {
    var tys: seq<set<CategoryType>> := [];
    var k := 0;
    while k < |path|
      invariant k <= |path| && |tys| == k
      invariant forall j :: 0 <= j < k ==> NodeCategoryTypes(t, path[j]) == Ok(tys[j])
    {
      var types := GetCharCategoryTypes(t, path[k]);
      if types.Err? {
        return Err(types.error);
      }
      tys := tys + [types.value];
      k := k + 1;
    }
    r := Ok(tys);
  }

  /** What the katakana plugin learns of one node. */
  method KindOf(t: UTF8InputText, n: LatticeNode) returns (r: Result<JoinKatakanaOovPlugins.Kind>)
    requires JoinKatakanaOovPlugins.WellFormed(t)
    ensures r.Ok? <==> KindKnown(t, n)
    ensures r.Ok? ==> JoinKatakanaOovPlugins.Observes(t, n, r.value)
  {
    if n.begin < 0 {
      return Err(OUT_OF_RANGE);
    }
    var katakana :- JoinKatakanaOovPlugins.IsKatakanaNode(t, n);
    var bow :- JoinKatakanaOovPlugins.CanOovBowNode(t, n);
    var oneChar :- JoinKatakanaOovPlugins.IsOneCharNode(t, n);
    r := Ok(JoinKatakanaOovPlugins.Kind(katakana, bow, n.isOov || (oneChar && bow)));
  }

  /** What the katakana plugin learns of every node, in path order. */
  method Kinds(t: UTF8InputText, path: seq<LatticeNode>) returns (r: Result<seq<JoinKatakanaOovPlugins.Kind>>)
    requires JoinKatakanaOovPlugins.WellFormed(t)
    ensures r.Ok? <==> forall k :: 0 <= k < |path| ==> KindKnown(t, path[k])
    ensures r.Ok? ==> JoinKatakanaOovPlugins.Observed(t, path, r.value)
  {
    var ks: seq<JoinKatakanaOovPlugins.Kind> := [];
    var k := 0;
    while k < |path|
      invariant k <= |path| && |ks| == k
      invariant forall j :: 0 <= j < k ==> KindKnown(t, path[j]) && JoinKatakanaOovPlugins.Observes(t, path[j], ks[j])
    {
      var d := KindOf(t, path[k]);
      if d.Err? {
        return Err(d.error);
      }
      ks := ks + [d.value];
      k := k + 1;
    }
    r := Ok(ks);
  }

  /** One path rewrite plugin's rewrite of `path`: an error when one of its
      queries has no answer or a group it would join holds a node whose
      word info cannot be read. */
  method RewriteWith(p: PathRewriter, t: UTF8InputText, path: seq<LatticeNode>)
    returns (r: Result<seq<LatticeNode>>, ghost q: Queried)
    requires p.JoinNumeric? ==> !p.numeric.joinAllNumeric
    requires p.JoinKatakanaOov? ==> p.katakana.oovPosId.Some?
    requires |t.byteIndexes| == |t.bytes| + 1
    ensures r.Ok? ==> Rewrote(p, t, path, q, r.value)
    ensures !Queryable(p, t, path) ==> r.Err?
  {
    match p
    case JoinNumeric(n) =>
      var tys := Categories(t, path);
      if tys.Err? {
        return Err(tys.error), CategoriesOf([]);
      }
      q := CategoriesOf(tys.value);
      r := n.Rewrite(t, path, Infos(path), tys.value);
    case JoinKatakanaOov(k) =>
      var ks := Kinds(t, path);
      if ks.Err? {
        return Err(ks.error), KindsOf([]);
      }
      q := KindsOf(ks.value);
      r := k.Rewrite(t, path, Infos(path), ks.value);
  }

  /** The nodes cover the bytes `0 .. size` one after another. */
  predicate Tiling(p: seq<LatticeNode>, size: int)
    reads p
  {
    Contiguous(p)
    && (p == [] ==> size == 0)
    && (p != [] ==> p[0].begin == 0 && p[|p| - 1].end == size)
  }

  /** One rewrite keeps a tiling of the text a tiling of the same bytes. */
  lemma RewroteTiles(p: PathRewriter, t: UTF8InputText, before: seq<LatticeNode>, q: Queried,
                     after: seq<LatticeNode>, size: int)
    requires Rewrote(p, t, before, q, after)
    ensures Tiling(before, size) ==> Tiling(after, size)
  {
    match p
    case JoinNumeric(n) =>
      TilesTiling(before, Infos(before), JoinNumericPlugins.NumericCuts(q.tys, n.joinKanjiNumeric), after, None, size);
    case JoinKatakanaOov(k) =>
      TilesTiling(before, Infos(before), JoinKatakanaOovPlugins.KatakanaCuts(q.ks), after, k.oovPosId, size);
  }

  lemma TilesTiling(o: seq<LatticeNode>, vs: seq<Result<WordInfo>>, cuts: seq<nat>, p: seq<LatticeNode>,
                    oovPosId: Option<nat>, size: int)
    requires Tiles(o, vs, cuts, p, oovPosId) && cuts[|cuts| - 1] == |o|
    ensures Tiling(o, size) ==> Tiling(p, size)
  {
    if Tiling(o, size) {
      TilesKeepSpan(o, vs, cuts, p, oovPosId);
    }
  }

  /** Each path rewrite plugin in turn rewrites the path, until one
      fails; a path that covers the bytes `0 .. size` one node after
      another still does after every rewrite. */
  method RewritePath(plugins: seq<PathRewriter>, t: UTF8InputText, path: seq<LatticeNode>, ghost size: int)
    returns (r: Result<seq<LatticeNode>>)
    requires forall p :: p in plugins && p.JoinNumeric? ==> !p.numeric.joinAllNumeric
    requires forall p :: p in plugins && p.JoinKatakanaOov? ==> p.katakana.oovPosId.Some?
    requires |t.byteIndexes| == |t.bytes| + 1
    ensures r.Ok? && Tiling(path, size) ==> Tiling(r.value, size)
    ensures plugins == [] ==> r == Ok(path)
  {
    var current := path;
    var k := 0;
    r := Ok(path);
    while k < |plugins| && r.Ok?
      invariant k <= |plugins| && (r.Ok? ==> r.value == current) && (k == 0 ==> r == Ok(path))
      invariant Tiling(path, size) ==> Tiling(current, size)
    {
      ghost var q;
      r, q := RewriteWith(plugins[k], t, current);
      if r.Ok? {
        RewroteTiles(plugins[k], t, current, q, r.value, size);
        current := r.value;
      }
      k := k + 1;
    }
  }

  // ---- splitting -----------------------------------------------------------------

  /** Splitting `n` for a mode reads its word info and, when the word has
      two or more units, places them. */
  ghost predicate Splittable(lexicon: LexiconSet, mode: SplitMode, n: LatticeNode)
    reads n
  {
    n.WordInfo().Ok?
    && var wids := SplitIds(mode, n.WordInfo().value);
       |wids| <= 1 || SplitSpans(lexicon, wids, n.begin).Ok?
  }

  /** The nodes a mode makes of `n`: `n` itself when its word has at most
      one unit, else one node per unit, placed from `n`'s begin. */
  ghost predicate SplitInto(lexicon: LexiconSet, mode: SplitMode, n: LatticeNode, piece: seq<LatticeNode>)
    reads n, piece
  {
    n.WordInfo().Ok?
    && var wids := SplitIds(mode, n.WordInfo().value);
       if |wids| <= 1 then piece == [n]
       else SplitSpans(lexicon, wids, n.begin).Ok? && SplitOf(piece, lexicon, wids, SplitSpans(lexicon, wids, n.begin).value)
  }

  /** Each node of `path`, in order, became its piece. */
  ghost predicate SplitAll(lexicon: LexiconSet, mode: SplitMode, path: seq<LatticeNode>, pieces: seq<seq<LatticeNode>>)
    reads path, set j, k | 0 <= j < |pieces| && 0 <= k < |pieces[j]| :: pieces[j][k]
    decreases |pieces|
  {
    |pieces| <= |path|
    && (|pieces| == 0
        || (SplitAll(lexicon, mode, path, pieces[..|pieces| - 1])
            && SplitInto(lexicon, mode, path[|pieces| - 1], pieces[|pieces| - 1])))
  }

  /** The nodes mode A or B makes of one node of the path. */
  method SplitNode(lexicon: LexiconSet, mode: SplitMode, n: LatticeNode) returns (r: Result<seq<LatticeNode>>)
    ensures r.Ok? <==> Splittable(lexicon, mode, n)
    ensures r.Ok? ==> SplitInto(lexicon, mode, n, r.value)
  {
    var info := n.GetWordInfo();
    if info.Err? {
      return Err(info.error);
    }
    var wids := SplitIds(mode, info.value);
    if |wids| == 0 || |wids| == 1 {
      return Ok([n]);
    }
    r := SplitNodes(lexicon, wids, n.begin);
  }

  /** Modes A and B: every node of the path in turn replaced by the nodes
      of its units, until one cannot be split. */
  method SplitPath(lexicon: LexiconSet, mode: SplitMode, path: seq<LatticeNode>)
    returns (r: Result<seq<LatticeNode>>, ghost pieces: seq<seq<LatticeNode>>)
    ensures r.Ok? <==> forall k :: 0 <= k < |path| ==> Splittable(lexicon, mode, path[k])
    ensures r.Ok? ==> |pieces| == |path| && r.value == Concat(pieces) && SplitAll(lexicon, mode, path, pieces)
  {
    var out: seq<LatticeNode> := [];
    pieces := [];
    var k := 0;
    while k < |path|
      invariant k <= |path| && |pieces| == k && out == Concat(pieces)
      invariant SplitAll(lexicon, mode, path, pieces)
    {
      var piece := SplitNode(lexicon, mode, path[k]);
      if piece.Err? {
        return Err(piece.error), pieces;
      }
      ghost var before := pieces;
      pieces := pieces + [piece.value];
      out := out + piece.value;
      k := k + 1;
      SplitAllSnoc(lexicon, mode, path, before, piece.value, pieces);
    }
    SplitAllSplittable(lexicon, mode, path, pieces);
    r := Ok(out);
  }

  /** A node that became its piece could be split. */
  lemma {:induction false} SplitAllSplittable(lexicon: LexiconSet, mode: SplitMode, path: seq<LatticeNode>,
                                              pieces: seq<seq<LatticeNode>>)
    requires SplitAll(lexicon, mode, path, pieces)
    ensures forall k :: 0 <= k < |pieces| ==> Splittable(lexicon, mode, path[k])
    decreases |pieces|
  {
    if pieces != [] {
      var n := |pieces| - 1;
      SplitAllSplittable(lexicon, mode, path, pieces[..n]);
      forall k | 0 <= k < |pieces|
        ensures Splittable(lexicon, mode, path[k])
      {
        if k == n {
          SplitIntoSplittable(lexicon, mode, path[n], pieces[n]);
        }
      }
    }
  }

  lemma SplitIntoSplittable(lexicon: LexiconSet, mode: SplitMode, n: LatticeNode, piece: seq<LatticeNode>)
    requires SplitInto(lexicon, mode, n, piece)
    ensures Splittable(lexicon, mode, n)
  {
  }

  lemma SplitAllSnoc(lexicon: LexiconSet, mode: SplitMode, path: seq<LatticeNode>, pieces: seq<seq<LatticeNode>>,
                     piece: seq<LatticeNode>, pieces': seq<seq<LatticeNode>>)
    requires SplitAll(lexicon, mode, path, pieces) && |pieces| < |path|
    requires SplitInto(lexicon, mode, path[|pieces|], piece) && pieces' == pieces + [piece]
    ensures SplitAll(lexicon, mode, path, pieces')
  {
    assert pieces'[..|pieces|] == pieces;
  }

  class Tokenizer {
    const grammar: Grammar
    /** The character categories the grammar carries. */
    const characterCategory: CharacterCategory
    const lexicon: LexiconSet
    const inputTextPlugins: seq<DefaultInputTextPlugins.DefaultInputTextPlugin>
    const oovProviderPlugins: seq<OovProvider>
    const pathRewritePlugins: seq<PathRewriter>
    const lattice: Lattice
    /** The last OOV provider; None where the constructor left the
        attribute unset, the list being empty. */
    const defaultOovProvider: Option<OovProvider>

    constructor(grammar: Grammar, characterCategory: CharacterCategory, lexicon: LexiconSet,
                inputTextPlugins: seq<DefaultInputTextPlugins.DefaultInputTextPlugin>,
                oovProviderPlugins: seq<OovProvider>, pathRewritePlugins: seq<PathRewriter>)
      ensures this.grammar == grammar && this.characterCategory == characterCategory && this.lexicon == lexicon
      ensures this.inputTextPlugins == inputTextPlugins && this.oovProviderPlugins == oovProviderPlugins
      ensures this.pathRewritePlugins == pathRewritePlugins
      ensures fresh(lattice) && lattice.Valid() && lattice.grammar == grammar
      ensures lattice.nodes == [lattice.bos] && lattice.eosNode == null
      ensures oovProviderPlugins != [] ==> defaultOovProvider == Some(oovProviderPlugins[|oovProviderPlugins| - 1])
      ensures oovProviderPlugins == [] ==> defaultOovProvider == None
    {
      this.grammar := grammar;
      this.characterCategory := characterCategory;
      this.lexicon := lexicon;
      this.inputTextPlugins := inputTextPlugins;
      this.oovProviderPlugins := oovProviderPlugins;
      this.pathRewritePlugins := pathRewritePlugins;
      lattice := new Lattice(grammar);
      if oovProviderPlugins != [] {
        defaultOovProvider := Some(oovProviderPlugins[|oovProviderPlugins| - 1]);
      } else {
        defaultOovProvider := None;
      }
    }

    /** The plugin objects whose settings the model reads. */
    ghost function Settings(): set<object>
      reads this
    {
      (set p | p in oovProviderPlugins && p.SimpleOov? :: p.simple)
      + (set p | p in pathRewritePlugins && p.JoinNumeric? :: p.numeric)
      + (set p | p in pathRewritePlugins && p.JoinKatakanaOov? :: p.katakana)
    }

    /** The default OOV provider is the last one, and the plugins are set
        up as the model's plugins need: the simple OOV
        plugins have read their settings, numeric joining keeps digits and
        kanji numerals apart, and the katakana plugin knows its part of
        speech. */
    ghost predicate Ready()
      reads this, Settings()
    {
      (oovProviderPlugins != [] ==> defaultOovProvider == Some(oovProviderPlugins[|oovProviderPlugins| - 1]))
      && (oovProviderPlugins == [] ==> defaultOovProvider == None)
      && (forall p :: p in oovProviderPlugins && p.SimpleOov? ==> p.simple.isSetUp)
      && (forall p :: p in pathRewritePlugins && p.JoinNumeric? ==> !p.numeric.joinAllNumeric)
      && (forall p :: p in pathRewritePlugins && p.JoinKatakanaOov? ==> p.katakana.oovPosId.Some?)
    }

    /** The lattice keeps its invariant. */
    ghost predicate Sound()
      reads this, lattice, lattice.nodes, lattice.eosNode
    {
      lattice.Valid()
    }

    ghost predicate Valid()
      reads this, Settings(), lattice, lattice.nodes, lattice.eosNode
    {
      Sound() && Ready()
    }

    /** The input text: the builder over `text`, rewritten by each input
        text plugin in turn, then built. */
    method PrepareInput(text: string) returns (r: Result<UTF8InputText>, ghost states: seq<(string, seq<int>)>)
      ensures RewriteTrace(inputTextPlugins, text, states)
      ensures var last := states[|states| - 1];
              var cats := CharCategories(characterCategory.rangeList, last.0);
              |last.1| == |last.0| + 1
              && (cats.Err? ==> r.Err?)
              && (cats.Ok? ==> r == Ok(BuiltText(text, last.0, last.1, cats.value)))
    {
      var builder := new UTF8InputTextBuilder(text, characterCategory);
      states := [(text, Indexes(|text| + 1))];
      for k := 0 to |inputTextPlugins|
        invariant fresh(builder) && builder.Valid()
        invariant builder.originalText == text && builder.characterCategory == characterCategory
        invariant |states| == k + 1 && states[k] == (builder.modifiedText, builder.textOffsets)
        invariant RewriteTrace(inputTextPlugins[..k], text, states)
      {
        ghost var before := states;
        inputTextPlugins[k].Rewrite(builder);
        states := states + [(builder.modifiedText, builder.textOffsets)];
        TraceSnoc(inputTextPlugins, k, text, before, states);
      }
      assert inputTextPlugins[..|inputTextPlugins|] == inputTextPlugins;
      r := builder.Build();
    }

    /** A node for each hit of the lookup at `i`, inserted in order; the
        ids and the cost of a word are read in that order, and the first
        read that fails stops the loop. */
    method InsertWords(i: nat, hits: seq<(nat, nat)>) returns (r: Result<()>, ghost added: seq<LatticeNode>)
      requires Sound() && i < |lattice.endLists|
      requires forall k :: 0 <= k < |hits| ==> hits[k].1 < |lattice.endLists|
      modifies lattice`endLists, lattice`nodes
      ensures Sound() && |lattice.endLists| == |old(lattice.endLists)|
      ensures lattice.nodes == old(lattice.nodes) + added && AllAt(added, i)
      ensures r.Ok? ==> WordNodes(ParametersOf(lexicon), lexicon, i, hits, added)
    {
      added := [];
      var k := 0;
      while k < |hits|
        invariant k <= |hits|
        invariant Sound() && |lattice.endLists| == |old(lattice.endLists)|
        invariant lattice.nodes == old(lattice.nodes) + added && AllAt(added, i)
        invariant WordNodes(ParametersOf(lexicon), lexicon, i, hits[..k], added)
      {
        var params := WordParameters(lexicon, hits[k].0);
        assert ParametersOf(lexicon)(hits[k].0) == params;
        if params.Err? {
          return Err(params.error), added;
        }
        var (left, right, cost) := params.value;
        ghost var n;
        r, n := PlaceHit(i, hits[k], left, right, cost);
        WordNodesSnoc(ParametersOf(lexicon), lexicon, i, hits, k, added, n, params.value);
        added := added + [n];
        if r.Err? {
          return r, added;
        }
        k := k + 1;
      }
      assert hits[..k] == hits;
      r := Ok(());
    }

    /** One hit whose word's left id, right id and cost were read: a node
        for it inserted over [i, end). */
    method PlaceHit(i: nat, hit: (nat, nat), left: nat, right: nat, cost: int)
      returns (r: Result<()>, ghost n: LatticeNode)
      requires Sound() && i < |lattice.endLists| && hit.1 < |lattice.endLists|
      modifies lattice`endLists, lattice`nodes
      ensures Sound() && |lattice.endLists| == |old(lattice.endLists)|
      ensures lattice.nodes == old(lattice.nodes) + [n] && fresh(n) && Made(n, lexicon, i, hit, (left, right, cost))
    {
      var node := new LatticeNode.ForWord(lexicon, left, right, cost, hit.0);
      r := lattice.Insert(i, hit.1, node);
      n := node;
    }

    /** The nodes of an OOV provider, each inserted over its own range,
        until an insertion fails. */
    method InsertOovs(i: nat, nodes: seq<LatticeNode>) returns (r: Result<()>, ghost added: seq<LatticeNode>)
      requires Sound() && i < |lattice.endLists|
      requires Pending(nodes, lattice.nodes, lattice.eosNode, i)
      modifies lattice`endLists, lattice`nodes, set n | n in nodes
      ensures Sound() && |lattice.endLists| == |old(lattice.endLists)|
      ensures lattice.nodes == old(lattice.nodes) + added && AllAt(added, i)
      ensures r.Ok? ==> added == nodes
    {
      added := [];
      r := Ok(());
      var k := 0;
      while k < |nodes| && r.Ok?
        invariant k <= |nodes| && |added| <= k && added == nodes[..|added|]
        invariant r.Ok? ==> |added| == k
        invariant Sound() && |lattice.endLists| == |old(lattice.endLists)|
        invariant lattice.nodes == old(lattice.nodes) + added && AllAt(added, i)
        invariant r.Ok? ==> Pending(nodes[k..], lattice.nodes, lattice.eosNode, i)
      {
        r, added := InsertNext(i, nodes, k, old(lattice.nodes), added);
        k := k + 1;
      }
    }

    /** One turn of InsertOovs' loop: the `k`-th node inserted. */
    method InsertNext(i: nat, nodes: seq<LatticeNode>, k: nat, ghost base: seq<LatticeNode>, ghost added: seq<LatticeNode>)
      returns (r: Result<()>, ghost added': seq<LatticeNode>)
      requires Sound() && i < |lattice.endLists| && k < |nodes| && added == nodes[..k]
      requires lattice.nodes == base + added && AllAt(added, i)
      requires Pending(nodes[k..], lattice.nodes, lattice.eosNode, i)
      modifies lattice`endLists, lattice`nodes, nodes[k]
      ensures Sound() && |lattice.endLists| == |old(lattice.endLists)|
      ensures lattice.nodes == base + added' && AllAt(added', i)
      ensures |added'| <= k + 1 && added' == nodes[..|added'|]
      ensures r.Ok? ==> |added'| == k + 1 && Pending(nodes[k + 1..], lattice.nodes, lattice.eosNode, i)
    {
      PendingNext(nodes[k..], lattice.nodes, lattice.eosNode, i);
      assert nodes[k..][1..] == nodes[k + 1..];
      ghost var listed := lattice.nodes + [nodes[k]];
      assert Pending(nodes[k + 1..], listed, lattice.eosNode, i);
      ghost var placed;
      r, placed := PlaceOov(i, nodes[k]);
      added' := added + placed;
      if placed == [] {
        assert added' == nodes[..k];
      } else {
        assert added' == nodes[..k + 1];
        assert lattice.nodes == listed;
      }
    }

    /** One OOV node inserted over its own range; an end past the last list
        is the IndexError of `end_lists[end]`, raised before anything
        changes. */
    method PlaceOov(i: nat, node: LatticeNode) returns (r: Result<()>, ghost placed: seq<LatticeNode>)
      requires Sound() && i < |lattice.endLists|
      requires node !in lattice.nodes && node != lattice.eosNode && Waiting(node, i)
      modifies lattice`endLists, lattice`nodes, node`begin, node`end
      modifies node`totalCost, node`bestPreviousNode, node`isConnectedToBos
      ensures Sound() && |lattice.endLists| == |old(lattice.endLists)|
      ensures lattice.nodes == old(lattice.nodes) + placed && node.begin == i
      ensures placed == [] || placed == [node]
      ensures r.Ok? ==> placed == [node]
    {
      if node.end < |lattice.endLists| {
        r := lattice.Insert(node.begin, node.end, node);
        placed := [node];
      } else {
        r := Err(OUT_OF_RANGE);
        placed := [];
      }
    }

    /** One OOV provider's get_oov at `i`, told whether words were found
        so far, and each node it gives inserted; once it gives a node,
        words are found. */
    method RunProvider(t: UTF8InputText, i: nat, p: OovProvider, hasWords: bool)
      returns (r: Result<()>, found: bool, ghost added: seq<LatticeNode>)
      requires Sound() && |t.byteIndexes| == |t.bytes| + 1 && i < |lattice.endLists|
      requires p.SimpleOov? ==> p.simple.isSetUp
      modifies lattice`endLists, lattice`nodes
      ensures Sound() && |lattice.endLists| == |old(lattice.endLists)|
      ensures lattice.nodes == old(lattice.nodes) + added && AllAt(added, i)
      ensures r.Ok? ==> (found <==> hasWords || added != [])
    {
      var nodes: seq<LatticeNode>;
      match p {
        case SimpleOov(q) =>
          var res := q.GetOov(t, i, hasWords);
          if res.Err? {
            return Err(res.error), hasWords, [];
          }
          nodes := res.value;
          assert Pending(nodes, lattice.nodes, lattice.eosNode, i);
        case MeCabOov(q) =>
          var res;
          ghost var order;
          res, order := q.GetOov(t, i, hasWords);
          if res.Err? {
            return Err(res.error), hasWords, [];
          }
          nodes := res.value;
          assert Pending(nodes, lattice.nodes, lattice.eosNode, i);
      }
      found := hasWords || nodes != [];
      r, added := InsertOovs(i, nodes);
    }

    /** Every OOV provider's get_oov at `i` in turn, each told whether words
        were found so far. */
    method RunProviders(t: UTF8InputText, i: nat, hasWords: bool)
      returns (r: Result<()>, found: bool, ghost added: seq<LatticeNode>)
      requires Sound() && Ready() && |t.byteIndexes| == |t.bytes| + 1 && i < |lattice.endLists|
      modifies lattice`endLists, lattice`nodes
      ensures Sound() && |lattice.endLists| == |old(lattice.endLists)|
      ensures lattice.nodes == old(lattice.nodes) + added && AllAt(added, i)
      ensures r.Ok? ==> (found <==> hasWords || added != [])
    {
      added := [];
      found := hasWords;
      r := Ok(());
      var k := 0;
      while k < |oovProviderPlugins| && r.Ok?
        invariant k <= |oovProviderPlugins|
        invariant Sound() && |lattice.endLists| == |old(lattice.endLists)|
        invariant lattice.nodes == old(lattice.nodes) + added && AllAt(added, i)
        invariant r.Ok? ==> (found <==> hasWords || added != [])
      {
        ghost var before := lattice.nodes;
        ghost var more;
        r, found, more := RunProvider(t, i, oovProviderPlugins[k], found);
        Extended(old(lattice.nodes), added, more, before, lattice.nodes, i);
        added := added + more;
        k := k + 1;
      }
    }

    /** The OOV part of a position: the providers unless the character at
        `i` forbids OOV words to begin there, then the default provider if
        still nothing was found, and an error if still nothing was. */
    method ExpandOovs(t: UTF8InputText, i: nat, hasWords: bool) returns (r: Result<()>, ghost added: seq<LatticeNode>)
      requires Sound() && Ready() && |t.byteIndexes| == |t.bytes| + 1 && i < |lattice.endLists|
      modifies lattice`endLists, lattice`nodes
      ensures Sound() && |lattice.endLists| == |old(lattice.endLists)|
      ensures lattice.nodes == old(lattice.nodes) + added && AllAt(added, i)
      ensures r.Ok? ==> hasWords || added != []
      ensures !hasWords && added == [] ==> r.Err?
      ensures CharCategoryTypesAt(t, i).Err? ==> r == Err(CharCategoryTypesAt(t, i).error) && added == []
      ensures CharCategoryTypesAt(t, i).Ok? && NOOOVBOW in CharCategoryTypesAt(t, i).value && !hasWords ==>
                (defaultOovProvider.None? ==> r == Err(NO_DEFAULT))
    {
      added := [];
      var found := hasWords;
      var types := CharCategoryTypesAt(t, i);
      if types.Err? {
        return Err(types.error), added;
      }
      if NOOOVBOW !in types.value {
        r, found, added := RunProviders(t, i, found);
        if r.Err? {
          return;
        }
      }
      if !found {
        if defaultOovProvider.None? {
          return Err(NO_DEFAULT), added;
        }
        ghost var before := lattice.nodes;
        ghost var more;
        r, found, more := RunProvider(t, i, defaultOovProvider.value, found);
        Extended(old(lattice.nodes), added, more, before, lattice.nodes, i);
        added := added + more;
        if r.Err? {
          return;
        }
      }
      if !found {
        return Err(NoMorphemeAt(i)), added;
      }
      r := Ok(());
    }

    /** One byte position `i` of the lattice: skipped unless a character
        begins there and some node ends there; otherwise expanded. */
    method ExpandAt(t: UTF8InputText, i: nat)
      returns (r: Result<()>, hits: seq<(nat, nat)>, ghost words: seq<LatticeNode>, ghost added: seq<LatticeNode>)
      requires Sound() && Ready() && |t.byteIndexes| == |t.bytes| + 1 && i < |t.bytes| < |lattice.endLists|
      modifies lattice`endLists, lattice`nodes
      ensures Sound() && |lattice.endLists| == |old(lattice.endLists)|
      ensures lattice.nodes == old(lattice.nodes) + added && AllAt(added, i)
      ensures IsCharAlignment(t, i) == Ok(false) || old(lattice.endLists[i]) == [] ==>
                r == Ok(()) && added == [] && lattice.endLists == old(lattice.endLists)
      ensures IsCharAlignment(t, i) == Ok(true) && old(lattice.endLists[i]) != [] && r.Ok? ==>
                added != [] && words <= added && Found(t, i, hits)
                && WordNodes(ParametersOf(lexicon), lexicon, i, hits, words)
    {
      var aligned := IsCharAlignment(t, i);
      var previous := lattice.HasPreviousNode(i);
      if aligned.value && previous.value {
        r, hits, words, added := Expand(t, i);
      } else {
        r, hits, words, added := Ok(()), [], [], [];
      }
    }

    /** `hits` are what the only lexicon finds at `i`. */
    ghost predicate Found(t: UTF8InputText, i: nat, hits: seq<(nat, nat)>)
      reads this, lexicon, set l | l in lexicon.lexicons :: l.trie
    {
      |lexicon.lexicons| == 1
      && LookupResult(lexicon.lexicons[0].trie.units, lexicon.lexicons[0].wordIdTable, t.bytes, i) == Ok(hits)
    }

    /** The lexicon's lookup at `i`: each hit ends inside the text, past `i`. */
    method LookupAt(t: UTF8InputText, i: nat) returns (r: Result<seq<(nat, nat)>>)
      ensures r.Ok? ==> Found(t, i, r.value) && forall k :: 0 <= k < |r.value| ==> i < r.value[k].1 <= |t.bytes|
    {
      r := lexicon.Lookup(t.bytes, i);
      if r.Ok? {
        LookupEnds(lexicon.lexicons[0].trie.units, lexicon.lexicons[0].wordIdTable, t.bytes, i);
      }
    }

    /** A position where a character begins and some node ends: a node for
        each word the lexicon finds at `i`, then the OOV words. */
    method Expand(t: UTF8InputText, i: nat)
      returns (r: Result<()>, hits: seq<(nat, nat)>, ghost words: seq<LatticeNode>, ghost added: seq<LatticeNode>)
      requires Sound() && Ready() && |t.byteIndexes| == |t.bytes| + 1 && i < |t.bytes| < |lattice.endLists|
      modifies lattice`endLists, lattice`nodes
      ensures Sound() && |lattice.endLists| == |old(lattice.endLists)|
      ensures lattice.nodes == old(lattice.nodes) + added && AllAt(added, i)
      ensures r.Ok? ==> added != [] && words <= added
      ensures r.Ok? ==> WordNodes(ParametersOf(lexicon), lexicon, i, hits, words)
      ensures r.Ok? ==> Found(t, i, hits)
    {
      hits, words, added := [], [], [];
      var found := LookupAt(t, i);
      if found.Err? {
        return Err(found.error), hits, words, added;
      }
      hits := found.value;
      r, words := InsertWords(i, hits);
      added := words;
      if r.Ok? {
        ghost var before := lattice.nodes;
        ghost var more;
        r, more := ExpandOovs(t, i, |hits| > 0);
        Extended(old(lattice.nodes), words, more, before, lattice.nodes, i);
        added := words + more;
      }
    }

    /** The lattice over the bytes of `t`: resized to their count, then
        each position expanded in turn until one fails. `reached[j]` is
        whether some node ended at `j` when `j` came up, `byPosition[j]`
        the nodes inserted there. */
    method BuildLattice(t: UTF8InputText)
      returns (r: Result<()>, ghost reached: seq<bool>, ghost byPosition: seq<seq<LatticeNode>>)
      requires Sound() && Ready() && |t.byteIndexes| == |t.bytes| + 1
      modifies lattice
      ensures Sound() && lattice.size == |t.bytes| && lattice.eosNode != null && fresh(lattice.eosNode)
      ensures lattice.nodes == old(lattice.nodes) + Concat(byPosition) && Placed(byPosition)
      ensures r.Ok? ==> |byPosition| == |t.bytes| && Expanded(t, reached, byPosition, |byPosition|)
      ensures r.Err? ==> 0 < |byPosition| && Expanded(t, reached, byPosition, |byPosition| - 1)
    {
      lattice.Resize(|t.bytes|);
      assert |t.bytes| < |lattice.endLists| by {
        assert lattice.Shape();
      }
      r, reached, byPosition := ExpandAll(t);
    }

    /** tokenize: no tokens for an empty text; otherwise the text rewritten
        by the input text plugins and built, the lattice built over its
        bytes and solved, then cleared, and the best path without EOS
        rewritten and split. An error of any stage is passed on, and the
        lattice is then left as that stage left it. */
    method Tokenize(mode: SplitMode, text: string)
      returns (r: Result<Tokens>, ghost states: seq<(string, seq<int>)>, ghost input: UTF8InputText,
               ghost path: seq<LatticeNode>, ghost rewritten: seq<LatticeNode>, ghost pieces: seq<seq<LatticeNode>>)
      requires Valid()
      modifies lattice
      ensures Valid()
      ensures text == [] ==> r == Ok(NoTokens)
      ensures r.Ok? && text != [] ==>
                Prepared(inputTextPlugins, text, states, input)
                && r.value.Tokens? && fresh(r.value.list) && r.value.list.grammar == grammar
                && lattice.size == 0 && lattice.eosNode == null
                && (forall n :: n in path ==> n in lattice.nodes)
                && Tiling(path, |input.bytes|)
                && Analysed(lexicon, pathRewritePlugins, mode, input, path, rewritten, pieces, r.value.list)
    {
      states, input := [], UTF8InputText(text, text, [], [], [], [], []);
      path, rewritten, pieces := [], [], [];
      if text == [] {
        r := Ok(NoTokens);
        return;
      }
      var prepared;
      prepared, states := Prepare(text);
      if prepared.Err? {
        r := Err(prepared.error);
        return;
      }
      var t := prepared.value;
      input := t;
      var list;
      list, path, rewritten, pieces := Analyse(mode, t);
      if list.Err? {
        return Err(list.error), states, input, path, rewritten, pieces;
      }
      r := Ok(Tokens(list.value));
    }

    /** The lattice over `t` built, solved and cleared, and its best path
        rewritten and split into the morpheme list. */
    method Analyse(mode: SplitMode, t: UTF8InputText)
      returns (r: Result<MorphemeList>, ghost path: seq<LatticeNode>, ghost rewritten: seq<LatticeNode>,
               ghost pieces: seq<seq<LatticeNode>>)
      requires Valid() && |t.byteIndexes| == |t.bytes| + 1
      modifies lattice
      ensures Valid()
      ensures r.Ok? ==>
                fresh(r.value) && r.value.grammar == grammar
                && lattice.size == 0 && lattice.eosNode == null
                && (forall n :: n in path ==> n in lattice.nodes)
                && Tiling(path, |t.bytes|)
                && Analysed(lexicon, pathRewritePlugins, mode, t, path, rewritten, pieces, r.value)
    {
      path, rewritten, pieces := [], [], [];
      var best;
      ghost var solved;
      best, solved := Solve(t);
      if best.Err? {
        return Err(best.error), [], [], [];
      }
      path := best.value;
      r, rewritten, pieces := Finish(mode, t, best.value);
    }

    /** The input text prepared from `text`, with a byte index for every
        byte and one for the end. */
    method Prepare(text: string) returns (r: Result<UTF8InputText>, ghost states: seq<(string, seq<int>)>)
      ensures RewriteTrace(inputTextPlugins, text, states)
      ensures r.Ok? ==> Prepared(inputTextPlugins, text, states, r.value) && |r.value.byteIndexes| == |r.value.bytes| + 1
    {
      r, states := PrepareInput(text);
      if r.Ok? {
        ghost var last := states[|states| - 1];
        BuiltTextIndexed(text, last.0, last.1, CharCategories(characterCategory.rangeList, last.0).value);
      }
    }

    /** The lattice built over `t` and solved: its best path without EOS
        tiles the bytes with nodes of the lattice; the lattice is then
        cleared. */
    method Solve(t: UTF8InputText) returns (r: Result<seq<LatticeNode>>, ghost best: seq<LatticeNode>)
      requires Valid() && |t.byteIndexes| == |t.bytes| + 1
      modifies lattice
      ensures Valid()
      ensures r.Ok? ==>
                |best| >= 1 && r.value == best[..|best| - 1] && Tiling(r.value, |t.bytes|)
                && best[|best| - 1].begin == |t.bytes|
                && (forall n :: n in r.value ==> n in lattice.nodes)
                && lattice.size == 0 && lattice.eosNode == null
    {
      var found := Search(t);
      if found.Err? {
        return Err(found.error), [];
      }
      var p := found.value;
      best := p;
      lattice.Clear();
      r := Ok(p[..|p| - 1]);
    }

    /** The lattice built over `t` and its best path found, which without
        EOS tiles the bytes. */
    method Search(t: UTF8InputText) returns (r: Result<seq<LatticeNode>>)
      requires Valid() && |t.byteIndexes| == |t.bytes| + 1
      modifies lattice
      ensures Valid()
      ensures r.Ok? ==>
                lattice.BestPath(r.value) && lattice.size == |t.bytes| && Tiling(r.value[..|r.value| - 1], |t.bytes|)
    {
      var built;
      ghost var reached, byPosition;
      built, reached, byPosition := BuildLattice(t);
      if built.Err? {
        return Err(built.error);
      }
      r := lattice.GetBestPath();
      if r.Ok? {
        assert lattice.EosLinked();
        BestTiles(r.value, |t.bytes|);
      }
    }

    /** The path rewritten by each path rewrite plugin in turn and, for
        modes A and B, its words split; the morpheme list over the result. */
    method Finish(mode: SplitMode, t: UTF8InputText, path: seq<LatticeNode>)
      returns (r: Result<MorphemeList>, ghost rewritten: seq<LatticeNode>, ghost pieces: seq<seq<LatticeNode>>)
      requires Ready() && |t.byteIndexes| == |t.bytes| + 1
      ensures r.Ok? ==>
                fresh(r.value) && r.value.grammar == grammar
                && Analysed(lexicon, pathRewritePlugins, mode, t, path, rewritten, pieces, r.value)
    {
      var joined := RewritePath(pathRewritePlugins, t, path, |t.bytes|);
      if joined.Err? {
        return Err(joined.error), [], [];
      }
      var final := joined.value;
      rewritten := final;
      pieces := [];
      if mode != C {
        var split;
        split, pieces := SplitPath(lexicon, mode, final);
        if split.Err? {
          return Err(split.error), rewritten, pieces;
        }
        final := split.value;
      }
      var list := new MorphemeList(t, grammar, lexicon, final);
      r := Ok(list);
    }

    /** What the loop of ExpandAll needs of one position: the nodes
        inserted there, present exactly when a character begins there and
        some node ends there. */
    method ExpandPosition(t: UTF8InputText, i: nat) returns (r: Result<()>, ghost added: seq<LatticeNode>)
      requires Sound() && Ready() && |t.byteIndexes| == |t.bytes| + 1 && i < |t.bytes| < |lattice.endLists|
      modifies lattice`endLists, lattice`nodes
      ensures Sound() && |lattice.endLists| == |old(lattice.endLists)|
      ensures lattice.nodes == old(lattice.nodes) + added && AllAt(added, i)
      ensures r.Ok? ==> (added != [] <==> IsCharAlignment(t, i) == Ok(true) && old(lattice.endLists[i]) != [])
    {
      var hits;
      ghost var words;
      r, hits, words, added := ExpandAt(t, i);
    }

    /** Each position of a resized lattice expanded in turn until one
        fails. */
    method ExpandAll(t: UTF8InputText)
      returns (r: Result<()>, ghost reached: seq<bool>, ghost byPosition: seq<seq<LatticeNode>>)
      requires Sound() && Ready() && |t.byteIndexes| == |t.bytes| + 1
      requires lattice.size == |t.bytes| < |lattice.endLists| && lattice.eosNode != null
      modifies lattice`endLists, lattice`nodes
      ensures Sound() && |t.bytes| < |lattice.endLists|
      ensures lattice.nodes == old(lattice.nodes) + Concat(byPosition) && Placed(byPosition)
      ensures r.Ok? ==> |byPosition| == |t.bytes| && Expanded(t, reached, byPosition, |byPosition|)
      ensures r.Err? ==> 0 < |byPosition| && Expanded(t, reached, byPosition, |byPosition| - 1)
    {
      r, reached, byPosition := Ok(()), [], [];
      var i := 0;
      while i < |t.bytes| && r.Ok?
        invariant i == |byPosition| <= |t.bytes|
        invariant Sound() && |t.bytes| < |lattice.endLists|
        invariant lattice.nodes == old(lattice.nodes) + Concat(byPosition)
        invariant Placed(byPosition)
        invariant r.Ok? ==> Expanded(t, reached, byPosition, i)
        invariant r.Err? ==> 0 < i && Expanded(t, reached, byPosition, i - 1)
      {
        ghost var before, reached0, byPosition0, n := lattice.nodes, reached, byPosition, i;
        ghost var flag := lattice.endLists[i] != [];
        ghost var added;
        r, added := ExpandPosition(t, i);
        reached, byPosition := reached + [flag], byPosition + [added];
        i := i + 1;
        Appended(old(lattice.nodes), byPosition0, added, before, lattice.nodes, byPosition);
        ExpandedNext(t, reached0, byPosition0, n, flag, added, r.Ok?, reached, byPosition, i);
      }
    }

  }

  /** What tokenize promises of the morpheme list `list` over `t`: the
      path plugins turn the best path `path` into `rewritten`, still a
      tiling of the bytes where `path` is one, and the list holds
      `rewritten` as it is for mode C and with its words split into
      `pieces` for modes A and B. */
  ghost predicate Analysed(lexicon: LexiconSet, plugins: seq<PathRewriter>, mode: SplitMode, t: UTF8InputText,
                           path: seq<LatticeNode>, rewritten: seq<LatticeNode>, pieces: seq<seq<LatticeNode>>,
                           list: MorphemeList)
    reads path, rewritten, set j, k | 0 <= j < |pieces| && 0 <= k < |pieces[j]| :: pieces[j][k]
  {
    list.inputText == t && list.lexicon == lexicon
    && (Tiling(path, |t.bytes|) ==> Tiling(rewritten, |t.bytes|))
    && (plugins == [] ==> rewritten == path)
    && (mode == C ==> list.path == rewritten)
    && (mode != C ==> |pieces| == |rewritten| && list.path == Concat(pieces) && SplitAll(lexicon, mode, rewritten, pieces))
  }

  /** A best path ends at EOS, which begins at the end of the bytes:
      without it, the path tiles the bytes. */
  lemma BestTiles(p: seq<LatticeNode>, size: int)
    requires |p| >= 1 && p[0].begin == 0 && p[|p| - 1].begin == size
    requires forall i :: 0 < i < |p| ==> p[i].begin == p[i - 1].end
    ensures Tiling(p[..|p| - 1], size)
  {
  }

  /** The nodes of each position in turn. */
  ghost function Concat(ss: seq<seq<LatticeNode>>): seq<LatticeNode>
  {
    if ss == [] then [] else Concat(ss[..|ss| - 1]) + ss[|ss| - 1]
  }

  lemma Appended(start: seq<LatticeNode>, ss: seq<seq<LatticeNode>>, b: seq<LatticeNode>,
                 mid: seq<LatticeNode>, end: seq<LatticeNode>, ss': seq<seq<LatticeNode>>)
    requires mid == start + Concat(ss) && end == mid + b && ss' == ss + [b]
    ensures end == start + Concat(ss')
  {
    assert (ss + [b])[..|ss|] == ss;
  }

  /** The first `n` positions were expanded as the text and the lattice
      asked: nodes were inserted at a position exactly when a character
      begins there and some node ended there. */
  ghost predicate Expanded(t: UTF8InputText, reached: seq<bool>, byPosition: seq<seq<LatticeNode>>, n: nat)
  {
    n <= |byPosition| == |reached| <= |t.bytes|
    && forall j :: 0 <= j < n ==> (byPosition[j] != [] <==> IsCharAlignment(t, j) == Ok(true) && reached[j])
  }

  /** Every position's nodes begin there. */
  ghost predicate Placed(byPosition: seq<seq<LatticeNode>>)
    reads set j, k | 0 <= j < |byPosition| && 0 <= k < |byPosition[j]| :: byPosition[j][k]
  {
    forall j :: 0 <= j < |byPosition| ==> AllAt(byPosition[j], j)
  }

  lemma ExpandedNext(t: UTF8InputText, reached: seq<bool>, byPosition: seq<seq<LatticeNode>>, n: nat,
                     flag: bool, added: seq<LatticeNode>, done: bool,
                     reached': seq<bool>, byPosition': seq<seq<LatticeNode>>, n': nat)
    requires n == |byPosition| < |t.bytes| && Expanded(t, reached, byPosition, n)
    requires done ==> (added != [] <==> IsCharAlignment(t, n) == Ok(true) && flag)
    requires Placed(byPosition) && AllAt(added, n)
    requires reached' == reached + [flag] && byPosition' == byPosition + [added] && n' == n + 1
    ensures Placed(byPosition') && n' == |byPosition'| <= |t.bytes|
    ensures done ==> Expanded(t, reached', byPosition', n')
    ensures !done ==> 0 < n' && Expanded(t, reached', byPosition', n' - 1)
  {
  }

  lemma TraceSnoc(plugins: seq<DefaultInputTextPlugins.DefaultInputTextPlugin>, k: nat, text: string,
                  before: seq<(string, seq<int>)>, after: seq<(string, seq<int>)>)
    requires k < |plugins| && RewriteTrace(plugins[..k], text, before)
    requires |before[k].0| < |before[k].1|
    requires after == before + [RewriteStep(plugins[k], before[k].0, before[k].1)]
    ensures RewriteTrace(plugins[..k + 1], text, after)
  {
  }
}
