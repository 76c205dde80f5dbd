/** A node of the lattice: a candidate word over a byte range, its
    connection parameters, and the state the shortest-path search keeps on
    it.  Nodes are mutable records shared between the lattice, the best
    path and the plugins. */
module LatticeNodes {
  import opened Wrappers
  import opened WordInfoLists
  import opened LexiconSets

  /** A path cost: connect_node starts a node from `float('inf')`, the
      only float of the analyser. */
  datatype Cost = Finite(value: int) | Infinity

  /** `c + d` with `inf + d == inf`. */
  function AddCost(c: Cost, d: int): (r: Cost)
    ensures r.Infinity? <==> c.Infinity?
    ensures c.Finite? ==> r.value == c.value + d
  {
    match c
    case Finite(v) => Finite(v + d)
    case Infinity => Infinity
  }

  /** `a < b` on costs: nothing is below a finite cost but smaller finite
      costs, and infinity is below nothing. */
  predicate Less(a: Cost, b: Cost)
  {
    a.Finite? && (b.Infinity? || a.value < b.value)
  }

  lemma LessIsStrictOrder(a: Cost, b: Cost, c: Cost)
    ensures !Less(a, a)
    ensures Less(a, b) ==> !Less(b, a)
    ensures Less(a, b) && Less(b, c) ==> Less(a, c)
    ensures a != b ==> Less(a, b) || Less(b, a)
  {
  }

  /** The message get_word_info raises for a node with neither a word id
      nor its own word info. */
  const NO_WORD_INFO: Error := IndexError("this node has no WordInfo")

  class LatticeNode {
    var begin: int
    var end: int
    var totalCost: Cost
    var bestPreviousNode: LatticeNode?
    /** None (never connected) reads as false. */
    var isConnectedToBos: bool
    /** The instance field set in the constructor; it shadows the method
        of the same name, so the field is what every caller reads. */
    var isOov: bool
    var extraWordInfo: Option<WordInfo>
    /** Whether the attributes left_id, right_id and cost exist: the
        constructor without arguments leaves them unset until
        set_parameter. */
    var hasParameter: bool
    var leftId: int
    var rightId: int
    var cost: int
    /** null where the constructor without arguments left the attribute
        unset. */
    const lexicon: LexiconSet?
    var wordId: int

    /** The constructor without arguments: word id -1, range [0, 0),
        total cost 0, not OOV, no word info. */
    constructor()
      ensures begin == 0 && end == 0 && totalCost == Finite(0) && bestPreviousNode == null
      ensures !isConnectedToBos && !isOov && extraWordInfo == None
      ensures !hasParameter && lexicon == null && wordId == -1
    {
      begin, end := 0, 0;
      totalCost := Finite(0);
      bestPreviousNode := null;
      isConnectedToBos := false;
      isOov := false;
      extraWordInfo := None;
      hasParameter := false;
      leftId, rightId, cost := 0, 0, 0;
      lexicon := null;
      wordId := -1;
    }

    /** The constructor for a dictionary word: its lexicon, parameters and
        word id. */
    constructor ForWord(lexicon: LexiconSet, leftId: int, rightId: int, cost: int, wordId: int)
      ensures begin == 0 && end == 0 && totalCost == Finite(0) && bestPreviousNode == null
      ensures !isConnectedToBos && !isOov && extraWordInfo == None
      ensures hasParameter && this.leftId == leftId && this.rightId == rightId && this.cost == cost
      ensures this.lexicon == lexicon && this.wordId == wordId
    {
      begin, end := 0, 0;
      totalCost := Finite(0);
      bestPreviousNode := null;
      isConnectedToBos := false;
      isOov := false;
      extraWordInfo := None;
      hasParameter := true;
      this.leftId, this.rightId, this.cost := leftId, rightId, cost;
      this.lexicon := lexicon;
      this.wordId := wordId;
    }

    method SetParameter(leftId: int, rightId: int, cost: int)
      modifies this`hasParameter, this`leftId, this`rightId, this`cost
      ensures hasParameter && this.leftId == leftId && this.rightId == rightId && this.cost == cost
    {
      hasParameter := true;
      this.leftId, this.rightId, this.cost := leftId, rightId, cost;
    }

    method SetRange(begin: int, end: int)
      modifies this`begin, this`end
      ensures this.begin == begin && this.end == end
    {
      this.begin, this.end := begin, end;
    }

    method SetOov()
      modifies this`isOov
      ensures isOov
    {
      isOov := true;
    }

    /** What get_word_info returns: the lexicon's entry for a word id of
        at least 0, else the node's own word info, else IndexError. */
    function WordInfo(): (r: Result<WordInfo>)
      reads this`wordId, this`extraWordInfo
      ensures wordId >= 0 && lexicon != null ==> r == lexicon.WordInfoAt(wordId)
      ensures wordId >= 0 && lexicon == null ==> r.Err? && r.error.AttributeError?
      ensures wordId < 0 && extraWordInfo.Some? ==> r == Ok(extraWordInfo.value)
      ensures wordId < 0 && extraWordInfo.None? ==> r == Err(NO_WORD_INFO)
    {
      InfoOf(lexicon, wordId, extraWordInfo)
    }

    method GetWordInfo() returns (r: Result<WordInfo>)
      ensures r == WordInfo()
    {
      if wordId >= 0 {
        if lexicon == null {
          return Err(AttributeError("'LatticeNode' object has no attribute 'lexicon'"));
        }
        r := lexicon.GetWordInfo(wordId);
      } else if extraWordInfo.Some? {
        r := Ok(extraWordInfo.value);
      } else {
        r := Err(NO_WORD_INFO);
      }
    }

    /** set_word_info stores the info and drops the word id, so the node
        answers with exactly that info from then on. */
    method SetWordInfo(wordInfo: WordInfo)
      modifies this`extraWordInfo, this`wordId
      ensures extraWordInfo == Some(wordInfo) && wordId == -1
      ensures WordInfo() == Ok(wordInfo)
    {
      extraWordInfo := Some(wordInfo);
      wordId := -1;
    }

    /** get_path_cost: the node's own cost, not its total cost;
        AttributeError before any parameter was set. */
    function GetPathCost(): (r: Result<int>)
      reads this`hasParameter, this`cost
      ensures hasParameter ==> r == Ok(cost)
      ensures !hasParameter ==> r.Err? && r.error.AttributeError?
    {
      if hasParameter then Ok(cost) else Err(AttributeError("'LatticeNode' object has no attribute 'cost'"))
    }

    /** get_dictionary_id: the word id shifted right by 28, which floors,
        so every synthesized node (word id -1) answers -1. */
    function GetDictionaryId(): (d: int)
      reads this`wordId
      ensures wordId >= 0 ==> d >= 0 && d * WORD_ID_RANGE <= wordId < (d + 1) * WORD_ID_RANGE
      ensures -0x1000_0000 <= wordId < 0 ==> d == -1
    {
      LexiconSets.GetDictionaryId(wordId)
    }
  }

  /** get_word_info over the three attributes it reads. */
  function InfoOf(lexicon: LexiconSet?, wordId: int, extraWordInfo: Option<WordInfo>): (r: Result<WordInfo>)
  {
    if wordId >= 0 then
      if lexicon == null then Err(AttributeError("'LatticeNode' object has no attribute 'lexicon'"))
      else lexicon.WordInfoAt(wordId)
    else if extraWordInfo.Some? then Ok(extraWordInfo.value)
    else Err(NO_WORD_INFO)
  }

  /** The word info both OOV plugins give a node over `surface`: the
      surface is also its normalized and dictionary form, it has no reading,
      no dictionary-form word and no splits. */
  function OovWordInfo(surface: string, length: nat, posId: nat): (r: WordInfo)
  {
    WordInfo(surface, length, posId, surface, -1, surface, "", [], [], [])
  }

  /** An OOV node with the given parameters carrying `info` as its own
      word info. */
  predicate IsOovNode(n: LatticeNode, leftId: int, rightId: int, cost: int, info: WordInfo)
    reads n
  {
    n.isOov && n.hasParameter && n.leftId == leftId && n.rightId == rightId && n.cost == cost
    && n.wordId == -1 && n.extraWordInfo == Some(info)
  }

  /** A node as the constructor leaves it: over [0, 0), not connected. */
  predicate Unplaced(n: LatticeNode)
    reads n
  {
    n.begin == 0 && n.end == 0 && !n.isConnectedToBos && n.bestPreviousNode == null
  }

  /** create_node of the OOV plugins (a new node marked OOV), followed by
      set_parameter and set_word_info. */
  method NewOovNode(leftId: int, rightId: int, cost: int, info: WordInfo) returns (n: LatticeNode)
    ensures fresh(n) && IsOovNode(n, leftId, rightId, cost, info) && Unplaced(n)
    ensures n.WordInfo() == Ok(info)
  {
    n := new LatticeNode();
    n.SetOov();
    n.SetParameter(leftId, rightId, cost);
    n.SetWordInfo(info);
  }

  /** The word info of every node, in order. */
  function Infos(nodes: seq<LatticeNode>): (r: seq<Result<WordInfo>>)
    reads nodes
    ensures |r| == |nodes| && forall j :: 0 <= j < |nodes| ==> r[j] == nodes[j].WordInfo()
  {
    seq(|nodes|, j requires 0 <= j < |nodes| reads nodes => nodes[j].WordInfo())
  }

  /** The loop of get_oov: every node is placed at `offset`, ending its head
      word length later; a node without word info raises. */
  method PlaceNodes(nodes: seq<LatticeNode>, offset: int) returns (r: Result<()>)
    modifies nodes`begin, nodes`end
    ensures r.Ok? <==> forall n :: n in nodes ==> n.WordInfo().Ok?
    ensures r.Ok? ==> forall n :: n in nodes ==>
                        n.begin == offset && n.end == offset + n.WordInfo().value.headWordLength
  {
    ghost var infos := Infos(nodes);
    var i := 0;
    while i < |nodes|
      invariant i <= |nodes|
      invariant forall j :: 0 <= j < i ==>
                  infos[j].Ok? && nodes[j].begin == offset && nodes[j].end == offset + infos[j].value.headWordLength
    {
      var n := nodes[i];
      n.begin := offset;
      var info := n.GetWordInfo();
      if info.Err? {
        return Err(info.error);
      }
      assert info == infos[i];
      n.end := offset + info.value.headWordLength;
      forall j | 0 <= j <= i
        ensures infos[j].Ok? && nodes[j].begin == offset && nodes[j].end == offset + infos[j].value.headWordLength
      {
        if nodes[j] == n {
          assert infos[j] == infos[i];
        }
      }
      i := i + 1;
    }
    r := Ok(());
  }
}
