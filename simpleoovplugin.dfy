/** The simple OOV provider: where no dictionary word starts at a byte, it
    offers one unknown word made of the single character there, with fixed
    connection parameters and the part of speech 補助記号,一般. */
module SimpleOovPlugins {
  import opened Wrappers
  import opened Grammars
  import opened InputTexts
  import opened LatticeNodes

  const OOV_LEFT_ID: int := 5968
  const OOV_RIGHT_ID: int := 5968
  const OOV_COST: int := 3857
  const OOV_POS: seq<string> := ["補助記号", "一般", "*", "*", "*", "*"]

  class SimpleOovPlugin {
    var leftId: int
    var rightId: int
    var cost: int
    var oovPosId: nat
    /** Whether set_up got as far as the part-of-speech id; before that the
        attribute does not exist. */
    var isSetUp: bool

    constructor()
      ensures !isSetUp
    {
      isSetUp := false;
    }

    /** set_up: the fixed parameters, and the id of the OOV part of speech,
        whose absence from the grammar raises ValueError. */
    method SetUp(grammar: Grammar) returns (r: Result<()>)
      modifies this
      ensures leftId == OOV_LEFT_ID && rightId == OOV_RIGHT_ID && cost == OOV_COST
      ensures r.Ok? <==> OOV_POS in grammar.posList
      ensures r.Err? ==> r.error.ValueError? && isSetUp == old(isSetUp)
      ensures r.Ok? ==> isSetUp && oovPosId < |grammar.posList| && grammar.posList[oovPosId] == OOV_POS
    {
      leftId, rightId, cost := OOV_LEFT_ID, OOV_RIGHT_ID, OOV_COST;
      var id :- GetPartOfSpeechId(grammar, OOV_POS);
      oovPosId := id;
      isSetUp := true;
      r := Ok(());
    }

    /** provide_oov: nothing when other words start here; otherwise one new
        OOV node whose word is the character at `offset`, which raises
        IndexError past the end of the text. */
    method ProvideOov(t: UTF8InputText, offset: nat, hasOtherWords: bool) returns (r: Result<seq<LatticeNode>>)
      requires isSetUp && |t.byteIndexes| == |t.bytes| + 1
      ensures hasOtherWords ==> r == Ok([])
      ensures !hasOtherWords ==> (r.Ok? <==> offset <= |t.bytes|)
      ensures !hasOtherWords && r.Ok? ==>
                var len := CodePointsOffsetLength(t, offset, 1).value;
                var s := GetSubstring(t, offset, offset + len).value;
                |r.value| == 1 && fresh(r.value[0]) && Unplaced(r.value[0])
                && IsOovNode(r.value[0], leftId, rightId, cost, OovWordInfo(s, len, oovPosId))
    {
      if hasOtherWords {
        return Ok([]);
      }
      CodePointsOffsetLengthSpans(t, offset, 1);
      var length :- GetCodePointsOffsetLength(t, offset, 1);
      var s := GetSubstring(t, offset, offset + length).value;
      var node := NewOovNode(leftId, rightId, cost, OovWordInfo(s, length, oovPosId));
      r := Ok([node]);
    }

    /** get_oov: the nodes of provide_oov, placed at `offset` and ending one
        character later. */
    method GetOov(t: UTF8InputText, offset: nat, hasOtherWords: bool) returns (r: Result<seq<LatticeNode>>)
      requires isSetUp && |t.byteIndexes| == |t.bytes| + 1
      ensures hasOtherWords ==> r == Ok([])
      ensures !hasOtherWords ==> (r.Ok? <==> offset <= |t.bytes|)
      ensures !hasOtherWords && r.Ok? ==>
                var len := CodePointsOffsetLength(t, offset, 1).value;
                var s := GetSubstring(t, offset, offset + len).value;
                |r.value| == 1 && fresh(r.value[0])
                && IsOovNode(r.value[0], leftId, rightId, cost, OovWordInfo(s, len, oovPosId))
                && r.value[0].begin == offset && r.value[0].end == offset + len
                && !r.value[0].isConnectedToBos && r.value[0].bestPreviousNode == null
    {
      var nodes :- ProvideOov(t, offset, hasOtherWords);
      var placed := PlaceNodes(nodes, offset);
      r := Ok(nodes);
    }
  }
}
