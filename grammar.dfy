/** The grammar block of a dictionary: the part-of-speech table, the sizes
    of the connection matrix and the matrix itself, read in place. */
module Grammars {
  import opened Wrappers
  import opened Bytes
  import opened Unicode

  const INHIBITED_CONNECTION: int := 0x7fff
  const POS_DEPTH: nat := 6
  const BOS_PARAMETER: seq<int> := [0, 0, 0]
  const EOS_PARAMETER: seq<int> := [0, 0, 0]

  datatype Grammar = Grammar(
    bytes: seq<byte>,
    posList: seq<seq<string>>,
    leftIdSize: int,
    rightIdSize: int,
    connectTableOffset: nat,
    storageSize: int)

  /** buffer_to_string: a length byte, then twice that many bytes decoded as
      UTF-16 (a leading byte-order mark picks the order and is dropped).
      The string comes back with its length byte. */
  function ReadPosString(buf: seq<byte>, offset: nat): (r: Result<(string, nat)>)
    ensures r.Ok? ==> offset < |buf| && r.value.1 == buf[offset] as nat
  {
    if offset > |buf| then Err(ValueError("seek out of range"))
    else
      var length :- ReadByteAt(buf, offset);
      var bs := ReadAt(buf, offset + 1, 2 * length).value;
      var s :- DecodeUtf16Bom(bs);
      Ok((s, length as nat))
  }

  /** The string read is the UTF-16 decoding of the code units its length
      byte announces, when all of them are in the buffer. */
  lemma ReadPosStringDecodes(buf: seq<byte>, offset: nat)
    requires ReadPosString(buf, offset).Ok?
    ensures var (s, length) := ReadPosString(buf, offset).value;
            offset + 1 + 2 * length <= |buf| ==>
              Ok(s) == DecodeUtf16Bom(buf[offset + 1 .. offset + 1 + 2 * length])
  {
  }

  /** Where the next string starts: after the length byte and the code
      units it announces. */
  function NextOffset(offset: nat, length: nat): nat
  {
    offset + 1 + 2 * length
  }

  /** Where grammar.py:23 moves on to: after as many code-unit pairs as the
      DECODED string has characters. */
  function NextOffsetAsWritten(offset: nat, s: string): nat
  {
    offset + 1 + 2 * |s|
  }

  /** U+2000B is one character but two UTF-16 code units: the string that
      holds it takes 5 bytes, and the as-written step lands 2 bytes short,
      inside its low surrogate. */
  lemma AsWrittenStepFallsShort()
    ensures ReadPosString([2, 0x40, 0xD8, 0x0B, 0xDC], 0) == Ok(("\U{2000B}", 2))
    ensures NextOffset(0, 2) == 5
    ensures NextOffsetAsWritten(0, "\U{2000B}") == 3
  {
    var buf: seq<byte> := [2, 0x40, 0xD8, 0x0B, 0xDC];
    var bs: seq<byte> := [0x40, 0xD8, 0x0B, 0xDC];
    assert ReadAt(buf, 1, 4) == Ok(bs) by {
      assert buf[1 .. 5] == bs;
    }
    assert UnitAt(bs, 0, true) == 0xD840;
    assert UnitAt(bs, 2, true) == 0xDC0B;
    assert DecodeUtf16(bs[4..], true) == Ok("");
    var c := (0x10000 + (0xD840 - 0xD800) * 1024 + (0xDC0B - 0xDC00)) as char;
    assert c == '\U{2000B}';
    assert DecodeUtf16(bs, true) == Ok([c] + "");
    assert [c] + "" == "\U{2000B}";
    assert DecodeUtf16Bom(bs) == DecodeUtf16(bs, true);
  }

  /** The first `j` strings of the part of speech starting at `start`, and
      the offset after them. */
  function PosPrefix(buf: seq<byte>, start: nat, j: nat): (r: Result<(seq<string>, nat)>)
    ensures r.Ok? ==> |r.value.0| == j && r.value.1 >= start + j
  {
    StringsFrom((off: nat) => ReadPosString(buf, off), start, j)
  }

  /** The first `j` strings that `read` finds one after another from
      `start`, and the offset after them. */
  function StringsFrom(read: nat -> Result<(string, nat)>, start: nat, j: nat): (r: Result<(seq<string>, nat)>)
    ensures r.Ok? ==> |r.value.0| == j && r.value.1 >= start + j
  {
    if j == 0 then Ok(([], start))
    else
      var (strs, off) :- StringsFrom(read, start, j - 1);
      var (s, length) :- read(off);
      Ok((strs + [s], NextOffset(off, length)))
  }

  /** The first `i` parts of speech from `start`, and the offset after them. */
  function PosListPrefix(buf: seq<byte>, start: nat, i: nat): (r: Result<(seq<seq<string>>, nat)>)
    ensures r.Ok? ==> |r.value.0| == i && r.value.1 >= start
    ensures r.Ok? ==> forall k :: 0 <= k < i ==> |r.value.0[k]| == POS_DEPTH
  {
    ListFrom((off: nat) => PosPrefix(buf, off, POS_DEPTH), POS_DEPTH, start, i)
  }

  /** The first `i` groups that `read` finds one after another from
      `start`, each of `depth` strings, and the offset after them. */
  function ListFrom(read: nat -> Result<(seq<string>, nat)>, depth: nat, start: nat, i: nat)
    : (r: Result<(seq<seq<string>>, nat)>)
    requires forall off: nat :: read(off).Ok? ==> |read(off).value.0| == depth && read(off).value.1 >= off
    ensures r.Ok? ==> |r.value.0| == i && r.value.1 >= start
    ensures r.Ok? ==> forall k :: 0 <= k < i ==> |r.value.0[k]| == depth
  {
    if i == 0 then Ok(([], start))
    else
      var (list, off) :- ListFrom(read, depth, start, i - 1);
      var (pos, next) :- read(off);
      Ok((list + [pos], next))
  }

  /** Once a part of speech fails to read, every longer prefix fails with
      the same error. */
  lemma PosListPrefixErrPersists(buf: seq<byte>, start: nat, i: nat, k: nat)
    requires i <= k && PosListPrefix(buf, start, i).Err?
    ensures PosListPrefix(buf, start, k) == Err(PosListPrefix(buf, start, i).error)
  {
    ListErrPersists((off: nat) => PosPrefix(buf, off, POS_DEPTH), POS_DEPTH, start, i, k);
  }

  lemma {:induction false} ListErrPersists(read: nat -> Result<(seq<string>, nat)>, depth: nat, start: nat, i: nat, k: nat)
    requires forall off: nat :: read(off).Ok? ==> |read(off).value.0| == depth && read(off).value.1 >= off
    requires i <= k && ListFrom(read, depth, start, i).Err?
    ensures ListFrom(read, depth, start, k) == Err(ListFrom(read, depth, start, i).error)
    decreases k
  {
    if k > i {
      ListErrPersists(read, depth, start, i, k - 1);
    }
  }

  /** A part of speech that fails to read fails every longer table with its
      error. */
  lemma PosListPrefixFailsAt(buf: seq<byte>, start: nat, i: nat, k: nat, list: seq<seq<string>>, off: nat)
    requires i < k
    requires PosListPrefix(buf, start, i) == Ok((list, off))
    requires PosPrefix(buf, off, POS_DEPTH).Err?
    ensures PosListPrefix(buf, start, k) == Err(PosPrefix(buf, off, POS_DEPTH).error)
  {
    PosListPrefixErrPersists(buf, start, i + 1, k);
  }

  /** Reads the six strings of one part of speech from `start`. */
  method ReadPos(buf: seq<byte>, start: nat) returns (r: Result<(seq<string>, nat)>)
    ensures r == PosPrefix(buf, start, POS_DEPTH)
  {
    var pos: seq<string> := [];
    var offset: nat := start;
    var j: nat := 0;
    while j < POS_DEPTH
      invariant 0 <= j <= POS_DEPTH
      invariant PosPrefix(buf, start, j) == Ok((pos, offset))
    {
      var read := ReadPosString(buf, offset);
      if read.Err? {
        PosPrefixErrPersists(buf, start, j + 1, POS_DEPTH);
        return Err(read.error);
      }
      pos := pos + [read.value.0];
      offset := NextOffset(offset, read.value.1);
      j := j + 1;
    }
    r := Ok((pos, offset));
  }

  lemma PosPrefixErrPersists(buf: seq<byte>, start: nat, j: nat, k: nat)
    requires j <= k && PosPrefix(buf, start, j).Err?
    ensures PosPrefix(buf, start, k) == Err(PosPrefix(buf, start, j).error)
  {
    StringsErrPersists((off: nat) => ReadPosString(buf, off), start, j, k);
  }

  lemma {:induction false} StringsErrPersists(read: nat -> Result<(string, nat)>, start: nat, j: nat, k: nat)
    requires j <= k && StringsFrom(read, start, j).Err?
    ensures StringsFrom(read, start, k) == Err(StringsFrom(read, start, j).error)
    decreases k
  {
    if k > j {
      StringsErrPersists(read, start, j, k - 1);
    }
  }

  /** The grammar at `offset`: a signed u16 count of parts of speech (a
      negative count reads none), six strings each, then the signed u16
      left and right id sizes; the matrix follows. */
  function ParseGrammar(buf: seq<byte>, offset: nat): (r: Result<Grammar>)
    ensures r.Ok? ==> r.value.bytes == buf
    ensures r.Ok? ==> forall k :: 0 <= k < |r.value.posList| ==> |r.value.posList[k]| == POS_DEPTH
    ensures r.Ok? ==> r.value.connectTableOffset >= offset + 6
    ensures r.Ok? ==> r.value.storageSize
                      == (r.value.connectTableOffset - offset) + 2 * r.value.leftIdSize * r.value.rightIdSize
  {
    var posSize :- ReadSigned(buf, offset, 2);
    var count := if posSize < 0 then 0 else posSize;
    var (posList, off) :- PosListPrefix(buf, offset + 2, count);
    ReadIdSizes(buf, offset, posList, off)
  }

  /** The rest of the grammar once its table ends at `off`: the two id sizes. */
  function ReadIdSizes(buf: seq<byte>, offset: nat, posList: seq<seq<string>>, off: nat): (r: Result<Grammar>)
    requires off >= offset
    ensures r.Ok? <==> off + 2 <= |buf|
    ensures r.Ok? ==> r.value.bytes == buf && r.value.posList == posList && r.value.connectTableOffset == off + 4
    ensures r.Ok? ==> r.value.storageSize
                      == (r.value.connectTableOffset - offset) + 2 * r.value.leftIdSize * r.value.rightIdSize
  {
    var leftIdSize :- ReadSigned(buf, off, 2);
    var rightIdSize :- ReadSigned(buf, off + 2, 2);
    Ok(Grammar(buf, posList, leftIdSize, rightIdSize, off + 4,
               (off + 4 - offset) + 2 * leftIdSize * rightIdSize))
  }

  /** The constructor: walks the table with a running offset, appending each
      part of speech. */
  method ReadGrammar(buf: seq<byte>, offset0: nat) returns (r: Result<Grammar>)
    ensures r == ParseGrammar(buf, offset0)
  {
    var sized := ReadSigned(buf, offset0, 2);
    if sized.Err? {
      return Err(sized.error);
    }
    var count: nat := if sized.value < 0 then 0 else sized.value;
    var offset: nat := offset0 + 2;
    var posList: seq<seq<string>> := [];
    var i: nat := 0;
    while i < count
      invariant 0 <= i <= count
      invariant PosListPrefix(buf, offset0 + 2, i) == Ok((posList, offset))
    {
      var read := ReadPos(buf, offset);
      if read.Err? {
        PosListPrefixFailsAt(buf, offset0 + 2, i, count, posList, offset);
        return Err(read.error);
      }
      posList := posList + [read.value.0];
      offset := read.value.1;
      i := i + 1;
    }
    assert PosListPrefix(buf, offset0 + 2, count) == Ok((posList, offset));
    r := ReadIdSizes(buf, offset0, posList, offset);
  }

  /** get_part_of_speech_size: the number of parts of speech, so the ids
      GetPartOfSpeechString answers without wrapping round are exactly
      those below it. */
  function GetPartOfSpeechSize(g: Grammar): (n: nat)
    ensures forall id :: 0 <= id < n <==> 0 <= id && GetPartOfSpeechString(g, id).Ok?
  {
    |g.posList|
  }

  /** `pos_list[pos_id]`, with Python's negative indexing. */
  function GetPartOfSpeechString(g: Grammar, posId: int): (r: Result<seq<string>>)
    ensures r.Ok? <==> -|g.posList| <= posId < |g.posList|
    ensures r.Ok? && posId >= 0 ==> r.value == g.posList[posId]
  {
    PyIndex(g.posList, posId)
  }

  /** `pos_list.index(pos)`: the first index holding `pos`; ValueError when
      there is none (never -1). */
  function GetPartOfSpeechId(g: Grammar, pos: seq<string>): (r: Result<nat>)
    ensures r.Ok? <==> pos in g.posList
    ensures r.Ok? ==> r.value < |g.posList| && g.posList[r.value] == pos
                      && forall k :: 0 <= k < r.value ==> g.posList[k] != pos
    ensures r.Err? ==> r.error.ValueError?
  {
    IndexOf(g.posList, pos, 0)
  }

  function IndexOf<T(==)>(s: seq<T>, x: T, from: nat): (r: Result<nat>)
    requires from <= |s|
    requires forall k :: 0 <= k < from ==> s[k] != x
    ensures r.Ok? <==> x in s
    ensures r.Ok? ==> r.value < |s| && s[r.value] == x && forall k :: 0 <= k < r.value ==> s[k] != x
    ensures r.Err? ==> r.error.ValueError?
    decreases |s| - from
  {
    if from == |s| then Err(ValueError("x not in list"))
    else if s[from] == x then Ok(from)
    else IndexOf(s, x, from + 1)
  }

  /** The byte of cell (left, right): row-major by right id, two bytes per
      cell. */
  function ConnectCostPosition(g: Grammar, leftId: int, rightId: int): int
  {
    g.connectTableOffset + leftId * 2 + 2 * g.leftIdSize * rightId
  }

  /** get_connect_cost: the signed i16 of the cell; a position before the
      buffer fails the seek. */
  function GetConnectCost(g: Grammar, leftId: int, rightId: int): (r: Result<int>)
    ensures r.Ok? <==> 0 <= ConnectCostPosition(g, leftId, rightId) <= |g.bytes|
    ensures r.Ok? ==> -0x8000 <= r.value < 0x8000
    ensures 0 <= ConnectCostPosition(g, leftId, rightId) && ConnectCostPosition(g, leftId, rightId) + 2 <= |g.bytes| ==>
              var p := ConnectCostPosition(g, leftId, rightId);
              r == Ok(DecodeSigned(g.bytes[p .. p + 2]))
  {
    var p := ConnectCostPosition(g, leftId, rightId);
    if p < 0 then Err(ValueError("seek out of range"))
    else
      var bs :- ReadAt(g.bytes, p, 2);
      Ok(DecodeSigned(bs))
  }
}
