/** The word parameters of a lexicon: after a u32 count, one 6-byte record
    per word holding its left id, right id and cost. */
module WordParameterLists {
  import opened Wrappers
  import opened Bytes

  const ELEMENT_SIZE: nat := 2 * 3

  datatype WordParameterList = WordParameterList(bytes: seq<byte>, size: nat, offset: nat)

  /** Reads the count at `offset`; the records start 4 bytes later. */
  function NewWordParameterList(buf: seq<byte>, offset: nat): (r: Result<WordParameterList>)
    ensures r.Ok? <==> offset <= |buf|
    ensures r.Ok? ==> r.value.bytes == buf && r.value.offset == offset + 4
    ensures r.Ok? && offset + 4 <= |buf| ==> r.value.size == DecodeUnsigned(buf[offset .. offset + 4])
  {
    var size :- ReadUnsigned(buf, offset, 4);
    Ok(WordParameterList(buf, size, offset + 4))
  }

  function StorageSize(p: WordParameterList): nat
  {
    4 + ELEMENT_SIZE * p.size
  }

  function GetSize(p: WordParameterList): nat
  {
    p.size
  }

  /** The unsigned u16 at byte 0 of the word's record. */
  function GetLeftId(p: WordParameterList, wordId: nat): (r: Result<nat>)
    ensures r.Ok? <==> p.offset + ELEMENT_SIZE * wordId <= |p.bytes|
    ensures r.Ok? ==> 0 <= r.value < 0x10000
    ensures p.offset + ELEMENT_SIZE * wordId + 2 <= |p.bytes| ==>
              var at := p.offset + ELEMENT_SIZE * wordId;
              r == Ok(DecodeUnsigned(p.bytes[at .. at + 2]))
  {
    ReadUnsigned(p.bytes, p.offset + ELEMENT_SIZE * wordId, 2)
  }

  /** The unsigned u16 at byte 2 of the word's record. */
  function GetRightId(p: WordParameterList, wordId: nat): (r: Result<nat>)
    ensures r.Ok? <==> p.offset + ELEMENT_SIZE * wordId + 2 <= |p.bytes|
    ensures r.Ok? ==> 0 <= r.value < 0x10000
    ensures p.offset + ELEMENT_SIZE * wordId + 4 <= |p.bytes| ==>
              var at := p.offset + ELEMENT_SIZE * wordId + 2;
              r == Ok(DecodeUnsigned(p.bytes[at .. at + 2]))
  {
    ReadUnsigned(p.bytes, p.offset + ELEMENT_SIZE * wordId + 2, 2)
  }

  /** The signed i16 at byte 4 of the word's record. */
  function GetCost(p: WordParameterList, wordId: nat): (r: Result<int>)
    ensures r.Ok? <==> p.offset + ELEMENT_SIZE * wordId + 4 <= |p.bytes|
    ensures r.Ok? ==> -0x8000 <= r.value < 0x8000
    ensures p.offset + ELEMENT_SIZE * wordId + 6 <= |p.bytes| ==>
              var at := p.offset + ELEMENT_SIZE * wordId + 4;
              r == Ok(DecodeSigned(p.bytes[at .. at + 2]))
  {
    var bs :- ReadAt(p.bytes, p.offset + ELEMENT_SIZE * wordId + 4, 2);
    Ok(DecodeSigned(bs))
  }
}
