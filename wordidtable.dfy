/** The word-id table of a lexicon: after a u32 byte count, entries of one
    count byte followed by that many little-endian u32 word ids. */
module WordIdTables {
  import opened Wrappers
  import opened Bytes

  datatype WordIdTable = WordIdTable(bytes: seq<byte>, size: nat, offset: nat)

  /** Reads the byte count at `offset`; the entries start 4 bytes later. */
  function NewWordIdTable(buf: seq<byte>, offset: nat): (r: Result<WordIdTable>)
    ensures r.Ok? <==> offset <= |buf|
    ensures r.Ok? ==> r.value.bytes == buf && r.value.offset == offset + 4
    ensures r.Ok? && offset + 4 <= |buf| ==> r.value.size == DecodeUnsigned(buf[offset .. offset + 4])
  {
    var size :- ReadUnsigned(buf, offset, 4);
    Ok(WordIdTable(buf, size, offset + 4))
  }

  /** The bytes the table occupies, its count included. */
  function StorageSize(t: WordIdTable): nat
  {
    4 + t.size
  }

  /** The ids of the entry at `index` (a byte position within the table). */
  function Get(t: WordIdTable, index: nat): (r: Result<seq<nat>>)
    ensures r.Ok? <==> (t.offset + index < |t.bytes|
                        && t.offset + index + 1 + 4 * (t.bytes[t.offset + index] as nat) <= |t.bytes|)
    ensures r.Ok? ==> |r.value| == t.bytes[t.offset + index] as nat
    ensures r.Ok? ==> forall i :: 0 <= i < |r.value| ==>
              var p := t.offset + index + 1 + 4 * i;
              r.value[i] == DecodeUnsigned(t.bytes[p .. p + 4])
  {
    var p := t.offset + index;
    if p >= |t.bytes| then Err(IndexError("mmap index out of range"))
    else UnpackU32s(t.bytes, p + 1, t.bytes[p])
  }
}
