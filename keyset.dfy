/** The keys (byte strings) and optional values a double-array trie is built from. */
module KeySets {
  import opened Wrappers
  import opened Bytes

  /** `values == None` stands for Python's `values is None`. */
  datatype KeySet = KeySet(keys: seq<seq<byte>>, values: Option<seq<int>>)

  function Size(ks: KeySet): (n: nat)
    ensures n == |ks.keys|
  {
    |ks.keys|
  }

  function GetKey(ks: KeySet, id: nat): (key: seq<byte>)
    requires id < |ks.keys|
    ensures key == ks.keys[id]
  {
    ks.keys[id]
  }

  /** Byte `byteId` of key `keyId`, or 0 past its end. */
  function GetKeyByte(ks: KeySet, keyId: nat, byteId: nat): (b: byte)
    requires keyId < |ks.keys|
    ensures byteId >= |ks.keys[keyId]| ==> b == 0
  {
    if byteId >= |ks.keys[keyId]| then 0 else ks.keys[keyId][byteId]
  }

  predicate HasValues(ks: KeySet)
  {
    ks.values.Some?
  }

  /** The value stored for key `id`, or `id` itself when there are no values. */
  function GetValue(ks: KeySet, id: nat): (v: int)
    requires HasValues(ks) ==> id < |ks.values.value|
    ensures !HasValues(ks) ==> v == id
    ensures HasValues(ks) ==> v == ks.values.value[id]
  {
    if HasValues(ks) then ks.values.value[id] else id
  }

  /** A key set built from keys and values hands back, id by id, the keys
      it was built from and their values, or the ids when it has none. */
  lemma KeysReadBack(keys: seq<seq<byte>>, values: Option<seq<int>>)
    requires values.Some? ==> |values.value| == |keys|
    ensures var ks := KeySet(keys, values);
      Size(ks) == |keys| &&
      (forall id :: 0 <= id < |keys| ==> GetKey(ks, id) == keys[id]) &&
      (forall id :: 0 <= id < |keys| ==> GetValue(ks, id) == if values.Some? then values.value[id] else id)
  {
  }

  /** Read byte by byte, every key is seen followed by a terminating 0, and
      nothing but zeros after it. */
  lemma KeyBytesAreTerminated(ks: KeySet, keyId: nat)
    requires keyId < |ks.keys|
    ensures forall b :: 0 <= b <= |ks.keys[keyId]| ==> GetKeyByte(ks, keyId, b) == (ks.keys[keyId] + [0])[b]
    ensures forall b :: b >= |ks.keys[keyId]| ==> GetKeyByte(ks, keyId, b) == 0
  {
  }
}
