/** The fixed-size header at the start of a dictionary file: two
    little-endian u64 fields and a 256-byte UTF-8 description. */
module DictionaryHeaders {
  import opened Wrappers
  import opened Bytes
  import opened Unicode

  const DESCRIPTION_SIZE: nat := 256
  const STORAGE_SIZE: nat := 8 + 8 + DESCRIPTION_SIZE

  datatype DictionaryHeader = DictionaryHeader(version: nat, createTime: nat, description: string)

  /** The description bytes: up to 256 bytes after the two numbers (a slice,
      so fewer near the end of the buffer). */
  function DescriptionBytes(buf: seq<byte>, offset: nat): seq<byte>
  {
    var start := offset + 16;
    if start >= |buf| then []
    else if start + DESCRIPTION_SIZE <= |buf| then buf[start .. start + DESCRIPTION_SIZE]
    else buf[start..]
  }

  /** Decodes the header at `offset`.  Fewer than 16 bytes there is a
      struct error; a description that is not UTF-8 is a decode error; the
      version is taken as it is. */
  function ReadHeader(buf: seq<byte>, offset: nat): (r: Result<DictionaryHeader>)
    ensures offset + 16 > |buf| ==> r.Err? && r.error.StructError?
    ensures offset + 16 <= |buf| ==>
              (r.Ok? <==> DecodeUtf8(DescriptionBytes(buf, offset)).Ok?)
    ensures r.Ok? ==>
              r.value.version == DecodeUnsigned(buf[offset .. offset + 8])
              && r.value.createTime == DecodeUnsigned(buf[offset + 8 .. offset + 16])
              && Ok(r.value.description) == DecodeUtf8(DescriptionBytes(buf, offset))
  {
    if offset + 16 > |buf| then Err(StructError("unpack_from requires a buffer of at least 16 bytes"))
    else
      var version := DecodeUnsigned(buf[offset .. offset + 8]);
      var createTime := DecodeUnsigned(buf[offset + 8 .. offset + 16]);
      var description :- DecodeUtf8(DescriptionBytes(buf, offset));
      Ok(DictionaryHeader(version, createTime, description))
  }

  /** The bytes of a header: the two numbers, then the description. */
  function HeaderBytes(h: DictionaryHeader): seq<byte>
    requires h.version < Pow256(8) && h.createTime < Pow256(8)
  {
    EncodeUnsigned(h.version, 8) + EncodeUnsigned(h.createTime, 8) + EncodeUtf8(h.description)
  }

  /** A header whose description encodes to exactly 256 bytes reads back
      unchanged from anywhere in a buffer; it takes STORAGE_SIZE bytes. */
  lemma ReadHeaderBytes(pre: seq<byte>, h: DictionaryHeader, post: seq<byte>)
    requires h.version < Pow256(8) && h.createTime < Pow256(8)
    requires |EncodeUtf8(h.description)| == DESCRIPTION_SIZE
    ensures |HeaderBytes(h)| == STORAGE_SIZE
    ensures ReadHeader(pre + HeaderBytes(h) + post, |pre|) == Ok(h)
  {
    var v := EncodeUnsigned(h.version, 8);
    var t := EncodeUnsigned(h.createTime, 8);
    var d := EncodeUtf8(h.description);
    var buf := pre + HeaderBytes(h) + post;
    var o := |pre|;
    assert buf[o .. o + 8] == v;
    assert buf[o + 8 .. o + 16] == t;
    assert DescriptionBytes(buf, o) == d;
    DecodeEncodeUnsigned(h.version, 8);
    DecodeEncodeUnsigned(h.createTime, 8);
    DecodeEncodeUtf8(h.description);
  }
}
