# SudachiPy core, modelled in Dafny

A model of the Japanese morphological analyser vendored in GiNZA
(`sudachipy/`) and of the small list and tree helpers on the GiNZA side
(`ginza/`). It covers:

- the dartsclone double-array trie: the key set, the bit vector, the DAWG
  builder, the double-array builder (from a key set) and the double-array
  lookups (exact match and common-prefix search);
- the binary dictionary format: the little-endian byte buffer, the
  dictionary header, the grammar (parts of speech and the connection
  matrix), the lexicon (trie, word-id table, word parameters, word infos),
  the lexicon set that stacks a user dictionary on the system one, and the
  writers in the system and user dictionary builders;
- the input text: the UTF-8 builder with its original/modified offset
  maps, the default input text plugin (rewrite.def replacements and
  NFKC/lower-case normalisation) and character categories;
- the lattice, its nodes and the Viterbi search of the best path;
- the OOV provider plugins (simple and MeCab-style) and the path rewrite
  plugins (joining katakana and numerics);
- the tokenizer that drives all of these, split modes A, B and C, and the
  morpheme list it returns;
- on the GiNZA side, bunsetu recognition, the Japanese dependency
  corrector helpers and the corpus conversion helpers.

Python's unbounded integers are `int`/`nat`; a 16- or 32-bit field is
written out with its width where the source packs it. Byte buffers are
`seq<byte>` with reads at explicit positions; text is `seq<char>`. Objects
the source updates in place (the builders, the lattice, the tokenizer,
the input text builder) are classes; everything that only computes is
functions and lemmas. Errors the Python code raises are `Err` values of a
`Result`, named after the Python exception.

## Model

| member | source | states |
|---|---|---|
| KeySets.Size | sudachipy/dartsclone/keyset.py:6-7 | size is the number of keys |
| KeySets.GetKey | sudachipy/dartsclone/keyset.py:9-10 | the key returned is the stored key with that id |
| KeySets.GetKeyByte | sudachipy/dartsclone/keyset.py:12-15 | a byte past the key's end reads as 0 |
| KeySets.KeyBytesAreTerminated | sudachipy/dartsclone/keyset.py:12-15 | read byte by byte, every key is followed by a 0 and only zeros after it |
| KeySets.GetValue | sudachipy/dartsclone/keyset.py:17-21 | without values a key's value is its id; with values it is the stored value with that id |
| KeySets.KeysReadBack | sudachipy/dartsclone/keyset.py:1-21 | a key set built from keys and values reports their count and hands back, id by id, the keys it was built from and their values, or the ids when it has no values |
| CategoryTypes.PositionsDistinct | sudachipy/dictionarylib/categorytype.py:4-20 | each member has its own bit position |
| CategoryTypes.ValuesAreFlags | sudachipy/dictionarylib/categorytype.py:4-20 | members are single-bit flags between 1 and 1 << 15, and two members share a value only if they are the same member |
| CategoryTypes.FirstAndLastValues | sudachipy/dictionarylib/categorytype.py:5-20 | DEFAULT is 1 and NOOOVBOW is 1 << 15 |
| CategoryTypes.Get | sudachipy/dictionarylib/categorytype.py:31-36 | a member found by name carries that name |
| CategoryTypes.GetName | sudachipy/dictionarylib/categorytype.py:31-36 | every member is found under its own name |
| CategoryTypes.GetId | sudachipy/dictionarylib/categorytype.py:22-23 | as written, every call raises AttributeError: an Enum member has no `id` attribute (see Findings) |
| CategoryTypes.GetType | sudachipy/dictionarylib/categorytype.py:25-29 | as written, every call raises AttributeError: the Enum class has no `values()` (see Findings) |
| CategoryTypes.GetTypeNeverFinds | sudachipy/dictionarylib/categorytype.py:25-29 | as written, get_type does not return a member even for that member's own value |
| CategoryTypes.TypeFrom | sudachipy/dictionarylib/categorytype.py:26-29 | the intended scan from the k-th member returns only a member whose value is the id, and None only when no later member has it |
| CategoryTypes.IntendedGetType | sudachipy/dictionarylib/categorytype.py:25-29 | the intended get_type returns only a member whose value is the id, and None only when no member has it |
| CategoryTypes.TypeFromFinds | sudachipy/dictionarylib/categorytype.py:26-28 | the intended scan, started at or before a member's position, stops at that member when looking for its value |
| CategoryTypes.GetTypeFinds | sudachipy/dictionarylib/categorytype.py:25-29 | the intended get_type returns every member for its own value, so None comes back exactly for ids no member has |
| LexiconSets.BuildWordId | sudachipy/dictionarylib/lexiconset.py:49-54 | AttributeError for a word number over 28 bits, then for a dictionary number over 4 bits; success exactly when both fit, and the result fits 32 bits |
| LexiconSets.SplitBuiltWordId | sudachipy/dictionarylib/lexiconset.py:43-54 | the dictionary and word numbers of a built id are the ones it was built from |
| LexiconSets.BuildSplitWordId | sudachipy/dictionarylib/lexiconset.py:43-54 | every 32-bit id is the build of its own two parts |
| BitVectors.PopCountIsOnes | sudachipy/dartsclone/bitvector.py:50-56 | `pop_count` of a 32-bit word is the number of its set bits |
| BitVectors.SetBitFrame | sudachipy/dartsclone/bitvector.py:18-20 | or-ing in `1 << a` sets bit `a` and leaves every other bit of the word |
| BitVectors.ClearBitFrame | sudachipy/dartsclone/bitvector.py:21-23 | and-ing with `~(1 << a)` clears bit `a` and leaves every other bit of the word |
| BitVectors.BitVector.constructor | sudachipy/dartsclone/bitvector.py:2-7 | a new vector has no words, no ones, size 0 and an empty rank directory |
| BitVectors.BitVector.IsEmpty | sudachipy/dartsclone/bitvector.py:25-26 | true exactly when there are no words |
| BitVectors.BitVector.Get | sudachipy/dartsclone/bitvector.py:9-10 | the bit is set exactly when word `id // 32` has bit `id % 32` set |
| BitVectors.BitVector.Set | sudachipy/dartsclone/bitvector.py:17-23 | afterwards `get(id)` is `bit`, every other position keeps its bit and the word count is unchanged |
| BitVectors.BitVector.Append | sudachipy/dartsclone/bitvector.py:34-37 | a zero word is appended exactly when the size is a multiple of 32; the size grows by one |
| BitVectors.BitVector.Build | sudachipy/dartsclone/bitvector.py:39-44 | each rank entry is the number of ones in the words before it and `num_ones` the number in all words |
| BitVectors.BitVector.Rank | sudachipy/dartsclone/bitvector.py:12-15 | on a built vector, the number of ones in all words up to and including the word of `id` |
| BitVectors.RankCountsWholeWord | sudachipy/dartsclone/bitvector.py:12-15 | with only bit 1 set, `rank(0)` is 1 although bit 0 is clear: the mask built from Python's `~0` keeps the whole word |
| BitVectors.BitVector.Clear | sudachipy/dartsclone/bitvector.py:46-48 | the words are emptied and the rank directory dropped |
| DoubleArrayBuilders.Slot | sudachipy/dartsclone/doublearraybuilder.py:53-54 | `get_extras` indexes a ring of 4096 records by the id modulo its size |
| DoubleArrayBuilders.SlotInBlock | sudachipy/dartsclone/doublearraybuilder.py:17-19 | the ids of one block sit at consecutive ring positions inside the ring |
| DoubleArrayBuilders.Unlinked | sudachipy/dartsclone/doublearraybuilder.py:280-282 | `reserve_id` joins the id's neighbours to each other and marks the id fixed; every other record keeps its flags |
| DoubleArrayBuilders.FirstUnused | sudachipy/dartsclone/doublearraybuilder.py:330-337 | the first id of the block whose offset is not used, or 0 when every one is |
| DoubleArrayBuilders.FallbackOffsetShape | sudachipy/dartsclone/doublearraybuilder.py:236-237 | the fallback offset `len(units) | (id & 0xFF)` lies past the units and makes a relative offset with a zero low byte |
| DoubleArrayBuilders.MaskTestMeansStorable | sudachipy/dartsclone/doublearraybuilder.py:262-264 | a relative offset that passes the mask test, if below 2**29, is one `set_offset` stores and `offset` reads back |
| DoubleArrayBuilders.SpliceBlockLinks | sudachipy/dartsclone/doublearraybuilder.py:302-315 | the new block's ids are chained in order and put between the head's predecessor and the head |
| DoubleArrayBuilders.SpliceBlockFlags | sudachipy/dartsclone/doublearraybuilder.py:302-315 | splicing the block in rewrites links only, never the fixed or used flags |
| DoubleArrayBuilders.ValueOf | sudachipy/dartsclone/doublearraybuilder.py:204-208 | a key's value is its index when the key set has no values |
| DoubleArrayBuilders.ScanGroupOk | sudachipy/dartsclone/doublearraybuilder.py:199-218 | the label pass succeeds exactly on groups with no 0 byte inside a key, no negative value and non-decreasing bytes |
| DoubleArrayBuilders.ScanGroupLabels | sudachipy/dartsclone/doublearraybuilder.py:213-218 | the gathered labels strictly increase and hold the byte of every key of the group |
| DoubleArrayBuilders.ScanGroupValue | sudachipy/dartsclone/doublearraybuilder.py:201-208 | the value is that of the first key ending at the depth, or -1 when none ends there |
| DoubleArrayBuilders.JoinGroup | sudachipy/dartsclone/doublearraybuilder.py:183-192 | closing a run of keys with one byte keeps the whole group sorted and free of 0 bytes |
| DoubleArrayBuilders.NextRun | sudachipy/dartsclone/doublearraybuilder.py:187-191 | in a well-formed group a new byte starts a run above every byte before it |
| DoubleArrayBuilders.EndedKeys | sudachipy/dartsclone/doublearraybuilder.py:174-177 | keys whose byte at the depth is 0 have ended there and are in order |
| DoubleArrayBuilders.FixLabelAsWrittenSetsHasLeaf | sudachipy/dartsclone/doublearraybuilder.py:330-342 | with every offset of block 1 used, id 256 gets the label 256, which sets the spare unit's has-leaf bit |
| DoubleArrayBuilders.FixLabelKeepsUnit | sudachipy/dartsclone/doublearraybuilder.py:339-342 | a fix-up label kept to a byte replaces the low byte only and, within the block, equals `id ^ unused_offset` |
| DoubleArrayBuilders.UnitBytes | sudachipy/dartsclone/doublearraybuilder.py:36-42 | four bytes per unit |
| DoubleArrayBuilders.DoubleArrayBuilder.constructor | sudachipy/dartsclone/doublearraybuilder.py:16-25 | no units, extras or labels, and head 0 |
| DoubleArrayBuilders.DoubleArrayBuilder.Clear | sudachipy/dartsclone/doublearraybuilder.py:44-48 | units, extras and labels emptied |
| DoubleArrayBuilders.DoubleArrayBuilder.NumBlocks | sudachipy/dartsclone/doublearraybuilder.py:50-51 | the number of whole blocks of 256 units |
| DoubleArrayBuilders.DoubleArrayBuilder.ReserveId | sudachipy/dartsclone/doublearraybuilder.py:272-282 | the units grow by a block when the id lies past them; the id is then unlinked and fixed, and the head advances past it, to the unit count when the list empties |
| DoubleArrayBuilders.DoubleArrayBuilder.ExpandUnits | sudachipy/dartsclone/doublearraybuilder.py:284-315 | 256 zero units are appended, the oldest open block is fixed beyond 16 blocks, and the new ids are spliced in before the head |
| DoubleArrayBuilders.DoubleArrayBuilder.LinkNewBlock | sudachipy/dartsclone/doublearraybuilder.py:302-315 | the new block's ids are chained and spliced in before the head; flags unchanged |
| DoubleArrayBuilders.DoubleArrayBuilder.FixBlock | sudachipy/dartsclone/doublearraybuilder.py:326-342 | every free id of the block is fixed and labelled from the first unused offset; units outside the block are unchanged |
| DoubleArrayBuilders.DoubleArrayBuilder.FixIds | sudachipy/dartsclone/doublearraybuilder.py:339-342 | every id of the range ends fixed; units outside it are unchanged |
| DoubleArrayBuilders.DoubleArrayBuilder.FixId | sudachipy/dartsclone/doublearraybuilder.py:340-342 | a free id is reserved and labelled with the low byte of `id ^ unused`; a fixed one is left alone |
| DoubleArrayBuilders.DoubleArrayBuilder.FindUnused | sudachipy/dartsclone/doublearraybuilder.py:330-337 | the first id of the block not used as an offset, or 0 |
| DoubleArrayBuilders.DoubleArrayBuilder.IsValidOffset | sudachipy/dartsclone/doublearraybuilder.py:258-270 | false for a used offset, for a relative offset with bits under both masks, and where a sibling's slot is fixed |
| DoubleArrayBuilders.DoubleArrayBuilder.FindValidOffset | sudachipy/dartsclone/doublearraybuilder.py:235-256 | a valid offset found on the free list, else `len(units) | (id & 0xFF)`; the fallback at once when the head is past the units; an error on a cycle that misses the head |
| DoubleArrayBuilders.DoubleArrayBuilder.ScanLabels | sudachipy/dartsclone/doublearraybuilder.py:196-218 | the labels and value the group's pass gathers, failing exactly where the pass raises |
| DoubleArrayBuilders.DoubleArrayBuilder.ArrangeFromKeySet | sudachipy/dartsclone/doublearraybuilder.py:194-233 | fails when the group's pass does; otherwise the labels are the group's and the chosen offset is marked used |
| DoubleArrayBuilders.DoubleArrayBuilder.PlaceChildren | sudachipy/dartsclone/doublearraybuilder.py:223-230 | the child loop fails only with the reservation's range error; when every child lies inside the units, they become ChildrenWritten of the old units: the node gets its has-leaf bit for label 0, that child the value, every other child its label |
| DoubleArrayBuilders.DoubleArrayBuilder.PlaceChild | sudachipy/dartsclone/doublearraybuilder.py:224-230 | one pass of the child loop extends ChildrenWritten by the next label |
| DoubleArrayBuilders.ChildrenWrittenUnits | sudachipy/dartsclone/doublearraybuilder.py:223-230 | for strictly increasing labels, after the loop the label-0 child holds the value, every other child's low byte is its label, the node has its has-leaf bit exactly when label 0 is among the labels, and every other unit is unchanged |
| DoubleArrayBuilders.DoubleArrayBuilder.BuildFromKeySetInsert | sudachipy/dartsclone/doublearraybuilder.py:164-192 | success means the group's keys are sorted and free of 0 bytes from the depth on |
| DoubleArrayBuilders.DoubleArrayBuilder.SkipEnded | sudachipy/dartsclone/doublearraybuilder.py:174-177 | the keys ending at the depth come first; the first key after them has a non-zero byte |
| DoubleArrayBuilders.DoubleArrayBuilder.BuildFromKeySetHeader | sudachipy/dartsclone/doublearraybuilder.py:141-162 | success means the whole key set was sorted and held no 0 byte; whole blocks of units remain and the work lists are dropped |
| DoubleArrayBuilders.DoubleArrayBuilder.Copy | sudachipy/dartsclone/doublearraybuilder.py:36-42 | the units in order as 4 little-endian bytes each; an overflow error exactly when some unit does not fit |
| DoubleArrayBuilders.DoubleArrayBuilder.FixAllBlocks | sudachipy/dartsclone/doublearraybuilder.py:317-324 | every id of the last 16 blocks ends fixed |
| DawgBuilders.NodeUnitSum | sudachipy/dartsclone/dawgbuilder.py:28-31 | `Node.unit`'s shifts and ors equal `child * 2 + has_sibling` for a leaf and `child * 4 + 2 * is_state + has_sibling` otherwise |
| DawgBuilders.LowBitTests | sudachipy/dartsclone/dawgbuilder.py:45-52 | the masks of `has_sibling` and `is_state` test bits 0 and 1 |
| DawgBuilders.UnitRoundTrip | sudachipy/dartsclone/dawgbuilder.py:28-52 | the Unit decoders read back what `Node.unit` packed: child, is-state and has-sibling of an inner node, value and has-sibling of a leaf |
| DawgBuilders.Hash | sudachipy/dartsclone/dawgbuilder.py:320-327 | the mixing function on a non-negative key; key 0 hashes to 0 |
| DawgBuilders.SiblingChain | sudachipy/dartsclone/dawgbuilder.py:185-189 | the nodes met along sibling links from a node until node 0: starting at the node, linked one to the next, ending at a node with no sibling |
| DawgBuilders.WalkNullIsInKey | sudachipy/dartsclone/dawgbuilder.py:134-136 | the insert walk reports a null character only for a key holding a 0 byte |
| DawgBuilders.WalkStopsInside | sudachipy/dartsclone/dawgbuilder.py:129-146 | the insert walk stops inside the key plus its terminator, at an existing node |
| DawgBuilders.RoomAfterDoubling | sudachipy/dartsclone/dawgbuilder.py:182-183 | a table kept a quarter free still has room for one more state once doubled |
| DawgBuilders.DawgBuilder.constructor | sudachipy/dartsclone/dawgbuilder.py:54-64 | every list empty, a new bit vector and no states |
| DawgBuilders.DawgBuilder.Sibling | sudachipy/dartsclone/dawgbuilder.py:72-73 | the next unit when the has-sibling bit is set, else 0 |
| DawgBuilders.DawgBuilder.Root | sudachipy/dartsclone/dawgbuilder.py:66-67 | the root is unit 0 |
| DawgBuilders.DawgBuilder.Child | sudachipy/dartsclone/dawgbuilder.py:69-70 | the unit with its two flag bits removed |
| DawgBuilders.DawgBuilder.Value | sudachipy/dartsclone/dawgbuilder.py:75-76 | the unit with its has-sibling bit removed |
| DawgBuilders.DawgBuilder.Label | sudachipy/dartsclone/dawgbuilder.py:81-82 | the label stored for the unit |
| DawgBuilders.DawgBuilder.IntersectionId | sudachipy/dartsclone/dawgbuilder.py:87-88 | at least -1; on a built bit vector, one less than the ones in the words up to the id's word |
| DawgBuilders.DawgBuilder.NumIntersections | sudachipy/dartsclone/dawgbuilder.py:90-91 | on a built bit vector, the number of its ones |
| DawgBuilders.DawgBuilder.Size | sudachipy/dartsclone/dawgbuilder.py:93-94 | the number of units |
| DawgBuilders.DawgBuilder.AppendNode | sudachipy/dartsclone/dawgbuilder.py:307-315 | the most recently freed node is reset and reused before the pool grows by a fresh node; nothing else changes |
| DawgBuilders.DawgBuilder.FreeNode | sudachipy/dartsclone/dawgbuilder.py:317-318 | the id goes on top of the recycle bin |
| DawgBuilders.DawgBuilder.AppendUnit | sudachipy/dartsclone/dawgbuilder.py:300-305 | a zero unit with label 0 is appended and its id returned |
| DawgBuilders.DawgBuilder.HashNode | sudachipy/dartsclone/dawgbuilder.py:291-298 | the xor of the node hashes along the sibling chain |
| DawgBuilders.DawgBuilder.HashUnit | sudachipy/dartsclone/dawgbuilder.py:279-289 | the xor of the unit hashes over the group starting at the id |
| DawgBuilders.DawgBuilder.RunFrom | sudachipy/dartsclone/dawgbuilder.py:260-268 | true exactly when the units carry the has-sibling bit as long as the node has siblings, and not after |
| DawgBuilders.DawgBuilder.MatchesReversed | sudachipy/dartsclone/dawgbuilder.py:270-277 | true exactly when the chain's nodes, read backwards from the unit, match the units and labels |
| DawgBuilders.DawgBuilder.AreEqual | sudachipy/dartsclone/dawgbuilder.py:259-277 | true exactly when the units from the id hold the node's sibling group |
| DawgBuilders.DawgBuilder.FindNode | sudachipy/dartsclone/dawgbuilder.py:242-257 | a slot holding an equal group, with that group's unit, or an empty slot with 0 |
| DawgBuilders.DawgBuilder.FindUnit | sudachipy/dartsclone/dawgbuilder.py:231-240 | the first empty slot probing from the group's hash |
| DawgBuilders.DawgBuilder.ExpandTable | sudachipy/dartsclone/dawgbuilder.py:220-229 | a table twice the size holding every leaf and state unit after unit 0 |
| DawgBuilders.DawgBuilder.WriteGroup | sudachipy/dartsclone/dawgbuilder.py:197-209 | one fresh unit per node of the group, written last-first, and the group's first unit recorded in the table |
| DawgBuilders.DawgBuilder.FreeChain | sudachipy/dartsclone/dawgbuilder.py:211-215 | every node of the chain goes to the recycle bin, in chain order |
| DawgBuilders.DawgBuilder.MergeGroup | sudachipy/dartsclone/dawgbuilder.py:182-215 | the table grows when three-quarters full; written units are never changed |
| DawgBuilders.DawgBuilder.StoreGroup | sudachipy/dartsclone/dawgbuilder.py:191-215 | an equal group is shared or a new one written; at most one new state |
| DawgBuilders.DawgBuilder.Flush | sudachipy/dartsclone/dawgbuilder.py:177-218 | pops the stack down to and including `id`; written units are never changed and the table keeps its room |
| DawgBuilders.DawgBuilder.Init | sudachipy/dartsclone/dawgbuilder.py:96-105 | a table of 1024 empty slots, one state, the root node labelled 0xFF on the stack and unit 0 reserved |
| DawgBuilders.DawgBuilder.Insert | sudachipy/dartsclone/dawgbuilder.py:120-164 | errors for a negative value, an empty key, a 0 byte and a key out of order; a key already present changes nothing; otherwise one node per new byte and a leaf holding the value |
| DawgBuilders.DawgBuilder.AppendChild | sudachipy/dartsclone/dawgbuilder.py:151-162 | a new node with the label becomes the most recent child, its sibling the previous child |
| DawgBuilders.DawgBuilder.AppendPath | sudachipy/dartsclone/dawgbuilder.py:151-164 | one new node per remaining byte and one for the terminator; the leaf holds the value |
| DawgBuilders.DawgBuilder.Finish | sudachipy/dartsclone/dawgbuilder.py:107-118 | closes every group, keeps the units after unit 0, drops the work lists and builds the rank directory |
| DawgBuilders.DawgBuilder.Clear | sudachipy/dartsclone/dawgbuilder.py:166-175 | every list emptied and a new bit vector |
| DoubleArrayBuilderUnits.WithHasLeafBits | sudachipy/dartsclone/doublearraybuilderunit.py:5-12 | `set_has_leaf` sets or clears bit 8 and keeps every other bit |
| DoubleArrayBuilderUnits.WithValueBits | sudachipy/dartsclone/doublearraybuilderunit.py:14-18 | `set_value` replaces the unit by the value's bits plus bit 31 |
| DoubleArrayBuilderUnits.WithValueSum | sudachipy/dartsclone/doublearraybuilderunit.py:14-18 | a value below 2**31 is stored as the value plus 2**31 |
| DoubleArrayBuilderUnits.WithLabelBits | sudachipy/dartsclone/doublearraybuilderunit.py:20-24 | `set_label` puts the label in bits 0-7 and keeps the bits above, or-ed with any high bits of the label |
| DoubleArrayBuilderUnits.WithLabelByte | sudachipy/dartsclone/doublearraybuilderunit.py:20-24 | for a byte label the low byte becomes the label and the rest of the unit is kept |
| DoubleArrayBuilderUnits.OffsetFieldBits | sudachipy/dartsclone/doublearraybuilderunit.py:28-31 | an offset below 2**21 is or-ed in at bit 10; a larger one at bit 2 with bit 9 set |
| DoubleArrayBuilderUnits.WithOffsetBits | sudachipy/dartsclone/doublearraybuilderunit.py:26-31 | `set_offset` keeps bits 31, 8 and 0-7, drops bits 9-30 and ors in the offset field |
| DoubleArrayBuilderUnits.DoubleArrayBuilderUnit.constructor | sudachipy/dartsclone/doublearraybuilderunit.py:2-3 | a new unit is 0 |
| DoubleArrayBuilderUnits.DoubleArrayBuilderUnit.SetHasLeaf | sudachipy/dartsclone/doublearraybuilderunit.py:5-12 | bit 8 becomes the flag, every other bit is unchanged |
| DoubleArrayBuilderUnits.DoubleArrayBuilderUnit.SetValue | sudachipy/dartsclone/doublearraybuilderunit.py:14-18 | the unit's bits are bit 31 and the value's bits |
| DoubleArrayBuilderUnits.DoubleArrayBuilderUnit.SetLabel | sudachipy/dartsclone/doublearraybuilderunit.py:20-24 | the new unit is the label applied to the old; a byte label becomes the low byte and the rest is kept |
| DoubleArrayBuilderUnits.DoubleArrayBuilderUnit.SetOffset | sudachipy/dartsclone/doublearraybuilderunit.py:26-31 | bits 31, 8 and 0-7 of the old unit survive, the rest is the offset field |
| DoubleArrays.HasLeafIsBit8 | sudachipy/dartsclone/doublearray.py:98-99 | `has_leaf` reads bit 8 |
| DoubleArrays.ValueIsLowBits | sudachipy/dartsclone/doublearray.py:101-102 | `value` is the unit's low 31 bits |
| DoubleArrays.LabelOfValueUnit | sudachipy/dartsclone/doublearray.py:104-105 | the label of a unit with bit 31 set is at least 2**31, so it never equals a byte |
| DoubleArrays.LabelOfNodeUnit | sudachipy/dartsclone/doublearray.py:104-105 | the label of a unit with bit 31 clear is its low byte |
| DoubleArrays.OffsetDecode | sudachipy/dartsclone/doublearray.py:107-108 | the offset is the bits from 10 up, times 256 when bit 9 is set |
| DoubleArrays.ValueRoundTrip | sudachipy/dartsclone/doublearray.py:101-105 | a value below 2**31 stored by `set_value` is read back by `value`, and its unit's label is no byte |
| DoubleArrays.LabelRoundTrip | sudachipy/dartsclone/doublearray.py:98-108 | a byte stored by `set_label` is read back by `label`; the leaf flag and offset are undisturbed |
| DoubleArrays.HasLeafRoundTrip | sudachipy/dartsclone/doublearray.py:98-108 | the flag stored by `set_has_leaf` is read back; label and offset are undisturbed |
| DoubleArrays.OffsetRoundTrip | sudachipy/dartsclone/doublearray.py:107-108 | an offset below 2**21, or a multiple of 256, stored by `set_offset` is read back; the leaf flag survives, and the label too for offsets below 2**29 |
| DoubleArrays.RootUnit | sudachipy/dartsclone/doublearray.py:81-83 | the root unit the builder writes reads back as offset 1, label 0 and no leaf |
| DoubleArrays.LookupStep | sudachipy/dartsclone/doublearray.py:66-70 | looking up a key is looking up its tail from the child reached by its first byte |
| DoubleArrays.LookupMismatch | sudachipy/dartsclone/doublearray.py:69-70 | a key through a byte whose child carries another label is not stored |
| DoubleArrays.PrefixHitsAreLookups | sudachipy/dartsclone/doublearray.py:78-96 | what `common_prefix_search` finds is exactly every prefix of the key that looks up a value, in order of length |
| DoubleArrays.PrefixHitsStep | sudachipy/dartsclone/doublearray.py:85-95 | one iteration: an index error past the array, a stop at a label mismatch, a hit appended where the unit has a leaf, and nothing otherwise |
| DoubleArrays.ExactMatchIsLastPrefixHit | sudachipy/dartsclone/doublearray.py:61-96 | a key `exact_match_search` finds is the last hit of `common_prefix_search` from 0 |
| DoubleArrays.ExactMissIsNoPrefixHit | sudachipy/dartsclone/doublearray.py:61-96 | a key `exact_match_search` misses ends no prefix hit |
| DoubleArrays.PrefixSearchMeaning | sudachipy/dartsclone/doublearray.py:78-96 | the hits' ends strictly increase within the key and each one's prefix is stored with that value |
| DoubleArrays.UnitsFromBytes | sudachipy/dartsclone/doublearray.py:43-45 | one unit per 4 bytes, each below 2**32 |
| DoubleArrays.UnitsFromUnitBytes | sudachipy/dartsclone/doublearray.py:41-46 | reading the builder's bytes back gives the builder's units |
| DoubleArrays.DoubleArray.constructor | sudachipy/dartsclone/doublearray.py:9-12 | no array, no buffer, size 0 |
| DoubleArrays.DoubleArray.SetArray | sudachipy/dartsclone/doublearray.py:14-19 | the array and size become the given ones; the buffer is kept |
| DoubleArrays.DoubleArray.Clear | sudachipy/dartsclone/doublearray.py:27-29 | the buffer is dropped and the size becomes 0; the array is kept |
| DoubleArrays.DoubleArray.TotalSize | sudachipy/dartsclone/doublearray.py:34-35 | four bytes per unit |
| DoubleArrays.DoubleArray.Build | sudachipy/dartsclone/doublearray.py:37-46 | on success the keys were sorted and free of zero bytes, the buffer holds the units' bytes and the size is the unit count; on failure nothing changes |
| DoubleArrays.DoubleArray.ExactMatchSearch | sudachipy/dartsclone/doublearray.py:61-76 | `[value, len(key)]` when the key is stored, `[-1, 0]` when not; an index error on an empty array |
| DoubleArrays.DoubleArray.CommonPrefixSearch | sudachipy/dartsclone/doublearray.py:78-96 | every stored prefix of `key[offset:]` with its value, in order of end; an index error on an empty array |
| JTypedByteBuffers.Written | sudachipy/dictionarylib/jtypedbytebuffer.py:30 | a stream write changes nothing when empty and otherwise overwrites at the cursor, zero-padding a gap and growing the stream |
| JTypedByteBuffers.WrittenTwice | sudachipy/dictionarylib/jtypedbytebuffer.py:30-33 | two consecutive writes are one write of the concatenation |
| JTypedByteBuffers.WrittenAtEnd | sudachipy/dictionarylib/jtypedbytebuffer.py:30-33 | a write with the cursor at the end appends |
| JTypedByteBuffers.IntBytes | sudachipy/dictionarylib/jtypedbytebuffer.py:15-30 | ValueError for an unknown type name; otherwise the little-endian bytes in the type's width, present exactly when the value fits, and decoding back to the value |
| JTypedByteBuffers.UnsignedTypes | sudachipy/dictionarylib/jtypedbytebuffer.py:16-23 | 'byte' and 'char' are unsigned whatever is asked, so a negative value fails for them |
| JTypedByteBuffers.JTypedByteBuffer.constructor | sudachipy/dictionarylib/jtypedbytebuffer.py:4 | a new stream is empty with the cursor at 0 |
| JTypedByteBuffers.JTypedByteBuffer.Write | sudachipy/dictionarylib/jtypedbytebuffer.py:30 | the stream becomes Written(old stream, cursor, data) and the cursor moves past the data |
| JTypedByteBuffers.JTypedByteBuffer.Read | sudachipy/dictionarylib/jtypedbytebuffer.py:4 | read returns everything from the cursor and moves it to the end; past the end it returns nothing |
| JTypedByteBuffers.JTypedByteBuffer.Seek | sudachipy/dictionarylib/jtypedbytebuffer.py:4 | the inherited seek moves the cursor to the position and leaves the bytes |
| JTypedByteBuffers.JTypedByteBuffer.Tell | sudachipy/dictionarylib/jtypedbytebuffer.py:4 | the inherited tell is the cursor, where the next write lands |
| JTypedByteBuffers.JTypedByteBuffer.GetValue | sudachipy/dictionarylib/jtypedbytebuffer.py:4 | the inherited getvalue is every byte written, wherever the cursor is |
| JTypedByteBuffers.JTypedByteBuffer.WriteInt | sudachipy/dictionarylib/jtypedbytebuffer.py:15-30 | on error nothing changes; otherwise the IntBytes of the value are written at the cursor |
| JTypedByteBuffers.JTypedByteBuffer.WriteStr | sudachipy/dictionarylib/jtypedbytebuffer.py:32-33 | the text's UTF-16LE code units are written with no length prefix, two bytes per code unit |
| JTypedByteBuffers.JTypedByteBuffer.Clear | sudachipy/dictionarylib/jtypedbytebuffer.py:35-37 | the stream is empty and the cursor is 0 |
| DictionaryHeaders.ReadHeader | sudachipy/dictionarylib/dictionaryheader.py:8-11 | a struct error with fewer than 16 bytes at the offset; success exactly when the 256 description bytes decode as UTF-8; the creation time is the unsigned little-endian u64 at offset 8 |
| DictionaryHeaders.ReadHeaderBytes | sudachipy/dictionarylib/dictionaryheader.py:5-11 | a header with a 256-byte description takes storage_size bytes and reads back unchanged wherever it sits in a buffer |
| WordIdTables.NewWordIdTable | sudachipy/dictionarylib/wordidtable.py:5-9 | the table's size is the u32 at the offset and its entries start 4 bytes later |
| WordIdTables.Get | sudachipy/dictionarylib/wordidtable.py:14-18 | succeeds exactly when the length byte and that many u32 values are inside the buffer; the result holds those values in order |
| WordParameterLists.NewWordParameterList | sudachipy/dictionarylib/wordparameterlist.py:2-9 | the list's size is the u32 at the offset and its 6-byte records start 4 bytes later |
| WordParameterLists.GetLeftId | sudachipy/dictionarylib/wordparameterlist.py:17-19 | the unsigned u16 at byte 0 of the word's record |
| WordParameterLists.GetRightId | sudachipy/dictionarylib/wordparameterlist.py:21-23 | the unsigned u16 at byte 2 of the word's record |
| WordParameterLists.GetCost | sudachipy/dictionarylib/wordparameterlist.py:25-27 | the signed i16 at byte 4 of the word's record |
| Bytes.DecodeEncodeUnsigned | sudachipy/dictionarylib/wordparameterlist.py:17-19 | an unsigned value encoded in n little-endian bytes decodes back to itself |
| Bytes.EncodeDecodeUnsigned | sudachipy/dictionarylib/wordparameterlist.py:17-19 | n bytes decoded and re-encoded in n bytes are the same bytes |
| Bytes.ToBytes | sudachipy/dictionarylib/jtypedbytebuffer.py:30 | OverflowError exactly when the value does not fit the width and signedness; otherwise exactly n bytes |
| Bytes.ToBytesRoundTrip | sudachipy/dictionarylib/jtypedbytebuffer.py:30 | what is written signed reads back signed, what is written unsigned reads back unsigned |
| Bytes.SignedReadUnsigned | sudachipy/dictionarylib/wordparameterlist.py:17-23 | a negative value written signed reads back unsigned as value + 256^n |
| Bytes.ReadAt | sudachipy/dictionarylib/wordparameterlist.py:18-19 | seeking past the end fails; otherwise the n bytes at the position, fewer near the end |
| Bytes.ReadByteAt | sudachipy/dictionarylib/wordidtable.py:15 | the byte at the position, an error exactly at or past the end |
| Bytes.UnpackU32s | sudachipy/dictionarylib/wordidtable.py:17 | a struct error unless n u32 values fit; otherwise the n little-endian values in order |
| Bytes.ReadUnsignedWritten | sudachipy/dictionarylib/wordparameterlist.py:17-23 | an unsigned field written in the middle of a buffer reads back from its position |
| Bytes.ReadSignedWritten | sudachipy/dictionarylib/wordparameterlist.py:25-27 | a signed field written in the middle of a buffer reads back from its position |
| Grammars.ReadPosString | sudachipy/dictionarylib/grammar.py:65-70 | a string is read only where its length byte exists, and comes back with that length |
| Grammars.ReadPosStringDecodes | sudachipy/dictionarylib/grammar.py:65-70 | the string is the UTF-16 decoding (byte-order mark honoured) of exactly the code units its length byte announces |
| Grammars.AsWrittenStepFallsShort | sudachipy/dictionarylib/grammar.py:23 | for a string holding U+2000B the step by decoded length lands 2 bytes short of the next string (see Findings) |
| Grammars.PosListPrefixErrPersists | sudachipy/dictionarylib/grammar.py:19-24 | once a part of speech fails to read, every longer table fails with that same error |
| Grammars.PosListPrefixFailsAt | sudachipy/dictionarylib/grammar.py:19-24 | a part of speech that fails to read makes the whole table fail with its error |
| Grammars.ReadPos | sudachipy/dictionarylib/grammar.py:20-23 | the inner loop reads the six strings of one part of speech, each starting where the one before ends by its stored length (the corrected step; see Findings) |
| Grammars.ParseGrammar | sudachipy/dictionarylib/grammar.py:4-31 | every part of speech has six strings; the matrix starts at least 6 bytes in; storage_size is the header length plus 2 * left size * right size |
| Grammars.ReadIdSizes | sudachipy/dictionarylib/grammar.py:25-31 | the two signed u16 id sizes are read after the table and the matrix starts 4 bytes later; fails exactly when the first size is not there |
| Grammars.ReadGrammar | sudachipy/dictionarylib/grammar.py:4-31 | the constructor's loops produce exactly ParseGrammar |
| Grammars.GetPartOfSpeechString | sudachipy/dictionarylib/grammar.py:39-40 | an IndexError outside Python's index range (negative indices count from the end); otherwise the list entry |
| Grammars.GetPartOfSpeechId | sudachipy/dictionarylib/grammar.py:42-43 | the first index holding the part of speech, ValueError exactly when it is absent |
| Grammars.GetPartOfSpeechSize | sudachipy/dictionarylib/grammar.py:36-37 | the size is the number of ids get_part_of_speech_string answers from 0 up: an id below it has a part of speech and one at or above it raises |
| Grammars.GetConnectCost | sudachipy/dictionarylib/grammar.py:45-46 | the signed i16 of cell (left, right), row-major by right id; fails exactly when the cell position is before the buffer or past its end |
| WordInfoLists.WordIdToOffset | sudachipy/dictionarylib/wordinfolist.py:37-39 | the u32 at offset + 4 * word id, taken through a slice so a short slice decodes to a smaller number |
| WordInfoLists.StringLengthAt | sudachipy/dictionarylib/wordinfolist.py:41-46 | one byte below 128, otherwise a 15-bit length over two bytes; a ValueError when a byte it needs is missing |
| WordInfoLists.StringAt | sudachipy/dictionarylib/wordinfolist.py:48-50 | the length, then the UTF-16LE decoding of the bytes that follow it |
| WordInfoLists.IntArrayAt | sudachipy/dictionarylib/wordinfolist.py:52-57 | a count byte, then exactly that many i32 values; fails only when the count byte is missing |
| WordInfoLists.ReadIntArray | sudachipy/dictionarylib/wordinfolist.py:52-57 | the loop produces exactly IntArrayAt |
| WordInfoLists.EntryAtAsWritten | sudachipy/dictionarylib/wordinfolist.py:12-24 | the record as decoded: dictionary form still the surface, an empty normalized form replaced by the surface, an empty reading form kept empty, every field within its encoded width |
| WordInfoLists.EntryAt | sudachipy/dictionarylib/wordinfolist.py:17-21 | the corrected record: an empty reading form is restored to the surface too, and nothing else differs from EntryAtAsWritten (see Findings) |
| WordInfoLists.ReadEntry | sudachipy/dictionarylib/wordinfolist.py:12-24 | the field-by-field decoding produces exactly EntryAt |
| WordInfoLists.ReadWordInfo | sudachipy/dictionarylib/wordinfolist.py:10-35 | get_word_info produces exactly ResolveHops over the record decoder |
| WordInfoLists.ResolveHops | sudachipy/dictionarylib/wordinfolist.py:26-29 | with no recursion depth left the result is a RecursionError |
| WordInfoLists.ResolvedIsRecordWithDictionaryForm | sudachipy/dictionarylib/wordinfolist.py:26-35 | the result is the word's own record, whose dictionary form is its own surface when it does not hop and the surface of the named record when it does |
| WordInfoLists.DictionaryFormOfBaseForm | sudachipy/dictionarylib/wordinfolist.py:26-27 | a record whose dictionary-form id is negative or its own is returned as decoded |
| WordInfoLists.DictionaryFormOneHop | sudachipy/dictionarylib/wordinfolist.py:26-29 | one hop to a base form takes that record's surface as dictionary form and keeps the rest |
| WordInfoLists.CycleExhaustsRecursion | sudachipy/dictionarylib/wordinfolist.py:26-29 | two records naming each other never finish: every depth ends in RecursionError |
| Lexicons.ReadBlocks | sudachipy/dictionarylib/doublearraylexicon.py:13-29 | the trie units, word-id table, word parameters and word information lie one after the other, each starting where the previous block's storage ends, and the word information holds as many words as the parameters |
| Lexicons.WithEnd | sudachipy/dictionarylib/doublearraylexicon.py:37-38 | every id of a table entry, in table order, paired with the hit's end |
| Lexicons.ExpandHitsEnds | sudachipy/dictionarylib/doublearraylexicon.py:31-39 | every expanded pair carries the end of one of the hits, and the ends never decrease |
| Lexicons.LookupEnds | sudachipy/dictionarylib/doublearraylexicon.py:31-39 | a lookup gives pairs whose ends are positions past the offset, within the text, in non-decreasing order |
| Lexicons.ExpandFailsAt | sudachipy/dictionarylib/doublearraylexicon.py:34-35 | once a table entry fails to read, the whole lookup fails with its error |
| Lexicons.DoubleArrayLexicon.Open | sudachipy/dictionarylib/doublearraylexicon.py:13-29 | succeeds exactly when ReadBlocks does, with a fresh trie and the blocks it reads |
| Lexicons.DoubleArrayLexicon.constructor | sudachipy/dictionarylib/doublearraylexicon.py:13-29 | the lexicon holds the trie and the size, word id table, parameters and word information of the blocks it was read from |
| Lexicons.DoubleArrayLexicon.GetLeftId | sudachipy/dictionarylib/doublearraylexicon.py:41-42 | the parameter list's left id of the word, an unsigned 16-bit number, or its error |
| Lexicons.DoubleArrayLexicon.GetRightId | sudachipy/dictionarylib/doublearraylexicon.py:44-45 | the parameter list's right id of the word, an unsigned 16-bit number, or its error |
| Lexicons.DoubleArrayLexicon.GetCost | sudachipy/dictionarylib/doublearraylexicon.py:47-48 | the parameter list's cost of the word, a signed 16-bit number, or its error |
| Lexicons.DoubleArrayLexicon.Lookup | sudachipy/dictionarylib/doublearraylexicon.py:31-39 | an error on an empty trie; otherwise every common-prefix hit expanded into its word ids, each with the hit's end |
| Lexicons.AppendWithEnd | sudachipy/dictionarylib/doublearraylexicon.py:37-38 | the inner loop appends WithEnd of the entry to the list so far |
| Lexicons.DoubleArrayLexicon.GetWordInfo | sudachipy/dictionarylib/doublearraylexicon.py:50-51 | the word information list's get_word_info |
| LexiconSets.GetDictionaryId | sudachipy/dictionarylib/lexiconset.py:43-44 | the shift right by 28 floors: the id lies in the dictionary number's 2^28 range, negative exactly for a negative id |
| LexiconSets.GetWordId | sudachipy/dictionarylib/lexiconset.py:46-47 | the low 28 bits: the id is the dictionary number times 2^28 plus this number |
| LexiconSets.GetWordIdIsMask | sudachipy/dictionarylib/lexiconset.py:46-47 | on a non-negative id the arithmetic form equals the bitwise and with 0x0FFFFFFF |
| LexiconSets.BuildWordIdValue | sudachipy/dictionarylib/lexiconset.py:54 | the or of the shifted dictionary number with a 28-bit word number is their sum |
| LexiconSets.LexiconSet.constructor | sudachipy/dictionarylib/lexiconset.py:4-7 | the set holds the system lexicon alone |
| LexiconSets.LexiconSet.Add | sudachipy/dictionarylib/lexiconset.py:9-11 | every call raises AttributeError, so nothing is ever added |
| LexiconSets.LexiconSet.Lookup | sudachipy/dictionarylib/lexiconset.py:13-16 | with one lexicon, that lexicon's lookup; with any other count, a TypeError from constructing Itr |
| LexiconSets.LexiconSet.Route | sudachipy/dictionarylib/lexiconset.py:31-41 | the lexicon the dictionary number selects by Python indexing and the word number to ask it for; an IndexError exactly outside the index range; an id below 2^28 goes to the system lexicon unchanged |
| LexiconSets.LexiconSet.GetLeftId | sudachipy/dictionarylib/lexiconset.py:31-32 | the routed lexicon's left id of the word number, or the routing error |
| LexiconSets.LexiconSet.GetRightId | sudachipy/dictionarylib/lexiconset.py:34-35 | the routed lexicon's right id of the word number, or the routing error |
| LexiconSets.LexiconSet.GetCost | sudachipy/dictionarylib/lexiconset.py:37-38 | the routed lexicon's cost of the word number, or the routing error |
| LexiconSets.LexiconSet.GetWordInfo | sudachipy/dictionarylib/lexiconset.py:40-41 | the routed lexicon's word information, or the routing error |
| LexiconSets.LexiconSet.WordInfoAt | sudachipy/dictionarylib/lexiconset.py:40-41 | the word information of the lexicon the id routes to, read at the routed word number, or the routing error |
| LexiconSets.MinusOneRoutesToLast | sudachipy/dictionarylib/lexiconset.py:31-47 | id -1 asks the last lexicon for word 0x0FFFFFFF |
| CharacterCategories.ContainingLength | sudachipy/dictionarylib/charactercategory.py:18-23 | the index of the first character outside the range, or the text's length: all before it are inside and it is not |
| CharacterCategories.FirstCategories | sudachipy/dictionarylib/charactercategory.py:28-32 | the categories of the first range containing the code point; when none does, the TypeError of `set(CategoryType.DEFAULT)` |
| CharacterCategories.ParseCategories | sudachipy/dictionarylib/charactercategory.py:62-69 | every category collected is named by a column before the first empty or `#` column |
| CharacterCategories.ParseLine | sudachipy/dictionarylib/charactercategory.py:45-69 | blank and comment lines are skipped; a declared range has low <= high |
| CharacterCategories.ScanStops | sudachipy/dictionarylib/charactercategory.py:44-70 | once a line raises, later lines change neither the ranges appended nor the error |
| CharacterCategories.LaterLinesWin | sudachipy/dictionarylib/charactercategory.py:71-76 | after reading, every code point from 0 up has the categories of the last declared range containing it, or {DEFAULT} |
| CharacterCategories.CharacterCategory.constructor | sudachipy/dictionarylib/charactercategory.py:25-26 | the range list starts empty |
| CharacterCategories.CharacterCategory.GetCategoryTypes | sudachipy/dictionarylib/charactercategory.py:28-32 | the loop returns exactly FirstCategories from the first range |
| CharacterCategories.CharacterCategory.ReadCharacterDefinition | sudachipy/dictionarylib/charactercategory.py:34-78 | on an error the ranges read so far stay appended and the error is returned; otherwise the list is reversed and the catch-all range appended |
| CharacterCategories.CharacterCategory.ReadLineAt | sudachipy/dictionarylib/charactercategory.py:45-70 | one line appends its range, if any, and returns its error, if any |
| CharacterCategories.SingleCodePoint | sudachipy/dictionarylib/charactercategory.py:55-58 | a single code point `0xNNNN` declares a range with low == high |
| DictionaryLayouts.IntFieldWidths | sudachipy/dictionarylib/jtypedbytebuffer.py:19-26 | 'int' and 'short' are the signed four- and two-byte layouts |
| DictionaryLayouts.I32FieldRoundTrip | sudachipy/dictionarylib/wordinfolist.py:20 | a signed 'int' field reads back through the reader's signed four-byte read, which moves past it |
| DictionaryLayouts.U16FieldRoundTrip | sudachipy/dictionarylib/wordinfolist.py:16 | a non-negative 'short' field reads back through the reader's unsigned two-byte read |
| DictionaryLayouts.WithBit7 | sudachipy/dictionarylib/dictionarybuilder.py:369 | `h OR 0x80` has bit 7 set, adds 0x80 to a value below it and stays a byte for a byte |
| DictionaryLayouts.StringLengthBytes | sudachipy/dictionarylib/dictionarybuilder.py:365-370 | one byte up to 127; two bytes below 0x10000, the first with bit 7 set; an OverflowError from 0x10000 on |
| DictionaryLayouts.ByteField | sudachipy/dictionarylib/jtypedbytebuffer.py:16-18 | a 'byte' is one byte, OverflowError outside 0..255 |
| DictionaryLayouts.StringLengthRoundTrip | sudachipy/dictionarylib/wordinfolist.py:41-46 | a length below 0x8000 written by write_stringlength reads back through buffer_to_string_length, which moves past it |
| DictionaryLayouts.LongLengthWraps | sudachipy/dictionarylib/dictionarybuilder.py:365-370 | a length from 0x8000 to 0xFFFF is written without error but reads back less 0x8000 |
| DictionaryLayouts.StringBytes | sudachipy/dictionarylib/dictionarybuilder.py:355-363 | write_string succeeds exactly when the UTF-16 length (two units from U+10000) is below 0x10000 |
| DictionaryLayouts.StringRoundTrip | sudachipy/dictionarylib/wordinfolist.py:48-50 | a string of fewer than 0x8000 UTF-16 code units reads back whole, and the reader moves past it |
| DictionaryLayouts.IntsBytes | sudachipy/dictionarylib/dictionarybuilder.py:374-375 | succeeds exactly when every value fits a signed 'int', four bytes each |
| DictionaryLayouts.IntArrayBytes | sudachipy/dictionarylib/dictionarybuilder.py:372-375 | succeeds exactly when there are fewer than 256 values that all fit an 'int': the count byte, then the values |
| DictionaryLayouts.IntsReadBack | sudachipy/dictionarylib/wordinfolist.py:55-56 | the values of an int array read back whole, in order |
| DictionaryLayouts.IntArrayRoundTrip | sudachipy/dictionarylib/wordinfolist.py:52-57 | an int array written by write_intarray reads back whole through buffer_to_int_array |
| DictionaryLayouts.SplitBytes | sudachipy/dictionarylib/dictionarybuilder.py:275-277 | a split column that names an unknown word reaches write_intarray as a ValueError object, whose len() raises TypeError; parsed ids are written as an int array |
| DictionaryLayouts.Stored | sudachipy/dictionarylib/dictionarybuilder.py:265-273 | a form is stored as "" exactly when it equals the surface or is already empty |
| DictionaryLayouts.RecordReadBack | sudachipy/dictionarylib/wordinfolist.py:10-24 | a record write_wordinfo writes decodes, at the position the offset table names, to the fields written, except that an empty normalized form comes back as the surface and a reading equal to the surface comes back empty |
| DictionaryLayouts.RecordReadBackIntended | sudachipy/dictionarylib/wordinfolist.py:17-21 | with the corrected reader a non-empty reading form comes back as written, also when it equals the surface and was stored as "" (see Findings) |
| DictionaryLayouts.StoredNormalizedReadsBack | sudachipy/dictionarylib/wordinfolist.py:17-19 | the stored normalized form reads back as the surface exactly when it was empty or the surface itself, and otherwise as itself |
| DictionaryBlocks.PosTableBytes | sudachipy/dictionarylib/dictionarybuilder.py:167-171 | succeeds exactly when there are fewer than 0x8000 entries and every field can be written: the count as a 'short', then every comma-separated field of every entry |
| DictionaryBlocks.FieldReadBack | sudachipy/dictionarylib/grammar.py:65-70 | a field of at most 127 code units without a leading byte-order mark, written by write_string, reads back through the grammar's buffer_to_string, and the next string starts right after it |
| DictionaryBlocks.FieldsReadBack | sudachipy/dictionarylib/grammar.py:20-23 | such fields written one after another read back in order, ending where their bytes end |
| DictionaryBlocks.PosListReadBack | sudachipy/dictionarylib/grammar.py:19-24 | entries of six such fields read back as their fields, ending where their bytes end |
| DictionaryBlocks.ShortReadBack | sudachipy/dictionarylib/grammar.py:72-74 | a 'short' field reads back through bytes_get_short |
| DictionaryBlocks.PosTableReadBack | sudachipy/dictionarylib/grammar.py:15-24 | the table convert_postable writes reads back as its count and the fields of its entries, ending where its bytes end |
| DictionaryBlocks.GrammarHead | sudachipy/dictionarylib/dictionarybuilder.py:167-180 | the grammar block without its matrix is the table and the two id sizes as 'short's, written exactly when all three can be |
| DictionaryBlocks.GrammarReadBack | sudachipy/dictionarylib/grammar.py:4-31 | a grammar head written from readable entries parses back to the same parts of speech split into fields, the same id sizes and the matrix starting right after the head |
| DictionaryBlocks.ParseInts | sudachipy/dictionarylib/dictionarybuilder.py:178 | `[int(x) for x in cols]`: every column parsed in order, a ValueError for the first that is not an integer |
| DictionaryBlocks.MatrixHeader | sudachipy/dictionarylib/dictionarybuilder.py:174-178 | a blank header is a ValueError at line 0; a header that parses has exactly two integer columns, the two sizes |
| DictionaryBlocks.MatrixLineOf | sudachipy/dictionarylib/dictionarybuilder.py:185-192 | blank and comment lines are skipped; a cell line's three integers are its columns |
| DictionaryBlocks.WriteCell | sudachipy/dictionarylib/dictionarybuilder.py:193-196 | a skipped line changes nothing; a negative cell position fails the seek; otherwise the cost is written as a 'short' at 2 * (l + lsize * r), keeping the buffer an even length |
| DictionaryBlocks.MatrixFrom | sudachipy/dictionarylib/dictionarybuilder.py:182-197 | the converted matrix has an even length |
| DictionaryBlocks.MatrixCellHolds | sudachipy/dictionarylib/dictionarybuilder.py:182-197 | every even cell holds the cost of the last line for that cell, 0 when no line wrote it |
| DictionaryBlocks.CellWritten | sudachipy/dictionarylib/dictionarybuilder.py:194-195 | the cell just written decodes to its cost |
| DictionaryBlocks.CellUntouched | sudachipy/dictionarylib/dictionarybuilder.py:194-196 | a write to another even cell leaves a cell as it was, or zero when it lay past the old end |
| DictionaryBlocks.NothingPastEnd | sudachipy/dictionarylib/dictionarybuilder.py:182-197 | no line wrote at or past the end of the matrix buffer |
| DictionaryBlocks.GrammarBytesWithoutMatrix | sudachipy/dictionarylib/dictionarybuilder.py:152-159 | without a matrix file the block is the table and two zero 'short's |
| DictionaryBlocks.EmptyMatrixRefused | sudachipy/dictionarylib/dictionarybuilder.py:174-176 | an empty matrix file is refused |
| DictionaryBlocks.ConnectCostReadBack | sudachipy/dictionarylib/grammar.py:45-46 | a grammar over the converted matrix gives each cell the last cost the matrix file gave it, 0 when it gave none |
| DictionaryBlocks.CellAt | sudachipy/dictionarylib/grammar.py:45-46 | the grammar reads cell (left, right) at the position the converter wrote it |
| DictionaryBlocks.GrammarBlockReadBack | sudachipy/dictionarylib/dictionarybuilder.py:143-197 | a grammar block written with a matrix file parses back: its parts of speech split into fields, the header's id sizes, and the converted matrix where the grammar reads connection costs |
| LexiconLayouts.U32sReadBack | sudachipy/dictionarylib/wordidtable.py:14-18 | non-negative values written as signed 'int's read back as the u32 values the word-id table unpacks |
| LexiconLayouts.WordIdTableOf | sudachipy/dictionarylib/dictionarybuilder.py:204-209 | the table holds one entry per key, and each key's trie value is the table position where its entry starts |
| LexiconLayouts.WordIdTableAccepts | sudachipy/dictionarylib/dictionarybuilder.py:207-209 | the table is written exactly when every key has fewer than 256 ids that fit an 'int' |
| LexiconLayouts.WordIdTableEntry | sudachipy/dictionarylib/dictionarybuilder.py:204-209 | in a placed table, the entry of each key sits at the value stored for it |
| LexiconLayouts.WordIdTableGet | sudachipy/dictionarylib/wordidtable.py:14-18 | a table reader over the written table gives each key's word ids back from the value the trie stores for it |
| LexiconLayouts.ParamBytes | sudachipy/dictionarylib/dictionarybuilder.py:244-246 | one word's left id, right id and cost as 'short's, written exactly when all three fit |
| LexiconLayouts.ParamsBytes | sudachipy/dictionarylib/dictionarybuilder.py:242-249 | the count as an 'int', then the records in entry order, written exactly when every piece can be |
| LexiconLayouts.ParamsPlacedAt | sudachipy/dictionarylib/wordparameterlist.py:17-27 | the record of word w sits 6 * w bytes into the placed records |
| LexiconLayouts.PlacedU16 | sudachipy/dictionarylib/wordparameterlist.py:17-23 | a signed 'short' read back unsigned is its value modulo 2^16 |
| LexiconLayouts.ParamsGet | sudachipy/dictionarylib/wordparameterlist.py:17-27 | the parameter reader gives each word its left and right ids modulo 2^16 (-1 reads back as 65535) and its cost as written |
| LexiconLayouts.UnitsBytes | sudachipy/dartsclone/doublearray.py:24-25 | the trie bytes are four little-endian bytes per unit |
| LexiconLayouts.UnitsReadBack | sudachipy/dictionarylib/doublearraylexicon.py:16-20 | the trie units read back as the u32s the lexicon unpacks |
| LexiconLayouts.LexiconParts | sudachipy/dictionarylib/dictionarybuilder.py:199-250 | a written lexicon block is the unit count, the units, the table length, the table, the entry count and the records, every count fitting an 'int' |
| LexiconLayouts.LexiconReadBack | sudachipy/dictionarylib/doublearraylexicon.py:13-29 | the lexicon reader over a written block gets the same trie units, the word-id table and the parameters where they were written, and word information starting right after the block with one word per entry |
| LexiconLayouts.LexiconPlaced | sudachipy/dictionarylib/dictionarybuilder.py:226-249 | in a written block the word-id table and the parameter records sit right behind their counts |
| LexiconLayouts.BlockRead | sudachipy/dictionarylib/dictionarybuilder.py:231-237 | a block written after its count as an 'int' has the count read back and follows it |
| LexiconLayouts.AreaFrom | sudachipy/dictionarylib/dictionarybuilder.py:259-280 | one record position per entry, in entry order |
| LexiconLayouts.AreaEntry | sudachipy/dictionarylib/dictionarybuilder.py:259-280 | in a written area every record was written, its position fits an 'int', and the record sits at that position |
| LexiconLayouts.AreaPositionsFit | sudachipy/dictionarylib/dictionarybuilder.py:261 | every record position fits the 'int' of the position table |
| LexiconLayouts.AreaWritten | sudachipy/dictionarylib/dictionarybuilder.py:254-285 | the records written from `start` and then the position table at the old end leave the stream as the old bytes, the table, zero bytes up to `start`, then the records |
| LexiconLayouts.AreaLayoutAsWritten | sudachipy/dictionarylib/dictionarybuilder.py:254-255 | as written, the records start 3 * (mark - n) zero bytes after the end of the position table (see Findings) |
| LexiconLayouts.AreaLayoutIntended | sudachipy/dictionarylib/dictionarybuilder.py:254-255 | with the records starting at mark + 4 * n, the position table is followed directly by the records |
| LexiconLayouts.AreaReadBack | sudachipy/dictionarylib/wordinfolist.py:37-39 | with the table at `mark`, the reader finds each entry's record at the position the table gives it, wherever the records start |
| LexiconLayouts.AreaRecordReadBack | sudachipy/dictionarylib/wordinfolist.py:10-24 | a record written into the area decodes, through its entry's position, as the fields written |
| DictionaryBuilders.IndexIn | sudachipy/dictionarylib/dictionarybuilder.py:37 | `list.index`: the first index holding the string |
| DictionaryBuilders.PosTableIdDense | sudachipy/dictionarylib/dictionarybuilder.py:36-41 | a known string keeps its index; a new one is appended and gets the old length; the table stays free of repeats |
| DictionaryBuilders.PosTable.constructor | sudachipy/dictionarylib/dictionarybuilder.py:33-34 | the table starts empty |
| DictionaryBuilders.PosTable.GetId | sudachipy/dictionarylib/dictionarybuilder.py:36-41 | the id and the new table are those PosTableIdDense describes |
| DictionaryBuilders.PosTable.GetList | sudachipy/dictionarylib/dictionarybuilder.py:43-44 | the list of part-of-speech strings in id order |
| DictionaryBuilders.Parameters | sudachipy/dictionarylib/dictionarybuilder.py:104 | three integers parsed from columns 1 to 3 |
| DictionaryBuilders.ParseRowAccepts | sudachipy/dictionarylib/dictionarybuilder.py:90-132 | the rows parse_line rejects, each with its error in the source's order: column count, over-long column, empty headword, then unparsable numbers, unknown part of speech, too many split units, an 'A' row with A or B splits, an unparsable dictionary-form id; every other row is accepted |
| DictionaryBuilders.ParseRowColumns | sudachipy/dictionarylib/dictionarybuilder.py:99-125 | an accepted row maps its columns: headword kept for the trie unless column 1 is "-1", parameters 1-3, surface 4, part of speech 5-10, reading 11, normalized form 12, dictionary-form id 13 ('*' is -1), split columns 15-17, head length in UTF-8 bytes |
| DictionaryBuilders.ParseRowTable | sudachipy/dictionarylib/dictionarybuilder.py:140-141 | parsing changes the part-of-speech table only for the system builder, only by appending the row's joined part of speech when new, and only once the row got that far |
| DictionaryBuilders.BelowTransitive | sudachipy/dictionarylib/dictionarybuilder.py:59 | the byte-string order of the sorted trie keys is transitive (with BelowIrreflexive, BelowTotal and BelowAsymmetric, a strict total order) |
| DictionaryBuilders.BelowTotal | sudachipy/dictionarylib/dictionarybuilder.py:59 | any two different keys are ordered one way or the other |
| DictionaryBuilders.InsertedKeepsOrder | sudachipy/dictionarylib/dictionarybuilder.py:134-138 | inserting keeps the keys sorted and every other key's list unchanged; the key gets the id appended, or a new list holding it |
| DictionaryBuilders.LookupSorted | sudachipy/dictionarylib/dictionarybuilder.py:136 | a key below every key of a sorted list is not in it |
| DictionaryBuilders.IdsOfMeans | sudachipy/dictionarylib/dictionarybuilder.py:78-83 | a key's list holds exactly the entries with that headword key, in ascending order, and is never empty |
| DictionaryBuilders.AddEntryKeepsTrie | sudachipy/dictionarylib/dictionarybuilder.py:81-83 | adding an entry as build_lexicon does keeps the trie keys in step with the entries |
| DictionaryBuilders.BuildRowsGrows | sudachipy/dictionarylib/dictionarybuilder.py:75-88 | one entry is appended per accepted row, the entries before stay, the table stays free of repeats, and success means every row was appended |
| DictionaryBuilders.BuildRowsEntries | sudachipy/dictionarylib/dictionarybuilder.py:78-83 | the i-th new entry is what parse_line made of row i with the table as it was then |
| DictionaryBuilders.BuildRowsStops | sudachipy/dictionarylib/dictionarybuilder.py:84-88 | once a row fails, the later rows change nothing |
| DictionaryBuilders.DictionaryBuilder.constructor | sudachipy/dictionarylib/dictionarybuilder.py:57-63 | no entries, no trie keys, an empty part-of-speech table and an empty byte buffer |
| DictionaryBuilders.DictionaryBuilder.GetPosId | sudachipy/dictionarylib/dictionarybuilder.py:140-141 | the id and table PosIdOf gives: the table's get_id for the system builder, the grammar's lookup for the user builder |
| DictionaryBuilders.DictionaryBuilder.ParseLine | sudachipy/dictionarylib/dictionarybuilder.py:90-125 | the result and the new table are ParseRow's |
| DictionaryBuilders.DictionaryBuilder.AddToTrie | sudachipy/dictionarylib/dictionarybuilder.py:134-138 | the word id is appended to the list of the headword's UTF-8 key, created in its sorted place when new |
| DictionaryBuilders.DictionaryBuilder.BuildLexicon | sudachipy/dictionarylib/dictionarybuilder.py:75-88 | the result, entries and table are BuildRows' over the rows, and the trie keys stay in step with the entries |
| DictionaryBuilders.FirstMatch | sudachipy/dictionarylib/dictionarybuilder.py:342-349 | the first entry with that surface, part of speech and reading, or -1 when none has them |
| DictionaryBuilders.DictionaryBuilder.GetLocalWordId | sudachipy/dictionarylib/dictionarybuilder.py:342-349 | the loop returns FirstMatch |
| DictionaryBuilders.DictionaryBuilder.GetWordId | sudachipy/dictionarylib/dictionarybuilder.py:342-349 | the base lookup, or the user builder's override of it |
| DictionaryBuilders.DictionaryBuilder.WordToId | sudachipy/dictionarylib/dictionarybuilder.py:331-340 | the result and table WordToIdOf gives: too few columns fail, the reference's part of speech is looked up, then its word id |
| DictionaryBuilders.DictionaryBuilder.ParseSplitInfo | sudachipy/dictionarylib/dictionarybuilder.py:301-315 | the result and table SplitInfoOf gives: '*' is no ids; too many units fail; an unknown reference returns, not raises, a ValueError |
| DictionaryBuilders.CheckWordIdAccepts | sudachipy/dictionarylib/dictionarybuilder.py:351-353 | the system builder accepts exactly the indexes of its entries; the user builder exactly flagged ids whose low 28 bits index an entry, or unflagged ids below the system lexicon's size when its `size()` call answers; rejections are ValueError except an unflagged id whose `size()` call raises |
| DictionaryBuilders.ParseIntOfDigits | sudachipy/dictionarylib/dictionarybuilder.py:317-327 | an id text starting with a digit never parses negative |
| DictionaryBuilders.ParseIdOfPrinted | sudachipy/dictionarylib/dictionarybuilder.py:321-329 | a printed entry index parses back to itself, and 'U' before it adds the user flag only in a user dictionary |
| DictionaryBuilders.SplitWordsValid | sudachipy/dictionarylib/dictionarybuilder.py:304-315 | every id a split column yields passes check_wordid, one id per unit |
| DictionaryBuilders.PrintedSplitsParse | sudachipy/dictionarylib/dictionarybuilder.py:301-315 | a column of printed entry indexes reads back as those indexes, leaving the table unchanged |
| DictionaryBuilders.DictionaryBuilder.WriteStringLength | sudachipy/dictionarylib/dictionarybuilder.py:365-370 | on error the byte buffer is unchanged; otherwise StringLengthBytes is appended to it |
| DictionaryBuilders.DictionaryBuilder.WriteString | sudachipy/dictionarylib/dictionarybuilder.py:355-363 | the counting loop gives the UTF-16 length, and the byte buffer gets StringBytes of the text, or the error it raises |
| DictionaryBuilders.DictionaryBuilder.Utf16Count | sudachipy/dictionarylib/dictionarybuilder.py:356-362 | the counting loop gives the UTF-16 length: two for a character from U+10000 on, one for any other |
| DictionaryBuilders.DictionaryBuilder.ConvertPosTable | sudachipy/dictionarylib/dictionarybuilder.py:167-171 | the byte buffer gets PosTableBytes of the list, or the OverflowError it raises |
| DictionaryBuilders.DictionaryBuilder.WritePosEntry | sudachipy/dictionarylib/dictionarybuilder.py:169-171 | the strings of one more part of speech are appended, or OverflowError exactly when the whole list cannot be written |
| DictionaryBuilders.DictionaryBuilder.WriteStrings | sudachipy/dictionarylib/dictionarybuilder.py:170-171 | StringsBytes of the texts is appended, each by write_string, or OverflowError |
| DictionaryBuilders.DictionaryBuilder.WriteStringAt | sudachipy/dictionarylib/dictionarybuilder.py:170-171 | one more text is appended, or OverflowError exactly when the texts cannot all be written |
| DictionaryBuilders.DictionaryBuilder.FlushTo | sudachipy/dictionarylib/dictionarybuilder.py:146-149 | the byte buffer's bytes are written to the output at its cursor and the buffer is emptied |
| DictionaryBuilders.DictionaryBuilder.WriteGrammar | sudachipy/dictionarylib/dictionarybuilder.py:143-165 | the output gets GrammarBytes of the table and matrix file appended, or the error it raises; the byte buffer ends empty |
| DictionaryBuilders.DictionaryBuilder.WriteMatrix | sudachipy/dictionarylib/dictionarybuilder.py:160-165 | the output gets the sizes and then the converted matrix, or the conversion's error; both work buffers end empty |
| DictionaryBuilders.DictionaryBuilder.WriteZeroSizes | sudachipy/dictionarylib/dictionarybuilder.py:152-159 | without a matrix file four zero bytes are appended |
| DictionaryBuilders.DictionaryBuilder.ConvertMatrix | sudachipy/dictionarylib/dictionarybuilder.py:173-197 | the sizes go into the byte buffer and a new buffer holds the converted matrix, or the error is returned |
| DictionaryBuilders.DictionaryBuilder.FillMatrix | sudachipy/dictionarylib/dictionarybuilder.py:184-196 | the matrix buffer holds MatrixFrom of the lines in order with its cursor at 0, or the error of the first line that fails |
| DictionaryBuilders.DictionaryBuilder.FillLine | sudachipy/dictionarylib/dictionarybuilder.py:184-196 | one more line converted: MatrixFrom of one more line, the cursor back at 0 |
| DictionaryBuilders.DictionaryBuilder.WriteCellAt | sudachipy/dictionarylib/dictionarybuilder.py:193-196 | a cell's write is WriteCell, with the cursor put back |
| DictionaryBuilders.DictionaryBuilder.BuildWordIdTable | sudachipy/dictionarylib/dictionarybuilder.py:201-209 | the table buffer and trie values are WordIdTableOf the trie keys' id lists, or its error |
| DictionaryBuilders.LexiconSteps | sudachipy/dictionarylib/dictionarybuilder.py:199-250 | write_lexicon fails first on the table, then on a unit count or table size too big for an 'int', then on the parameters; written, it is the pieces in order |
| DictionaryBuilders.DictionaryBuilder.WriteLexicon | sudachipy/dictionarylib/dictionarybuilder.py:199-251 | the output gets LexiconBytes of the trie units, id lists and parameters, or its error; with no entries the parameter count stays behind in the byte buffer |
| DictionaryBuilders.ProgressRaisesExactly | sudachipy/dictionarylib/dictionarybuilder.py:213-216 | the progress function calls the non-callable logger, raising TypeError, during the build of a trie of k keys exactly when k is 4 more than a multiple of 5 |
| DictionaryBuilders.DictionaryBuilder.WriteTrieAndTable | sudachipy/dictionarylib/dictionarybuilder.py:219-239 | the output gets the unit count, the units, the table size and the table; OverflowError exactly when the unit count or the table size does not fit an 'int' |
| DictionaryBuilders.DictionaryBuilder.WriteUnitsPart | sudachipy/dictionarylib/dictionarybuilder.py:220-227 | the output gets the unit count and the units; OverflowError exactly when the count does not fit an 'int' |
| DictionaryBuilders.DictionaryBuilder.WriteTablePart | sudachipy/dictionarylib/dictionarybuilder.py:231-237 | the output gets the table's size and the table; OverflowError exactly when the size does not fit an 'int' |
| DictionaryBuilders.DictionaryBuilder.WriteParams | sudachipy/dictionarylib/dictionarybuilder.py:241-250 | the output gets ParamsBytes of the entries' parameters, each entry flushed after its three 'short's |
| DictionaryBuilders.DictionaryBuilder.WriteParamEntry | sudachipy/dictionarylib/dictionarybuilder.py:243-249 | one more entry's three 'short's reach the output and the buffer is emptied, or OverflowError exactly when the parameters cannot all be written |
| DictionaryBuilders.DictionaryBuilder.WriteShorts | sudachipy/dictionarylib/dictionarybuilder.py:244-246 | ParamBytes of the three parameters is appended, or OverflowError |
| DictionaryBuilders.DictionaryBuilder.WriteWordInfo | sudachipy/dictionarylib/dictionarybuilder.py:253-286 | the output gets the records at mark * 4 + n and the position table at mark, or the first error; the cursor ends after the table |
| DictionaryBuilders.DictionaryBuilder.WriteWordInfoAt | sudachipy/dictionarylib/dictionarybuilder.py:259-280 | one more entry placed: its position and record are written and the loop state advances, or the whole area fails with that error |
| DictionaryBuilders.DictionaryBuilder.WriteRecordTo | sudachipy/dictionarylib/dictionarybuilder.py:260-280 | the entry's record is written at the output's cursor and the byte buffer emptied, the table as the split parses leave it, or the record's error |
| DictionaryBuilders.DictionaryBuilder.WriteRecord | sudachipy/dictionarylib/dictionarybuilder.py:260-277 | the byte buffer gets the entry's RecordBytes, the split columns parsed just before their arrays, or the first error |
| DictionaryBuilders.DictionaryBuilder.WriteHead | sudachipy/dictionarylib/dictionarybuilder.py:262-264 | the surface, the head length and the part-of-speech id are appended, or the first error |
| DictionaryBuilders.DictionaryBuilder.WriteForms | sudachipy/dictionarylib/dictionarybuilder.py:265-273 | the normalized form, the dictionary-form id and the reading are appended, or the first error |
| DictionaryBuilders.DictionaryBuilder.WriteSplits | sudachipy/dictionarylib/dictionarybuilder.py:275-277 | the three split arrays are appended, each column parsed just before its array, with the table the parses leave, or the first error |
| DictionaryBuilders.DictionaryBuilder.WriteSplit | sudachipy/dictionarylib/dictionarybuilder.py:275 | one parsed split column's array is appended, or the TypeError a returned ValueError object raises |
| DictionaryBuilders.WriteIntArray | sudachipy/dictionarylib/dictionarybuilder.py:372-375 | IntArrayBytes of the values is appended, or its error |
| DictionaryBuilders.WriteInts | sudachipy/dictionarylib/dictionarybuilder.py:374-375 | each value as an 'int', or OverflowError |
| DictionaryBuilders.WritePosition | sudachipy/dictionarylib/dictionarybuilder.py:261 | a record position is appended as an 'int', failing exactly when it does not fit |
| DictionaryBuilders.RecordSteps | sudachipy/dictionarylib/dictionarybuilder.py:262-277 | a record fails at its first failing write; written, it is its fields in order |
| DictionaryBuilders.PlacedFails | sudachipy/dictionarylib/dictionarybuilder.py:259-280 | a position too big for an 'int', or a record that fails, fails the whole area with that error |
| DictionaryBuilders.AreaStops | sudachipy/dictionarylib/dictionarybuilder.py:259-280 | once an entry's position or record fails, the area fails the same way |
| DictionaryBuilders.MatrixGrammarFromParts | sudachipy/dictionarylib/dictionarybuilder.py:160-165 | after the table, the grammar block with a matrix file is the table and what convert_matrix produces, failing exactly as it fails |
| DictionaryBuilders.IntsBytesError | sudachipy/dictionarylib/jtypedbytebuffer.py:30 | every failure of the int writers is the same OverflowError |
| UserDictionaryBuilders.WithUserFlag | sudachipy/dictionarylib/userdictionarybuilder.py:37 | `x OR (1 << 28)` adds the user flag to a smaller id and leaves a flagged id as it is |
| UserDictionaryBuilders.FlaggedIdSplits | sudachipy/dictionarylib/userdictionarybuilder.py:37 | a flagged local id is word `local` of dictionary 1 as the lexicon set splits ids |
| UserDictionaryBuilders.GetPosIdNeverFallsBack | sudachipy/dictionarylib/userdictionarybuilder.py:28-32 | as written, a part of speech succeeds exactly when the system grammar has it, with an id below its size; any other raises ValueError (see Findings) |
| UserDictionaryBuilders.IntendedPosIdsSeparate | sudachipy/dictionarylib/userdictionarybuilder.py:28-32 | with the intended fallback, grammar parts of speech keep their ids and new ones get distinct ids from the grammar's size on |
| UserDictionaryBuilders.GetWordIdAsWritten | sudachipy/dictionarylib/userdictionarybuilder.py:34-38 | as written, a local match comes back flagged as a dictionary-1 id, and a word the user dictionary lacks raises AttributeError, on the assumption that lexicon.Lexicon lacks `get_word_id1` (see Findings and Left out) |
| UserDictionaryBuilders.IntendedWordIdsSeparate | sudachipy/dictionarylib/userdictionarybuilder.py:34-38 | the intended lookup never raises: local words are flagged, system words are not |
| UserDictionaryBuilders.CheckWordIdAsWritten | sudachipy/dictionarylib/userdictionarybuilder.py:40-44 | as written, when `system_lexicon.size()` raises, an id passes exactly when it is flagged and its low 28 bits index a local entry, and every unflagged non-negative id raises that call's error; when the call answers, the check is the intended one (see Findings) |
| UserDictionaryBuilders.IntendedCheckAccepts | sudachipy/dictionarylib/userdictionarybuilder.py:40-44 | the intended check accepts exactly the ids of a local or a system word, and its errors are all ValueError |
| InputTextBuilders.Utf8ByteLength | sudachipy/utf8inputtextbuilder.py:100-112 | the UTF-8 length of a code point is at most 4, and 0 exactly for code points below 0 or above 0x10FFFF |
| InputTextBuilders.Utf8ByteLengthOfChar | sudachipy/utf8inputtextbuilder.py:100-112 | for every character, utf8_byte_length is the length of its UTF-8 encoding, so build's per-byte tables line up with `encode('utf-8')` |
| InputTextBuilders.PerByteOwner | sudachipy/utf8inputtextbuilder.py:54-59 | byte j of the encoded text carries the value of the one character whose encoding contains byte j |
| InputTextBuilders.CharCategoriesMeaning | sudachipy/utf8inputtextbuilder.py:67-75 | character i gets the categories its code point has in the character table, and the lookup fails only when some character lies in no range |
| InputTextBuilders.CharCategoriesFailAt | sudachipy/utf8inputtextbuilder.py:72-74 | once one character has no category, every longer prefix fails with that character's error |
| InputTextBuilders.RunLengthMaximal | sudachipy/utf8inputtextbuilder.py:92-98 | the continuous length is at least one and maximal: every shorter run shares a category and one more character leaves the intersection empty |
| InputTextBuilders.ContinuousLength | sudachipy/utf8inputtextbuilder.py:92-98 | the loop of get_char_category_continuous_length computes the maximal run |
| InputTextBuilders.SpanBytesEncoded | sudachipy/utf8inputtextbuilder.py:84-86 | the byte count of a run of characters is the length of that run's UTF-8 encoding |
| InputTextBuilders.SpanByteLength | sudachipy/utf8inputtextbuilder.py:84-86 | the byte-count loop computes the UTF-8 length of the run |
| InputTextBuilders.ContinuitiesLength | sudachipy/utf8inputtextbuilder.py:77-90 | the continuity list has one entry per byte of the encoded text |
| InputTextBuilders.ContinuitiesStep | sudachipy/utf8inputtextbuilder.py:82-89 | the continuity list is the countdown of the first run's byte length followed by the list from the end of that run |
| InputTextBuilders.RunCountdown | sudachipy/utf8inputtextbuilder.py:83-88 | one pass of the loop finds the maximal run and appends the countdown of its byte length |
| InputTextBuilders.CharCategoryContinuities | sudachipy/utf8inputtextbuilder.py:77-90 | get_char_category_continuities returns the countdown list of maximal category runs, in bytes, for the whole text |
| InputTextBuilders.BuiltTextIndexed | sudachipy/utf8inputtextbuilder.py:46-65 | the built text has a byte index and an original offset for every byte and one for the end |
| InputTextBuilders.UTF8InputTextBuilder.constructor | sudachipy/utf8inputtextbuilder.py:7-12 | original and modified text are the input and the offset map is the identity 0 .. length |
| InputTextBuilders.UTF8InputTextBuilder.GetOriginalText | sudachipy/utf8inputtextbuilder.py:40-41 | the text the builder was made with, which replace never changes |
| InputTextBuilders.UTF8InputTextBuilder.GetText | sudachipy/utf8inputtextbuilder.py:43-44 | the modified text, with one offset entry per character and one for the end |
| InputTextBuilders.UTF8InputTextBuilder.Replace | sudachipy/utf8inputtextbuilder.py:15-38 | IndexError for a negative begin, a begin past the text or past the end; AttributeError for an empty span; otherwise the span, its end clamped to the text, becomes the replacement and its offset entries become as many copies of the begin offset as the replacement has characters |
| InputTextBuilders.UTF8InputTextBuilder.SpliceOffsets | sudachipy/utf8inputtextbuilder.py:30-38 | the offset loop leaves the entries before the span, then `length` copies of the begin offset, then the entries after the span |
| InputTextBuilders.UTF8InputTextBuilder.SpliceStep | sudachipy/utf8inputtextbuilder.py:34-38 | one pass overwrites an entry inside the old span and inserts one past it, extending the run of copies by one |
| InputTextBuilders.UTF8InputTextBuilder.Build | sudachipy/utf8inputtextbuilder.py:46-65 | build fails exactly when a character has no category, and otherwise returns the text with its UTF-8 bytes, per-byte character indexes and original offsets, categories and continuities |
| InputTextBuilders.UTF8InputTextBuilder.CharCategoryTypes | sudachipy/utf8inputtextbuilder.py:67-75 | the loop collects the categories of every character in order |
| InputTextBuilders.SpreadPerByte | sudachipy/utf8inputtextbuilder.py:51-61 | the two per-byte tables give each byte its character's index and original offset |
| InputTexts.GetSubstring | sudachipy/utf8inputtext.py:23-31 | IndexError for a negative begin, an end past the bytes, or begin after end; otherwise the characters between the characters of the two bytes |
| InputTexts.IsCharAlignment | sudachipy/utf8inputtext.py:36-37 | a byte is a character boundary exactly when it is no UTF-8 continuation byte; an index outside the bytes (counting negatives from the end) raises |
| InputTexts.GetOffsetTextLength | sudachipy/utf8inputtext.py:33-34 | the index of the character byte `index` belongs to; IndexError exactly outside Python's index range |
| InputTexts.GetOriginalIndex | sudachipy/utf8inputtext.py:39-40 | the original-text position of byte `index`; IndexError exactly outside Python's index range |
| InputTexts.GetCharCategoryContinuousLength | sudachipy/utf8inputtext.py:54-55 | the byte length of the category run from byte `index`; IndexError exactly outside Python's index range |
| InputTexts.Meet | sudachipy/utf8inputtext.py:49-51 | a category is in the result exactly when every character from b up to e - 1 has it |
| InputTexts.CharCategoryTypesAt | sudachipy/utf8inputtext.py:42-44 | with no end, the categories of the character of byte `begin` |
| InputTexts.CharCategoryTypesOver | sudachipy/utf8inputtext.py:45-52 | with an end, no categories when the range runs past the run starting at `begin`, else the categories common to its characters |
| InputTexts.CharCategoryTypesIn | sudachipy/utf8inputtext.py:42-52 | the loop computes the categories common to the characters of the range |
| InputTexts.RunEndIsFirstReach | sudachipy/utf8inputtext.py:57-64 | every byte before the stop belongs to a character before the target, and the byte at the stop does not |
| InputTexts.CodePointsOffsetLengthSpans | sudachipy/utf8inputtext.py:57-64 | the length spans exactly the bytes of the `n` characters from the one of byte `index`, fewer at the end of the text, and is at least one byte when n >= 1 |
| InputTexts.CodePointsOffsetLength | sudachipy/utf8inputtext.py:57-64 | a length exactly when the index is at most the byte count, and then the span from the index stays inside the bytes |
| InputTexts.GetCodePointsOffsetLength | sudachipy/utf8inputtext.py:57-64 | the loop's length is that span; an index past the bytes raises |
| DefaultInputTextPlugins.AddReplacement | sudachipy/plugin/input_text/default_input_text_plugin.py:81-83 | the key maps to its replacement and nothing else in the exemption set changes |
| DefaultInputTextPlugins.AddReplacementKeepsExact | sudachipy/plugin/input_text/default_input_text_plugin.py:81-83 | after adding a key, `key_lengths` still gives for each first character the length of the longest key starting with it |
| DefaultInputTextPlugins.ReadLineKeepsExact | sudachipy/plugin/input_text/default_input_text_plugin.py:66-85 | reading one line of the rewrite definition keeps `key_lengths` exact |
| DefaultInputTextPlugins.ParseRewriteLines | sudachipy/plugin/input_text/default_input_text_plugin.py:66-69 | each line is stripped and split into its columns, one shape per line |
| DefaultInputTextPlugins.ReadLinesKeepExact | sudachipy/plugin/input_text/default_input_text_plugin.py:63-85 | reading any prefix of the definition keeps `key_lengths` exact, whether it ends in an error or not |
| DefaultInputTextPlugins.ReadLinesStops | sudachipy/plugin/input_text/default_input_text_plugin.py:63-85 | once a line raises, later lines have no effect on the rules |
| DefaultInputTextPlugins.LongestMatch | sudachipy/plugin/input_text/default_input_text_plugin.py:36-44 | the length chosen is the longest, not above the limit, whose substring has a non-empty replacement; 0 when none has |
| DefaultInputTextPlugins.ChunkAt | sudachipy/plugin/input_text/default_input_text_plugin.py:30-61 | each step consumes at least one character and stays inside the text, and a character left unreplaced is written as it was |
| DefaultInputTextPlugins.PointwiseDecider | sudachipy/plugin/input_text/default_input_text_plugin.py:26-61 | the decision at every position is the one the rules and case maps give |
| DefaultInputTextPlugins.SameRewrite | sudachipy/plugin/input_text/default_input_text_plugin.py:26-61 | two deciders that agree at every position give the same text and the same offset map |
| DefaultInputTextPlugins.Advance | sudachipy/plugin/input_text/default_input_text_plugin.py:40-42 | one replacement moves a chunk from the unread text to the rewritten part, with its offsets |
| DefaultInputTextPlugins.Finish | sudachipy/plugin/input_text/default_input_text_plugin.py:28-29 | at the end of the text the rewritten part is the whole rewrite and its offset map |
| DefaultInputTextPlugins.RewriteIdentity | sudachipy/plugin/input_text/default_input_text_plugin.py:50-61 | with no rules, a text whose characters all normalise to themselves is left unchanged, and so is its offset map |
| DefaultInputTextPlugins.DefaultInputTextPlugin.constructor | sudachipy/plugin/input_text/default_input_text_plugin.py:9-12 | the plugin starts with no exemptions, no key lengths and no replacements |
| DefaultInputTextPlugins.DefaultInputTextPlugin.ReadRewriteLists | sudachipy/plugin/input_text/default_input_text_plugin.py:63-85 | the rules become those the lines define in order; on a RuntimeError the lines before it have taken effect and the error is the failing line's |
| DefaultInputTextPlugins.DefaultInputTextPlugin.ReadParsedLines | sudachipy/plugin/input_text/default_input_text_plugin.py:65-85 | the loop over parsed lines reaches the same rules and the same error |
| DefaultInputTextPlugins.DefaultInputTextPlugin.FindReplacement | sudachipy/plugin/input_text/default_input_text_plugin.py:36-44 | the loop over candidate lengths, longest first, finds the longest match |
| DefaultInputTextPlugins.DefaultInputTextPlugin.Decide | sudachipy/plugin/input_text/default_input_text_plugin.py:30-61 | one pass of the loop takes the decision the rules give at that character |
| DefaultInputTextPlugins.DefaultInputTextPlugin.Rewrite | sudachipy/plugin/input_text/default_input_text_plugin.py:20-61 | the builder's text becomes the rewrite of its text, and its offset map follows each replacement back to the original positions, the end entry kept |
| DefaultInputTextPlugins.DefaultInputTextPlugin.RewriteLoop | sudachipy/plugin/input_text/default_input_text_plugin.py:25-61 | the loop, against any decider agreeing with the rules, leaves the builder holding that decider's rewrite and offset map |
| DefaultInputTextPlugins.DefaultInputTextPlugin.RewriteStep | sudachipy/plugin/input_text/default_input_text_plugin.py:26-61 | one pass of the loop consumes a chunk of at least one character, and the builder's text and offsets are the rewrite of what was consumed followed by the rest |
| DefaultInputTextPlugins.DefaultInputTextPlugin.WriteChunk | sudachipy/plugin/input_text/default_input_text_plugin.py:40-61 | the chunk's output and offsets take the place of its characters in the builder |
| DefaultInputTextPlugins.DefaultInputTextPlugin.ReplaceChunk | sudachipy/plugin/input_text/default_input_text_plugin.py:40 | a replace call puts the chunk's output in place of its characters, every output character mapped to the chunk's first offset |
| LatticeNodes.AddCost | sudachipy/lattice.py:75 | adding a connection cost to an infinite total leaves it infinite, and adds to a finite one |
| LatticeNodes.LessIsStrictOrder | sudachipy/lattice.py:76 | the cost comparison, with infinity above every finite cost, is a strict total order |
| LatticeNodes.LatticeNode.constructor | sudachipy/latticenode.py:2-15 | a node built without arguments has word id -1, range [0, 0), total cost 0, no predecessor, is not OOV and carries no word info |
| LatticeNodes.LatticeNode.ForWord | sudachipy/latticenode.py:2-21 | a node built for a dictionary word carries its lexicon, connection ids, cost and word id |
| LatticeNodes.LatticeNode.SetParameter | sudachipy/latticenode.py:23-26 | the node takes the given connection ids and cost |
| LatticeNodes.LatticeNode.SetRange | sudachipy/latticenode.py:34-36 | the node takes the given range |
| LatticeNodes.LatticeNode.SetOov | sudachipy/latticenode.py:41-42 | the node is marked OOV |
| LatticeNodes.LatticeNode.WordInfo | sudachipy/latticenode.py:44-49 | a word id of at least 0 reads the lexicon's entry; otherwise the node's own word info, or IndexError when it has none |
| LatticeNodes.LatticeNode.GetWordInfo | sudachipy/latticenode.py:44-49 | get_word_info returns that word info |
| LatticeNodes.LatticeNode.SetWordInfo | sudachipy/latticenode.py:51-53 | the node stores the info and drops its word id, so it answers with exactly that info from then on |
| LatticeNodes.LatticeNode.GetPathCost | sudachipy/latticenode.py:55-56 | the node's own cost, not its total; AttributeError before any parameter was set |
| LatticeNodes.LatticeNode.GetDictionaryId | sudachipy/latticenode.py:61-62 | the dictionary number of the word id, which is -1 for every synthesized node |
| LatticeNodes.NewOovNode | sudachipy/plugin/oov/mecab_oov_plugin.py:74-86 | create_node, set_parameter and set_word_info give an unplaced OOV node that answers with the given info |
| LatticeNodes.Infos | sudachipy/plugin/oov/simple_oov_plugin.py:16-18 | the word info of each node, in order |
| LatticeNodes.PlaceNodes | sudachipy/plugin/oov/simple_oov_plugin.py:14-19 | get_oov succeeds exactly when every node has word info, and then every node begins at the offset and ends its head word length later |
| Lattices.Snapshot | sudachipy/lattice.py:69-79 | the candidates connect_node reads: each node's connection flag, right id and total cost, in list order |
| Lattices.ConsiderTakesCheaper | sudachipy/lattice.py:70-78 | a candidate is taken exactly when it is connected, not inhibited and strictly cheaper than the best so far; only a failing connection read fails |
| Lattices.ChooseIsFirstMinimum | sudachipy/lattice.py:69-80 | the chosen predecessor is the first cheapest eligible node, and none is chosen exactly when no eligible node has a finite cost |
| Lattices.ChooseSkipsUnconnected | sudachipy/lattice.py:70-71 | a node not connected to BOS is skipped, so appending one changes nothing |
| Lattices.ChooseWithin | sudachipy/lattice.py:69-78 | the chosen index is among the nodes looked at |
| Lattices.ChoosePrefix | sudachipy/lattice.py:69-78 | the choice over a prefix depends only on that prefix |
| Lattices.ChooseFailsOn | sudachipy/lattice.py:72 | once a connection read fails, the search fails with that error however many nodes follow |
| Lattices.Reversed | sudachipy/lattice.py:92 | element i of the result is element n - 1 - i of the input |
| Lattices.Lattice.constructor | sudachipy/lattice.py:6-20 | a lattice holding only BOS, with the BOS parameters, connected, at position 0, with no EOS |
| Lattices.Lattice.Resize | sudachipy/lattice.py:22-29 | the size becomes the new size, lists are added only past the capacity, and a fresh unconnected EOS with the EOS parameters sits at [size, size) |
| Lattices.Lattice.Expand | sudachipy/lattice.py:37-41 | one empty list is added per position from size to the new size and the capacity becomes the new size |
| Lattices.Lattice.Clear | sudachipy/lattice.py:31-35 | the lists of positions 1 .. size are emptied, BOS and the lists past size are kept, and there is no EOS |
| Lattices.Lattice.GetNodesWithEnd | sudachipy/lattice.py:43-44 | the list of nodes ending at a position |
| Lattices.Lattice.HasPreviousNode | sudachipy/lattice.py:63-64 | true exactly when some node ends at the index; IndexError outside the lists |
| Lattices.Lattice.CreateNode | sudachipy/lattice.py:60-61 | a fresh node with word id -1, no parameters and no word info |
| Lattices.Lattice.Insert | sudachipy/lattice.py:49-55 | the node joins the list of its end position and takes its range, and its predecessor, total cost and connection flag are those the cheapest-first choice over the nodes ending at its begin gives |
| Lattices.Lattice.Append | sudachipy/lattice.py:50-53 | the node is listed at its end and takes its range; no other list changes |
| Lattices.Lattice.AddNode | sudachipy/lattice.py:51 | the node is appended to the list of its end position |
| Lattices.Lattice.ConnectNode | sudachipy/lattice.py:66-81 | the node's predecessor and total cost are the first cheapest choice plus its own cost, and it is connected exactly when there is a predecessor; a failing connection read stops with that error |
| Lattices.Lattice.Search | sudachipy/lattice.py:69-78 | the loop's running minimum and node are those of the choice function, or the first failing connection read |
| Lattices.Lattice.WriteBack | sudachipy/lattice.py:76-81 | the node keeps the running total and best predecessor and, once the search is complete, whether it has one |
| Lattices.Lattice.RelinkEos | sudachipy/lattice.py:78-81 | EOS takes the given predecessor, total and connection flag and the lattice stays well formed |
| Lattices.Lattice.RelinkLast | sudachipy/lattice.py:78-81 | the node inserted last takes an earlier connected predecessor ending where it begins, and the lattice stays well formed |
| Lattices.Lattice.GetBestPath | sudachipy/lattice.py:83-92 | AttributeError when there is no EOS or EOS is not connected to BOS; otherwise the nodes from the one after BOS to EOS, each one's best predecessor the one before it, each beginning where the one before ends, from position 0 to the size |
| Lattices.Lattice.Walk | sudachipy/lattice.py:87-91 | the loop collects EOS and then each best predecessor until BOS, each node ending where the one collected before it begins |
| Lattices.NewEos | sudachipy/lattice.py:27-29 | a fresh node with the EOS parameters over [size, size), not connected |
| Lattices.EmptyLists | sudachipy/lattice.py:38 | n empty lists |
| SimpleOovPlugins.SimpleOovPlugin.constructor | sudachipy/plugin/oov/simple_oov_plugin.py:5 | a plugin before set_up has no parameters set |
| SimpleOovPlugins.SimpleOovPlugin.SetUp | sudachipy/plugin/oov/simple_oov_plugin.py:6-12 | left id 5968, right id 5968, cost 3857, and the id of the part of speech 補助記号,一般,*,*,*,*; ValueError exactly when the grammar lacks it |
| SimpleOovPlugins.SimpleOovPlugin.ProvideOov | sudachipy/plugin/oov/simple_oov_plugin.py:21-33 | nothing where other words start; otherwise one fresh unplaced OOV node with the plugin's parameters whose word is the one character at the offset, and IndexError past the end of the text |
| SimpleOovPlugins.SimpleOovPlugin.GetOov | sudachipy/plugin/oov/simple_oov_plugin.py:14-19 | the node of provide_oov, placed at the offset and ending one character later, not connected |
| MeCabOovPlugins.ParseCharDefLine | sudachipy/plugin/oov/mecab_oov_plugin.py:91-111 | blank, comment and code-point lines are ignored; fewer than two columns or an unknown category name raise RuntimeError; a definition is filed under its own category |
| MeCabOovPlugins.CategoryInfoOf | sudachipy/plugin/oov/mecab_oov_plugin.py:106-110 | invoke and group are every flag but "0", a missing column raises IndexError and a non-integer length ValueError, and the info names its category |
| MeCabOovPlugins.ParsedCharDef | sudachipy/plugin/oov/mecab_oov_plugin.py:90-94 | each line of char.def is parsed on its own and numbered from 1 |
| MeCabOovPlugins.DefinedCategoriesOnce | sudachipy/plugin/oov/mecab_oov_plugin.py:103-111 | a successful read keeps the categories it started from, adds exactly those the lines define, each from its line, and no category is defined twice |
| MeCabOovPlugins.CharacterPropertyKeyedByType | sudachipy/plugin/oov/mecab_oov_plugin.py:106-111 | every category read is filed under its own type, which provide_oov relies on when it looks up the OOVs of `cinfo.type_` |
| MeCabOovPlugins.ParseUnkDefLine | sudachipy/plugin/oov/mecab_oov_plugin.py:116-135 | a blank line gives nothing; fewer than ten columns, an unknown category or one char.def does not define raise RuntimeError; otherwise the OOV's part of speech is the grammar's entry for columns 4 to 9 |
| MeCabOovPlugins.OovOf | sudachipy/plugin/oov/mecab_oov_plugin.py:129-134 | left id, right id and cost of the columns, and a part-of-speech id whose grammar entry is columns 4 to 9 |
| MeCabOovPlugins.ParsedUnkDefLine | sudachipy/plugin/oov/mecab_oov_plugin.py:115-119 | each line of unk.def is parsed on its own |
| MeCabOovPlugins.AppendedOovsFromLines | sudachipy/plugin/oov/mecab_oov_plugin.py:113-135 | a successful read appends to each category's list exactly the OOVs the lines give it, in line order, and lists a category exactly when it was listed before or some line gives it one |
| MeCabOovPlugins.GivenToChecked | sudachipy/plugin/oov/mecab_oov_plugin.py:126-134 | every OOV checked lines give is for a category char.def defines, with a part of speech of the grammar |
| MeCabOovPlugins.ReadOovListChecked | sudachipy/plugin/oov/mecab_oov_plugin.py:113-135 | after a successful read_oov every listed category is defined in char.def and every OOV's part of speech is in the grammar |
| MeCabOovPlugins.WordsOf | sudachipy/plugin/oov/mecab_oov_plugin.py:61-62 | one candidate per OOV of the category, in list order |
| MeCabOovPlugins.SubLengthWordsWithin | sudachipy/plugin/oov/mecab_oov_plugin.py:64-71 | the shorter candidates fit under the limit and each carries one of the category's OOVs |
| MeCabOovPlugins.HeadWordsWithin | sudachipy/plugin/oov/mecab_oov_plugin.py:66-71 | the candidates of i characters lie within the run when they fit under the limit |
| MeCabOovPlugins.TypeWordsWithin | sudachipy/plugin/oov/mecab_oov_plugin.py:54-71 | the candidates of one category lie within the run and carry the category's OOVs |
| MeCabOovPlugins.UninvokedCategoriesYield | sudachipy/plugin/oov/mecab_oov_plugin.py:59-64 | where dictionary words start and no category is invoked, provide_oov offers nothing |
| MeCabOovPlugins.CandidateWordsWithin | sudachipy/plugin/oov/mecab_oov_plugin.py:51-71 | every candidate lies within the category run at the offset and carries an OOV unk.def gives one of the character's categories |
| MeCabOovPlugins.ProvidedWordsWithinRun | sudachipy/plugin/oov/mecab_oov_plugin.py:47-72 | nothing where no category run starts, and otherwise only candidates within the run, each with an OOV of one of the character's categories |
| MeCabOovPlugins.GroupSuppressesSubLengths | sudachipy/plugin/oov/mecab_oov_plugin.py:59-68 | once a grouping category offered its whole run with at least one OOV, no shorter candidate of it follows, because `llength` is -1 |
| MeCabOovPlugins.GetOovNode | sudachipy/plugin/oov/mecab_oov_plugin.py:79-86 | a fresh unplaced OOV node with the OOV's parameters over the candidate text, which is also its normalized and dictionary form |
| MeCabOovPlugins.NodesFor | sudachipy/plugin/oov/mecab_oov_plugin.py:61-62 | one fresh, distinct node per OOV, each built for its candidate |
| MeCabOovPlugins.SubLengthStep | sudachipy/plugin/oov/mecab_oov_plugin.py:65-71 | one turn of the loop over lengths stops past the limit, else appends the fresh nodes of the candidates of that length |
| MeCabOovPlugins.SubLengthNodes | sudachipy/plugin/oov/mecab_oov_plugin.py:64-71 | the loop over lengths 1 .. length builds fresh, distinct nodes for exactly the shorter candidates |
| MeCabOovPlugins.TypeNodes | sudachipy/plugin/oov/mecab_oov_plugin.py:58-71 | the nodes of one category: the whole run when it groups, then the shorter lengths |
| MeCabOovPlugins.CategoryNodes | sudachipy/plugin/oov/mecab_oov_plugin.py:52-71 | the nodes of one category of the character, nothing for a category without info or without OOVs |
| MeCabOovPlugins.CandidatesFailOn | sudachipy/plugin/oov/mecab_oov_plugin.py:51-71 | once a category fails, visiting more categories changes nothing |
| MeCabOovPlugins.CandidateNodes | sudachipy/plugin/oov/mecab_oov_plugin.py:51-71 | the loop over the character's categories, in the order the set iterates, builds fresh, distinct nodes for exactly the candidates of each category in turn |
| MeCabOovPlugins.VisitFails | sudachipy/plugin/oov/mecab_oov_plugin.py:51-71 | a category that fails after those visited fails every order that visits it next |
| MeCabOovPlugins.VisitSucceeds | sudachipy/plugin/oov/mecab_oov_plugin.py:51-71 | a category that succeeds after those visited adds its candidates after theirs |
| MeCabOovPlugins.MeCabOovPlugin.constructor | sudachipy/plugin/oov/mecab_oov_plugin.py:25-27 | no categories and no OOVs |
| MeCabOovPlugins.MeCabOovPlugin.ReadCharacterProperty | sudachipy/plugin/oov/mecab_oov_plugin.py:88-111 | the loop over char.def reaches the categories the lines define, or the first line's error |
| MeCabOovPlugins.MeCabOovPlugin.ReadOov | sudachipy/plugin/oov/mecab_oov_plugin.py:113-135 | the loop over unk.def reaches the OOV lists the lines define, or the first line's error |
| MeCabOovPlugins.MeCabOovPlugin.SetUp | sudachipy/plugin/oov/mecab_oov_plugin.py:29-38 | the categories of char.def, then the OOVs of unk.def for those categories; an error in char.def stops before unk.def is read |
| MeCabOovPlugins.MeCabOovPlugin.ProvideOov | sudachipy/plugin/oov/mecab_oov_plugin.py:47-72 | fresh, distinct nodes for exactly the candidates of every category of the character at the offset, in set iteration order |
| MeCabOovPlugins.MeCabOovPlugin.GetOov | sudachipy/plugin/oov/mecab_oov_plugin.py:40-45 | the nodes of provide_oov, each placed at the offset and ending its candidate's length later, unconnected |
| PathRewritePlugins.FirstErrorIn | sudachipy/plugin/path_rewrite/path_rewrite_plugin.py:26-27 | there is no error exactly when every word info of the range reads without one |
| PathRewritePlugins.ConcatInSplit | sudachipy/plugin/path_rewrite/path_rewrite_plugin.py:26-32 | joining the forms of a range is joining those of its two halves |
| PathRewritePlugins.LengthInSplit | sudachipy/plugin/path_rewrite/path_rewrite_plugin.py:29 | the summed head word length of a range is the sum over its two halves |
| PathRewritePlugins.ReadInfo | sudachipy/plugin/path_rewrite/path_rewrite_plugin.py:27 | reading a node's word info gives the info that node answers with |
| PathRewritePlugins.NewJoinedNode | sudachipy/plugin/path_rewrite/path_rewrite_plugin.py:38-40 | a fresh node over [b, e) carrying the joined word info, marked OOV for concatenate_oov only |
| PathRewritePlugins.JoinInfos | sudachipy/plugin/path_rewrite/path_rewrite_plugin.py:26-36 | the loop reads every word info of the range in order and joins surfaces, head lengths and forms; the first failing read stops it with its error |
| PathRewritePlugins.Concatenate | sudachipy/plugin/path_rewrite/path_rewrite_plugin.py:17-67 | IndexError for an empty range, else the first error reading a word info of the range, else a fresh node over the range's bytes with the joined info (for concatenate_oov: the OOV part of speech, the surface as its normalized and dictionary form, no reading, and marked OOV) that replaces the range in the path |
| PathRewritePlugins.FirstErrorAt | sudachipy/plugin/path_rewrite/path_rewrite_plugin.py:26-27 | the first error of a longer range is that of the first failing word info |
| PathRewritePlugins.RewrittenInfos | sudachipy/plugin/path_rewrite/path_rewrite_plugin.py:34-36 | the word infos of the rewritten path are, group by group, the joined info of each group or the node's own |
| PathRewritePlugins.TilesExtend | sudachipy/plugin/path_rewrite/path_rewrite_plugin.py:42 | one more replaced group extends a tiling of the old path by the new one |
| PathRewritePlugins.TilesJoinable | sudachipy/plugin/path_rewrite/path_rewrite_plugin.py:42 | a tiling has joined every group it covers |
| PathRewritePlugins.TilesAnswer | sudachipy/plugin/path_rewrite/path_rewrite_plugin.py:34-42 | the nodes of a tiling answer get_word_info with the rewritten infos |
| PathRewritePlugins.TilesKeepSpan | sudachipy/plugin/path_rewrite/path_rewrite_plugin.py:20-21 | a rewritten path is as contiguous as the old one and begins and ends where it did |
| PathRewritePlugins.PieceSpan | sudachipy/plugin/path_rewrite/path_rewrite_plugin.py:20-21 | a joined node spans from the begin of the group's first node to the end of its last |
| PathRewritePlugins.RewriteKeepsText | sudachipy/plugin/path_rewrite/path_rewrite_plugin.py:28 | the surfaces of the rewritten path, concatenated, are those of the nodes they replace |
| PathRewritePlugins.PieceSurface | sudachipy/plugin/path_rewrite/path_rewrite_plugin.py:28 | the surface of a joined node is the concatenation of its group's surfaces |
| PathRewritePlugins.CutsByCuts | sudachipy/plugin/path_rewrite/path_rewrite_plugin.py:42 | chaining group ends gives strictly increasing cuts of all the nodes |
| PathRewritePlugins.Chain | sudachipy/plugin/path_rewrite/path_rewrite_plugin.py:42 | the chained cuts from the first node cut the whole path |
| PathRewritePlugins.ProgressSingle | sudachipy/plugin/path_rewrite/path_rewrite_plugin.py:42 | a node left alone is committed as a group of its own |
| PathRewritePlugins.ProgressJoin | sudachipy/plugin/path_rewrite/path_rewrite_plugin.py:42 | a joined node takes the place of its group in the progress |
| PathRewritePlugins.ProgressDone | sudachipy/plugin/path_rewrite/path_rewrite_plugin.py:42 | a complete progress tiles the whole old path |
| PathRewritePlugins.NotJoinable | sudachipy/plugin/path_rewrite/path_rewrite_plugin.py:26-27 | a group whose word infos cannot all be read makes the whole cut fail |
| PathRewritePlugins.ProgressComplete | sudachipy/plugin/path_rewrite/path_rewrite_plugin.py:42 | a progress over the whole path has cut it along the chain of group ends |
| PathRewritePlugins.GetCharCategoryTypes | sudachipy/plugin/path_rewrite/path_rewrite_plugin.py:69-70 | the categories over the node's range |
| JoinNumericPlugins.RunEndIsRun | sudachipy/plugin/path_rewrite/join_numeric_plugin.py:25-53 | a run is of one class, and the node after it of another |
| JoinNumericPlugins.GroupEnds | sudachipy/plugin/path_rewrite/join_numeric_plugin.py:14-60 | a node of neither class is alone and any other starts the whole run of its class |
| JoinNumericPlugins.NumericCuts | sudachipy/plugin/path_rewrite/join_numeric_plugin.py:14-60 | the groups cut the whole path |
| JoinNumericPlugins.NumericGroupUniform | sudachipy/plugin/path_rewrite/join_numeric_plugin.py:25-48 | every group is of one class |
| JoinNumericPlugins.NumericGroupJoinsRun | sudachipy/plugin/path_rewrite/join_numeric_plugin.py:32-60 | a group of two nodes or more is over digits or over kanji numerals |
| JoinNumericPlugins.NumericGroupsMaximal | sudachipy/plugin/path_rewrite/join_numeric_plugin.py:25-58 | groups are maximal runs: two neighbouring groups of the same class are both of neither class |
| JoinNumericPlugins.ScanContinue | sudachipy/plugin/path_rewrite/join_numeric_plugin.py:26-27 | a node of the open run's class extends it |
| JoinNumericPlugins.ScanOpen | sudachipy/plugin/path_rewrite/join_numeric_plugin.py:35-48 | with no run open, a digit or (when joined) a kanji numeral opens a run |
| JoinNumericPlugins.ScanSingle | sudachipy/plugin/path_rewrite/join_numeric_plugin.py:52-58 | with no run open, a node of neither class stays alone |
| JoinNumericPlugins.RunGroupEnd | sudachipy/plugin/path_rewrite/join_numeric_plugin.py:32-56 | the open run ends where its group does, so it can be committed |
| JoinNumericPlugins.Visit | sudachipy/plugin/path_rewrite/join_numeric_plugin.py:24-58 | one pass of the loop keeps the scan state or reports that the cut cannot be joined |
| JoinNumericPlugins.VisitDigits | sudachipy/plugin/path_rewrite/join_numeric_plugin.py:25-36 | a digit node continues a digit run, or closes a kanji run and opens a digit run |
| JoinNumericPlugins.VisitKanji | sudachipy/plugin/path_rewrite/join_numeric_plugin.py:37-51 | a kanji numeral continues a kanji run, or closes a digit run and opens a kanji run |
| JoinNumericPlugins.VisitOther | sudachipy/plugin/path_rewrite/join_numeric_plugin.py:52-58 | any other node closes the open run and stays alone |
| JoinNumericPlugins.CloseRun | sudachipy/plugin/path_rewrite/join_numeric_plugin.py:53-56 | closing the open run joins it (when longer than one node) and restarts after its first node; an error only when the groups cannot be joined |
| JoinNumericPlugins.SwitchRun | sudachipy/plugin/path_rewrite/join_numeric_plugin.py:28-48 | a node of the other numeric class closes the open run and opens its own; an error only when the groups cannot be joined |
| JoinNumericPlugins.CloseThenSingle | sudachipy/plugin/path_rewrite/join_numeric_plugin.py:52-58 | a node of neither class closes the open run and stays alone; an error only when the groups cannot be joined |
| JoinNumericPlugins.ScanComplete | sudachipy/plugin/path_rewrite/join_numeric_plugin.py:59-60 | a scan that reached the end with no run open has cut the path along the whole chain |
| JoinNumericPlugins.JoinNumericPlugin.constructor | sudachipy/plugin/path_rewrite/join_numeric_plugin.py:6-8 | both settings start unset, which reads as false |
| JoinNumericPlugins.JoinNumericPlugin.SetUp | sudachipy/plugin/path_rewrite/join_numeric_plugin.py:10-12 | kanji numerals are joined; digits and kanji numerals are not joined together |
| JoinNumericPlugins.JoinNumericPlugin.Rewrite | sudachipy/plugin/path_rewrite/join_numeric_plugin.py:14-60 | the rewrite succeeds exactly when every numeric group can be joined, and then the new path tiles the old one by those groups, each group of two nodes or more replaced by its concatenation |
| JoinKatakanaOovPlugins.IsKatakanaNode | sudachipy/plugin/path_rewrite/join_katakana_oov_plugin.py:50-51 | whether KATAKANA is among the categories over the node's range |
| JoinKatakanaOovPlugins.IsOneCharNode | sudachipy/plugin/path_rewrite/join_katakana_oov_plugin.py:53-55 | whether the node ends one character after its begin |
| JoinKatakanaOovPlugins.CanOovBowNode | sudachipy/plugin/path_rewrite/join_katakana_oov_plugin.py:57-58 | whether NOOOVBOW is absent from the categories of the node's first character |
| JoinKatakanaOovPlugins.OneCharSpansOneCharacter | sudachipy/plugin/path_rewrite/join_katakana_oov_plugin.py:53-55 | a node is one character long exactly when its bytes all belong to the character at its begin and the byte after it to a later one |
| JoinKatakanaOovPlugins.KatakanaNodeInOneRun | sudachipy/plugin/path_rewrite/join_katakana_oov_plugin.py:50-51 | a katakana node lies inside the category run at its begin and every character of it is KATAKANA |
| JoinKatakanaOovPlugins.TriggerOf | sudachipy/plugin/path_rewrite/join_katakana_oov_plugin.py:23-24 | a node sets off a join when it is OOV or a one-character node that may begin an OOV word, and is katakana |
| JoinKatakanaOovPlugins.RunLeft | sudachipy/plugin/path_rewrite/join_katakana_oov_plugin.py:25-34 | the start of the katakana run that reaches the node |
| JoinKatakanaOovPlugins.RunRight | sudachipy/plugin/path_rewrite/join_katakana_oov_plugin.py:37-43 | the end of the katakana run from the node on |
| JoinKatakanaOovPlugins.FirstBow | sudachipy/plugin/path_rewrite/join_katakana_oov_plugin.py:35-36 | the first node from the run's start at which an OOV word may begin, or the trigger |
| JoinKatakanaOovPlugins.FirstTrigger | sudachipy/plugin/path_rewrite/join_katakana_oov_plugin.py:19-24 | the first node of a range that sets off a join |
| JoinKatakanaOovPlugins.GroupEnd | sudachipy/plugin/path_rewrite/join_katakana_oov_plugin.py:17-47 | a katakana run is joined from its first possible OOV beginning to its end when its first trigger makes a group of two nodes or more; every other node is alone |
| JoinKatakanaOovPlugins.KatakanaCuts | sudachipy/plugin/path_rewrite/join_katakana_oov_plugin.py:17-47 | the groups cut the whole path |
| JoinKatakanaOovPlugins.GroupEndShape | sudachipy/plugin/path_rewrite/join_katakana_oov_plugin.py:44-46 | a group either holds one node or is the rest of a katakana run |
| JoinKatakanaOovPlugins.SingleOf | sudachipy/plugin/path_rewrite/join_katakana_oov_plugin.py:44 | a node stays alone when no trigger of its run sets off a join |
| JoinKatakanaOovPlugins.JoinGroupAt | sudachipy/plugin/path_rewrite/join_katakana_oov_plugin.py:25-46 | the first trigger that sets off a join starts its group where the join begins, and the nodes of the run before it stay alone |
| JoinKatakanaOovPlugins.SinglesUpTo | sudachipy/plugin/path_rewrite/join_katakana_oov_plugin.py:17-47 | with no join set off, every node up to the end of a run stays alone |
| JoinKatakanaOovPlugins.GroupsAtJoin | sudachipy/plugin/path_rewrite/join_katakana_oov_plugin.py:25-46 | the join begins at or after the last committed group, holds at least two nodes, the nodes before it stay alone, and the node after it is alone |
| JoinKatakanaOovPlugins.CommitSingles | sudachipy/plugin/path_rewrite/join_katakana_oov_plugin.py:47 | nodes left alone are committed as groups of their own |
| JoinKatakanaOovPlugins.SinglesBeforeJoin | sudachipy/plugin/path_rewrite/join_katakana_oov_plugin.py:25-46 | the nodes before a join stay alone and the join is the next group of the chain |
| JoinKatakanaOovPlugins.ScanAfterJoin | sudachipy/plugin/path_rewrite/join_katakana_oov_plugin.py:46-47 | after a join the scan resumes past the node that follows it, which is not katakana and stays alone |
| JoinKatakanaOovPlugins.ScanComplete | sudachipy/plugin/path_rewrite/join_katakana_oov_plugin.py:20-21 | a scan past the end of the path leaves the rest alone, and the path is cut along the whole chain |
| JoinKatakanaOovPlugins.KatakanaGroupIsRun | sudachipy/plugin/path_rewrite/join_katakana_oov_plugin.py:17-47 | every group of two nodes or more is the rest of a katakana run, all katakana, ending at the path's end or before a non-katakana node, holding a trigger, starting at a node that may begin an OOV word, and no earlier node of the run could |
| JoinKatakanaOovPlugins.FirstTriggerJoined | sudachipy/plugin/path_rewrite/join_katakana_oov_plugin.py:17-47 | conversely, the first trigger of every run that makes a join of two nodes or more gets its join as a group of the cut |
| JoinKatakanaOovPlugins.NoGroupOver | sudachipy/plugin/path_rewrite/join_katakana_oov_plugin.py:17-47 | no group before a join jumps over its start |
| JoinKatakanaOovPlugins.JoinKatakanaOovPlugin.constructor | sudachipy/plugin/path_rewrite/join_katakana_oov_plugin.py:6-7 | no OOV part of speech yet |
| JoinKatakanaOovPlugins.JoinKatakanaOovPlugin.SetUp | sudachipy/plugin/path_rewrite/join_katakana_oov_plugin.py:9-15 | the id of 名詞,普通名詞,一般,*,*,*; ValueError exactly when the grammar lacks it, and the two AttributeError checks never fire |
| JoinKatakanaOovPlugins.JoinKatakanaOovPlugin.Rewrite | sudachipy/plugin/path_rewrite/join_katakana_oov_plugin.py:17-47 | the rewrite succeeds exactly when every katakana group can be joined, and then the new path tiles the old one by those groups, each of two nodes or more replaced by its OOV concatenation |
| PathRewritePlugins.JoinGroup | sudachipy/plugin/path_rewrite/path_rewrite_plugin.py:17-67 | concatenating the next untouched nodes succeeds exactly when their word infos read, and the joined node becomes the next group of the progress |
| PathRewritePlugins.CommitGroup | sudachipy/plugin/path_rewrite/path_rewrite_plugin.py:42 | a group closes where the group ends say: one node stays, two or more are joined, and failure means the chained cut cannot be joined |
| JoinKatakanaOovPlugins.ExtendLeft | sudachipy/plugin/path_rewrite/join_katakana_oov_plugin.py:25-34 | the first loop of a join goes back to the start of the katakana run before the trigger |
| JoinKatakanaOovPlugins.SkipNoBow | sudachipy/plugin/path_rewrite/join_katakana_oov_plugin.py:35-36 | the second loop stops at the first node at which an OOV word may begin, never past the trigger |
| JoinKatakanaOovPlugins.ExtendRight | sudachipy/plugin/path_rewrite/join_katakana_oov_plugin.py:37-43 | the third loop goes on to the end of the katakana run after the trigger |
| JoinKatakanaOovPlugins.CommitJoin | sudachipy/plugin/path_rewrite/join_katakana_oov_plugin.py:44-46 | a join of two nodes or more is replaced by concatenate_oov, the nodes before it and the one after it stay alone, and the scan goes on after that node |
| JoinKatakanaOovPlugins.JoinRun | sudachipy/plugin/path_rewrite/join_katakana_oov_plugin.py:44-47 | from the progress that reached the run, the run is joined by concatenate_oov, or the rewrite fails exactly when the chained cut cannot be joined, and the scan resumes after the run |
| JoinKatakanaOovPlugins.VisitTrigger | sudachipy/plugin/path_rewrite/join_katakana_oov_plugin.py:23-46 | at a trigger the join's range is found and joined when it holds two nodes or more; the scan advances |
| Tokenizers.Categories | sudachipy/plugin/path_rewrite/join_numeric_plugin.py:24-25 | the categories of every node of the path, asked in order, and an error exactly when one cannot be read |
| Tokenizers.KindOf | sudachipy/plugin/path_rewrite/join_katakana_oov_plugin.py:23-24 | what the katakana plugin learns of one node, and an error exactly when one of its queries has no answer |
| Tokenizers.Kinds | sudachipy/plugin/path_rewrite/join_katakana_oov_plugin.py:17-47 | what the katakana plugin learns of every node, in path order |
| Tokenizers.RewriteWith | sudachipy/tokenizer.py:73-74 | one path rewrite plugin's rewrite: a path related to the old one as that plugin's rewrite says, or an error when a query has no answer |
| Tokenizers.RewroteTiles | sudachipy/tokenizer.py:73-74 | a rewrite keeps a tiling of the bytes a tiling of the same bytes |
| Tokenizers.TilesTiling | sudachipy/tokenizer.py:73-74 | a path tiled by groups of a path that covers the bytes covers them too |
| Tokenizers.RewritePath | sudachipy/tokenizer.py:73-74 | each plugin in turn rewrites the path until one fails; a path covering bytes 0 .. size one node after another still does after every rewrite; with no plugins the path is returned as it is |
| Tokenizers.SplitNode | sudachipy/tokenizer.py:78-92 | the nodes mode A or B makes of one node: the node itself for fewer than two units, else one node per unit placed one after another from its begin by head word length |
| Tokenizers.SplitPath | sudachipy/tokenizer.py:76-93 | every node in turn replaced by the nodes of its units, the first failing word info read stopping it |
| Tokenizers.Tokenizer.constructor | sudachipy/tokenizer.py:13-23 | the tokenizer keeps its grammar, lexicon and plugins, gets a fresh lattice holding only BOS, and its default OOV provider is the last one, if any |
| Tokenizers.Tokenizer.PrepareInput | sudachipy/tokenizer.py:29-32 | the builder over the text is rewritten by each input text plugin in turn and built; the build fails exactly when a character has no category |
| Tokenizers.Tokenizer.InsertWords | sudachipy/tokenizer.py:41-47 | one node per hit of the lookup, inserted in order with its word's left id, right id and cost, read in that order; the first failing read stops the loop |
| Tokenizers.Tokenizer.PlaceHit | sudachipy/tokenizer.py:42-47 | a node for the hit's word with its parameters is inserted over [i, end of the hit) |
| Tokenizers.Tokenizer.InsertOovs | sudachipy/tokenizer.py:52-54 | the provider's nodes are inserted in order, each over its own range, until one insertion fails |
| Tokenizers.Tokenizer.PlaceOov | sudachipy/tokenizer.py:54 | one OOV node inserted over its own range; an end past the last list raises before anything changes |
| Tokenizers.Tokenizer.InsertNext | sudachipy/tokenizer.py:52-54 | one turn of the provider's loop inserts the next node at its range, or stops at the first failing insertion |
| Tokenizers.Tokenizer.RunProvider | sudachipy/tokenizer.py:52-54 | one provider's get_oov, told whether words were found; afterwards words are found exactly when they were before or it gave a node |
| Tokenizers.Tokenizer.RunProviders | sudachipy/tokenizer.py:51-54 | every provider in turn, each told whether words were found so far |
| Tokenizers.Tokenizer.ExpandOovs | sudachipy/tokenizer.py:50-61 | the providers run unless the character forbids OOV words to begin there, the default provider runs if nothing was found, and AttributeError is raised when still nothing was found |
| Tokenizers.Tokenizer.ExpandAt | sudachipy/tokenizer.py:36-61 | a position is skipped unless a character begins there and some node ends there; otherwise a node for each word the lexicon finds and then the OOV nodes are inserted there |
| Tokenizers.Tokenizer.LookupAt | sudachipy/tokenizer.py:39 | every hit of the lookup ends inside the text, past the position |
| Tokenizers.Tokenizer.Expand | sudachipy/tokenizer.py:39-61 | a successful expansion inserts at least one node, first one per word found at the position |
| Tokenizers.Tokenizer.BuildLattice | sudachipy/tokenizer.py:35-61 | the lattice is resized to the byte count and each position expanded in turn until one fails: nodes are inserted at a position exactly when a character begins there and some node ended there, and all begin there |
| Tokenizers.Tokenizer.ExpandAll | sudachipy/tokenizer.py:36-61 | the loop over positions of a resized lattice expands each in turn until one fails |
| Tokenizers.Tokenizer.ExpandPosition | sudachipy/tokenizer.py:37-61 | the nodes inserted at one position all begin there, and a successful expansion inserts some exactly when a character begins there and some node ends there |
| Tokenizers.Tokenizer.Tokenize | sudachipy/tokenizer.py:25-98 | no tokens for an empty text; otherwise a fresh morpheme list over the prepared text whose best path, without EOS, tiles its bytes with nodes of the lattice, is rewritten by the path plugins and split for modes A and B; the lattice is left cleared; an error of any stage is passed on |
| Tokenizers.Tokenizer.Analyse | sudachipy/tokenizer.py:35-98 | the lattice built, solved and cleared, and its best path rewritten and split into a fresh morpheme list |
| Tokenizers.Tokenizer.Prepare | sudachipy/tokenizer.py:29-33 | the input text prepared from the text, with a byte index for every byte and one for the end |
| Tokenizers.Tokenizer.Solve | sudachipy/tokenizer.py:63-70 | the best path without EOS tiles the bytes with nodes of the lattice, and the lattice is cleared |
| Tokenizers.Tokenizer.Search | sudachipy/tokenizer.py:35-63 | the lattice built over the text and its best path found, ending at EOS at the end of the bytes |
| Tokenizers.Tokenizer.Finish | sudachipy/tokenizer.py:73-98 | the path rewritten by each plugin in turn, split for modes A and B, and the morpheme list over the result |
| Tokenizers.BestTiles | sudachipy/tokenizer.py:70 | a best path ends at EOS, which begins at the end of the bytes, so without it the path tiles the bytes |
| MorphemeLists.HeadLength | sudachipy/morphemelist.py:54 | the head word length a word's info gives, or that info's error |
| MorphemeLists.Spans | sudachipy/morphemelist.py:49-56 | one span per word when every head can be read |
| MorphemeLists.SpansOk | sudachipy/morphemelist.py:51-56 | placing succeeds exactly when every head can be read |
| MorphemeLists.SpansFailFirst | sudachipy/morphemelist.py:51-54 | a failing placing fails with the error of the first head that cannot be read |
| MorphemeLists.SpansTile | sudachipy/morphemelist.py:49-56 | the spans tile the text from the node's begin: each starts where the one before ends and is as long as its word's head |
| MorphemeLists.SpansCover | sudachipy/morphemelist.py:49-56 | the spans cover exactly begin .. begin plus the sum of the heads |
| MorphemeLists.SpansStep | sudachipy/morphemelist.py:52-55 | one more word is placed where the spans end |
| MorphemeLists.SplitStep | sudachipy/morphemelist.py:52-55 | one more readable word of a split adds the span from where the spans end, as long as its head |
| MorphemeLists.SplitStop | sudachipy/morphemelist.py:54 | a word whose info cannot be read stops the whole split with its error |
| MorphemeLists.SpansStop | sudachipy/morphemelist.py:51-56 | once a prefix fails, the whole placing fails the same way |
| MorphemeLists.PlaceWord | sudachipy/morphemelist.py:52-55 | a fresh node for the word with zero parameters at the offset, ending after its head when its info can be read |
| MorphemeLists.SplitNodes | sudachipy/morphemelist.py:49-56 | one fresh distinct node per word, with zero connection parameters, placed one after another by head word length, or the first read's error |
| MorphemeLists.MorphemeList.constructor | sudachipy/morphemelist.py:7-11 | the list keeps its input text, grammar, lexicon and path |
| MorphemeLists.MorphemeList.Get | sudachipy/morphemelist.py:13-14 | a fresh morpheme of this list at the index, checked only when asked something |
| MorphemeLists.MorphemeList.Morphemes | sudachipy/morphemelist.py:16-22 | one fresh morpheme per node, at the indexes 0, 1, ... in order |
| MorphemeLists.MorphemeList.GetBegin | sudachipy/morphemelist.py:24-25 | the node's begin mapped to the original text; IndexError for an index outside the path |
| MorphemeLists.MorphemeList.GetEnd | sudachipy/morphemelist.py:27-28 | the node's end mapped to the original text; IndexError for an index outside the path |
| MorphemeLists.MorphemeList.GetSurface | sudachipy/morphemelist.py:30-33 | the original text between the mapped begin and end, or the error of either |
| MorphemeLists.MorphemeList.GetWordInfo | sudachipy/morphemelist.py:35-36 | the node's word info; IndexError for an index outside the path |
| MorphemeLists.MorphemeList.Split | sudachipy/morphemelist.py:38-58 | mode C or fewer than two units gives the morpheme itself; otherwise a fresh list of the split nodes placed from the node's begin, or the first failing read |
| MorphemeLists.MorphemeList.IsOov | sudachipy/morphemelist.py:60-61 | whether the node is OOV; IndexError outside the path |
| MorphemeLists.MorphemeList.GetInternalCost | sudachipy/morphemelist.py:63-64 | the own cost of the last node minus that of the first; IndexError on an empty path |
| MorphemeLists.MorphemeList.SurfacesMeet | sudachipy/morphemelist.py:30-33 | the surfaces of two neighbouring morphemes make up the original text from the first's begin to the second's end |
| MorphemeLists.Morpheme.constructor | sudachipy/morpheme.py:2-5 | the morpheme keeps its list and index and has no cached word info |
| MorphemeLists.Morpheme.Begin | sudachipy/morpheme.py:7-8 | the node's begin mapped to the original text; IndexError for an index outside the path |
| MorphemeLists.Morpheme.End | sudachipy/morpheme.py:10-11 | the node's end mapped to the original text; IndexError for an index outside the path |
| MorphemeLists.Morpheme.Surface | sudachipy/morpheme.py:13-14 | the original text between the morpheme's begin and end, or the error of either |
| MorphemeLists.Morpheme.IsOov | sudachipy/morpheme.py:40-41 | whether the node is OOV; IndexError for an index outside the path |
| MorphemeLists.Morpheme.Info | sudachipy/morpheme.py:49-52 | the word info the morpheme answers with: the cached one, else the node's, else IndexError |
| MorphemeLists.Morpheme.GetWordInfo | sudachipy/morpheme.py:49-52 | the cached word info, or the list's, which is then cached |
| MorphemeLists.Morpheme.PartOfSpeech | sudachipy/morpheme.py:16-18 | the grammar's part of speech of the word info's id, or the word info's error |
| MorphemeLists.Morpheme.PartOfSpeechId | sudachipy/morpheme.py:20-22 | the word info's part-of-speech id |
| MorphemeLists.Morpheme.DictionaryForm | sudachipy/morpheme.py:24-26 | the word info's dictionary form |
| MorphemeLists.Morpheme.NormalizedForm | sudachipy/morpheme.py:28-30 | the word info's normalized form |
| MorphemeLists.Morpheme.ReadingForm | sudachipy/morpheme.py:32-34 | the word info's reading form |
| MorphemeLists.Morpheme.Split | sudachipy/morpheme.py:36-38 | the list's split of this morpheme with its word info |
| MorphemeLists.Morpheme.WordId | sudachipy/morpheme.py:43-44 | the node's word id |
| MorphemeLists.Morpheme.DictionaryId | sudachipy/morpheme.py:46-47 | the node's word id shifted right by 28, so -1 for a node a plugin made |
| Corpus.Translate | ja_ginza/corpus.py:54-69 | the per-character table lookup shared by to_full, to_half and turn_full_half: same length, each character replaced by its table entry when it has one and kept otherwise |
| Corpus.ToFull | ja_ginza/corpus.py:54-57 | to_full keeps the length (ToFullChanges says which characters change) |
| Corpus.ToHalf | ja_ginza/corpus.py:60-63 | to_half keeps the length (ToHalfChanges says which characters change) |
| Corpus.TurnFullHalf | ja_ginza/corpus.py:66-69 | turn_full_half keeps the length (TurnFullHalfInvolution says it undoes itself) |
| Corpus.HalfFullMapShifts | ja_ginza/corpus.py:43-45 | HALF_FULL_MAP is defined on exactly `!`..`~` and sends each to the character 0xFEE0 above it, a full-width character |
| Corpus.FullHalfMapInverts | ja_ginza/corpus.py:46-48 | FULL_HALF_MAP is defined on exactly `！`..`～` and is the inverse of HALF_FULL_MAP in both directions |
| Corpus.TurnMapSwaps | ja_ginza/corpus.py:49-51 | TURN_FULL_HALF_MAP covers both ranges; half-width characters go to their full form and full-width ones to their half form |
| Corpus.ToFullChanges | ja_ginza/corpus.py:54-57 | to_full keeps the length and changes a character if and only if it is half-width, shifting it up by 0xFEE0 |
| Corpus.ToHalfChanges | ja_ginza/corpus.py:60-63 | to_half keeps the length and changes a character if and only if it is full-width, shifting it down by 0xFEE0 |
| Corpus.ToHalfAfterToFull | ja_ginza/corpus.py:54-63 | to_half(to_full(s)) == to_half(s) for every string |
| Corpus.ToHalfKeepsHalfText | ja_ginza/corpus.py:54-63 | a text without full-width characters is a fixed point of to_half and round-trips through to_full then to_half |
| Corpus.TurnFullHalfInvolution | ja_ginza/corpus.py:66-69 | turn_full_half applied twice gives the original string |
| JapaneseCorrectors.ForwardScan | ginza/japanese_corrector.py:84-100 | the first pass from a given token on keeps one group entry per token |
| JapaneseCorrectors.ForwardScanPointsBack | ginza/japanese_corrector.py:84-100 | the first pass attaches a functional token (by part of speech, label, or non-opening punctuation) only to the running head, which is never after the token |
| JapaneseCorrectors.ForwardGroups | ginza/japanese_corrector.py:84-100 | the first pass yields one entry per token |
| JapaneseCorrectors.ForwardPass | ginza/japanese_corrector.py:84-100 | the loop computes ForwardGroups, and every group it assigns points at the token itself or an earlier one |
| JapaneseCorrectors.BackwardScan | ginza/japanese_corrector.py:102-112 | the second pass from a given token down keeps one group entry per token |
| JapaneseCorrectors.BackwardGroups | ginza/japanese_corrector.py:102-112 | the second pass yields one entry per token |
| JapaneseCorrectors.BackwardScanFills | ginza/japanese_corrector.py:102-112 | the second pass never overwrites an assigned entry, and each entry it fills is the token's own head, which lies after it |
| JapaneseCorrectors.BackwardPass | ginza/japanese_corrector.py:102-112 | the right-to-left loop computes BackwardGroups from the first pass's result |
| JapaneseCorrectors.FillScan | ginza/japanese_corrector.py:114-121 | the third pass from a given token on keeps one group entry per token |
| JapaneseCorrectors.FilledGroups | ginza/japanese_corrector.py:114-121 | the third pass yields one entry per token |
| JapaneseCorrectors.FillScanAssigns | ginza/japanese_corrector.py:114-121 | each token left unassigned opens a new group after an assigned token or when it is VERB/ADJ/ADV/INTJ and otherwise joins the running group; assigned tokens are kept |
| JapaneseCorrectors.FilledGroupsMeaning | ginza/japanese_corrector.py:114-121 | after the third pass every token has a group, assigned as the rule above says, and each group id is a token index |
| JapaneseCorrectors.FillPass | ginza/japanese_corrector.py:114-121 | the loop computes FilledGroups from the second pass's result |
| JapaneseCorrectors.Groups | ginza/japanese_corrector.py:84-121 | the group of every token after the three passes, each a token index |
| JapaneseCorrectors.BiLabels | ginza/japanese_corrector.py:154-156 | one label per token, the first B, and label i is I exactly when tokens i-1 and i are in the same group |
| JapaneseCorrectors.PositionTypes | ginza/japanese_corrector.py:158-163 | one entry per token: ROOT for a root, NO_HEAD/SEM_HEAD for a group head (punct or not), FUNC for a function word after its group head, CONT otherwise |
| JapaneseCorrectors.FirstFuncFrom | ginza/japanese_corrector.py:164-169 | the first FUNC position at or after k, or none when there is none |
| JapaneseCorrectors.SynHeads | ginza/japanese_corrector.py:164-169 | a FUNC token becomes SYN_HEAD exactly when the next FUNC token to its right is absent or in another group; all other entries are kept |
| JapaneseCorrectors.PromoteSynHeads | ginza/japanese_corrector.py:164-169 | the right-to-left loop with `prev_c` promotes exactly the tokens SynHeads names |
| JapaneseCorrectors.SetBunsetuBiType | ginza/japanese_corrector.py:79-170 | an empty document gets clauses = [] and nothing else; otherwise the BI labels and the promoted position types of the grouped tokens are stored and the tokens are unchanged |
| BunsetuRecognizers.Reindex | ginza/bunsetu_recognizer.py:44 | the re-indexed list is no longer than the stored one |
| BunsetuRecognizers.ReindexMembers | ginza/bunsetu_recognizer.py:44 | the re-indexed list holds exactly the heads inside the span, shifted down by the span start |
| BunsetuRecognizers.BunsetuHeads | ginza/bunsetu_recognizer.py:38-44 | None exactly when nothing is stored; the whole document gets the stored list; a span gets the heads inside it counted from its start |
| BunsetuRecognizers.BunsetuBiLabels | ginza/bunsetu_recognizer.py:53-59 | None exactly when nothing is stored; the whole document gets the stored list; a span gets its slice |
| BunsetuRecognizers.BunsetuBounds | ginza/bunsetu_recognizer.py:62-79 | begin is the last B at or before the head (looking down to index 1, else 0), end the first B after it (else the document length), so begin <= head < end; missing or short labels raise |
| BunsetuRecognizers.Yield | ginza/bunsetu_recognizer.py:89-94 | the walk ends with the token itself and collects only token indexes; running out of nesting depth is an error |
| BunsetuRecognizers.YieldChildren | ginza/bunsetu_recognizer.py:90-93 | the children loop collects only token indexes |
| BunsetuRecognizers.BunsetuPhrase | ginza/bunsetu_recognizer.py:88-98 | the phrase span contains the head token and lies in the document, and its type is POS_PHRASE_MAP of the head's part of speech, or None |
| BunsetuRecognizers.Stripped | ginza/bunsetu_recognizer.py:114-118 | a label ending in `_bunsetu` (other than ROOT) loses the suffix; every other field and every other token is unchanged |
| BunsetuRecognizers.MarkHeads | ginza/bunsetu_recognizer.py:112-118 | a token is marked exactly when its label is ROOT or ends in `_bunsetu`, and its label is stripped |
| BunsetuRecognizers.WalkUp | ginza/bunsetu_recognizer.py:120-127 | one walk only adds marks and leaves the start token's head covered (marked, or a leftward PUNCT head) |
| BunsetuRecognizers.RecoverSubtrees | ginza/bunsetu_recognizer.py:119-127 | the recovery loop only adds marks, and every token marked before it ends with its head covered |
| BunsetuRecognizers.MarkedIndexes | ginza/bunsetu_recognizer.py:150 | exactly the marked indexes, strictly increasing |
| BunsetuRecognizers.LabelBunsetu | ginza/bunsetu_recognizer.py:152-164 | one label per token, B exactly at the bunsetu begins (0 and one past each head's right edge) that lie inside the document |
| BunsetuRecognizers.Recognize | ginza/bunsetu_recognizer.py:111-169 | labels are stripped, the stored heads are the marked indexes in order, the BI labels have B exactly at the bunsetu begins, and the other user data is unchanged |
| BunsetuRecognizers.SuffixTarget | ginza/bunsetu_recognizer.py:175-180 | the first token of the span whose head lies outside it, unless a root label comes first |
| BunsetuRecognizers.AddHeadDepSuffix | ginza/bunsetu_recognizer.py:172-180 | an empty suffix changes nothing; otherwise only the SuffixTarget token's label gets the suffix |
| Docs.Doc.constructor | ginza/bunsetu_recognizer.py:40 | a new document holds its tokens and no user data |
| Unicode.DecodeEncodeUtf8 | sudachipy/utf8inputtextbuilder.py:48 | decoding the UTF-8 encoding of any string (RFC 3629 section 3) gives the string back |
| Unicode.EncodeUtf16LeLength | sudachipy/dictionarylib/jtypedbytebuffer.py:32-33 | the UTF-16LE encoding takes two bytes per UTF-16 code unit, a character above U+FFFF counting as two units |
| Unicode.DecodeEncodeUtf16Le | sudachipy/dictionarylib/wordinfolist.py:48-50 | the UTF-16LE decoding of the bytes `write_str` produces (RFC 2781 section 2.1) is the original string |
| Unicode.DecodeBomEncodeUtf16Le | sudachipy/dictionarylib/grammar.py:70 | the byte-order-sniffing 'utf-16' decoder gives back any string that does not start with U+FEFF or U+FFFE |
| Unicode.DecodeBomDropsLeadingMark | sudachipy/dictionarylib/grammar.py:70 | a string starting with U+FEFF loses that character when read back with the 'utf-16' decoder |

## Left out

- File and resource I/O: dictionary files are given as byte sequences; char.def, unk.def and rewrite.def as lists of lines; opening files, mmap, logging and the command line are not modelled.
- DoubleArray open, save, array and byte_array: they only map a file into memory or write it out.
- The DAWG branch of the double-array builder's build (build_dawg, build_from_dawg_header, build_from_dawg_insert, arrange_from_dawg) is left out to keep the model's scope. It is the branch write_lexicon's trie takes, because write_lexicon always passes values. Those values are word-id table offsets and strictly increase, so the call to `intersection_id` is never reached. That call would raise AttributeError, because dawgbuilder.py spells the method `intersecrion_id`. The key-set branch and the DAWG builder itself are modelled.
- DoubleArrays.DoubleArray.Build: models only the branch without values (build_from_key_set_header), because the branch with values runs through the DAWG branch left out above.
- DictionaryBuilders.DictionaryBuilder.WriteLexicon: the trie's units are a parameter, constrained only to fit in 32 bits and not tied to the keys, because the DAWG branch that builds them is left out. The progress function's float test `n % (s / 10 + 1) == 0` is modelled by ProgressDot. When s + 10 is a multiple of 5 the divisor is an exact binary fraction and the test is exact. Otherwise the float remainder is taken as never 0, a fact about IEEE doubles that the model assumes and does not prove.
- DictionaryBlocks.FieldsReadBack, DictionaryBlocks.PosListReadBack, DictionaryBlocks.PosTableReadBack, DictionaryBlocks.GrammarReadBack, DictionaryBlocks.GrammarBlockReadBack: these hold for the reader with the corrected step (Grammars.NextOffset). With the step as written at grammar.py:23, they fail for any field holding a character above U+FFFF (see Findings).
- Grammars.StringsFrom, Grammars.ReadPos, Grammars.ParseGrammar, Grammars.ReadGrammar: these advance by the corrected step, the stored code-unit count. grammar.py:23 advances by `1 + 2 * len(s)` of the decoded string, which is shorter for a string holding a character above U+FFFF. The as-written step is Grammars.AsWrittenStepFallsShort's subject (see Findings).
- WordInfoLists.ReadEntry, WordInfoLists.ReadWordInfo, Lexicons.DoubleArrayLexicon.GetWordInfo: these use the corrected EntryAt, which restores an empty reading form to the surface. wordinfolist.py:21 returns it empty (see Findings).
- DoubleArrayBuilders.DoubleArrayBuilder.FixId, DoubleArrayBuilders.DoubleArrayBuilder.FixIds, DoubleArrayBuilders.DoubleArrayBuilder.FixBlock: these store the low byte of the fix-up label `id ^ unused_offset`. doublearraybuilder.py:342 stores it whole (see Findings).
- DoubleArrayBuilders.DoubleArrayBuilder.FindUnused, DoubleArrayBuilders.FirstUnused, DoubleArrayBuilders.DoubleArrayBuilder.FindValidOffset, DoubleArrayBuilders.DoubleArrayBuilder.ReserveId, DoubleArrayBuilders.DoubleArrayBuilder.BuildFromKeySetInsert, DoubleArrayBuilders.DoubleArrayBuilder.ScanLabels, DoubleArrayBuilders.DoubleArrayBuilder.PlaceChildren, DawgBuilders.DawgBuilder.Flush, DawgBuilders.DawgBuilder.MatchesReversed, BitVectors.BitVector.Get, BitVectors.BitVector.IsEmpty, BitVectors.BitVector.Append: the source compares ints with `is` / `is not` (doublearraybuilder.py:178, :201-226, :253, :276-278, :333; dawgbuilder.py:178, :272; bitvector.py:10, :26, :35). These are read as `==` / `!=`. That matches CPython only for ints it caches (-5 to 256); for larger ids and offsets the identity test can be false between equal values.
- UserDictionaryBuilders.CheckWordId, UserDictionaryBuilders.CheckWordIdAsWritten, DictionaryBuilders.CheckWordIdAccepts: the outcome of `system_lexicon.size()` is a parameter. The command line (sudachipy/command_line.py:70-73, with the lexicon built at :197) hands the builder a LexiconSet, which defines no `size`, so the outcome depends on its base class lexicon.Lexicon, which is not part of this model. A DoubleArrayLexicon would raise TypeError, because its `size` is an int.
- Texts.IsSpace, Texts.Strip, Texts.SplitSpaces, CharacterCategories.ParseLine, DictionaryBlocks.MatrixHeader, DictionaryBlocks.MatrixLineOf, DefaultInputTextPlugins.ParseRewriteLines, MeCabOovPlugins.ParseCharDefLine, MeCabOovPlugins.ParseUnkDefLine: whitespace is the six ASCII characters space, tab, LF, CR, VT and FF. Python's `str.strip()`, `str.split()` and the `re` class `\s` also take the other Unicode whitespace (U+001C-U+001F, U+0085, U+00A0, U+1680, U+2000-U+200A, U+2028, U+2029, U+202F, U+205F, U+3000). On a line holding one of those, the model splits and strips differently from the source.
- Texts.ParseInt, Texts.ParseHex, CharacterCategories.ParseLine, DictionaryBlocks.ParseInts, DictionaryBlocks.MatrixHeader, DictionaryBlocks.MatrixLineOf, DictionaryBuilders.ParseRowAccepts, DictionaryBuilders.DictionaryBuilder.ParseLine, DictionaryBuilders.DictionaryBuilder.ParseSplitInfo, MeCabOovPlugins.CategoryInfoOf, MeCabOovPlugins.OovOf, MeCabOovPlugins.ParseUnkDefLine: `int()` is read strictly, as an optional sign (no sign for base 16, which takes an optional `0x`) and then ASCII digits. Python's `int()` also accepts surrounding whitespace, single `_` separators between digits ('1_000') and non-ASCII decimal digits ('５'). Such a column is a ValueError in the model and a number in the source.
- DictionaryBuilders.IsId, DictionaryBuilders.DictionaryBuilder.ParseSplitInfo: `\d` in `re.match(r'U?\d+')` (dictionarybuilder.py:318) is read as an ASCII digit. Python's `re` also matches other Unicode decimal digits there.
- MeCabOovPlugins.ParseCharDefLine, MeCabOovPlugins.ParseUnkDefLine, CategoryTypes.Get: `getattr(CategoryType, name)` (mecab_oov_plugin.py:100 and :123) is read as the lookup of an enum member by name. Python also returns the class's other attributes (`get`, `get_id`, `get_type`, dunder names such as `__doc__`) without AttributeError; such a name is an invalid type in the model, while the source goes on with that attribute.
- UserDictionaryBuilders.GetWordIdAsWritten, UserDictionaryBuilders.GetWordId, DictionaryBuilders.DictionaryBuilder.GetWordId: a word the user dictionary lacks is taken to raise AttributeError at `system_lexicon.get_word_id1` (userdictionarybuilder.py:38). The system lexicon is a LexiconSet (sudachipy/command_line.py:70-73, :197), and LexiconSet does not define that method. Whether its base class lexicon.Lexicon does is not known to this model, since lexicon.Lexicon is not part of it. If it did, the result would be that method's answer.
- DoubleArrayBuilders.DoubleArrayBuilder.PlaceChildren: the units it writes are stated only when every child lies inside the units it started with. A child past them first grows the units through reserve_id, and then only the error and the bounds are stated.
- DawgBuilders.DawgBuilder.Insert: keeps the builder's invariants and adds the key's nodes, but does not prove that the new path spells the key.
- Tokenizers.RewriteWith: computes up front every query a plugin may need (categories, lexicon lookups), so a lookup error can surface before a rewrite the source would have done first.
- Tokenizers.RewritePath: states that the rewritten path still tiles the input and that each step is one plugin's rewrite, not the finer per-plugin properties proved in the plugin modules.
- Tokenizer dump output (set_dump_output, Lattice.dump) and LatticeNode's string form: printing only.
- Lattice get_nodes and remove: the core never calls them.
- Error messages: an `Err` carries the Python exception's kind; the message text need not match Python's.
- LexiconSet add and the iteration helper: modelled as the AttributeError and TypeError they raise, not as what they were meant to do.
- Loops that never end in Python (a full DAWG hash table, sibling links that never reach node 0) become `Err(NonTermination(..))`.
- Python's recursion limit: the dictionary-form lookup of a word info and bunsetu's `_yield` carry a depth bound and return RecursionError when it runs out; the exact depth Python allows is not modelled.
- DictionaryBuilder decode and replace (`\u` escapes in the CSV): the model takes fields already unescaped.
- DictionaryBuilder build and UserDictionaryBuilder build: orchestration of the writers around file I/O; each writer is modelled.
- WordParameterList set_cost and Grammar set_connect_cost: they call helpers the source does not define.
- Grammar's BOS/EOS parameters, character category getters, storage sizes and plain field getters: trivial accessors.
- JTypedByteBuffer from_bytes: a constructor around a bytes object.
- The shared file cursor of the mmap readers: every read is at an explicit position.
- Lone surrogates: a Dafny `char` is a Unicode scalar value, so text holding a lone surrogate cannot be built.
- correct_dep in japanese_corrector and the extension-attribute plumbing of spaCy: depend on spaCy's Doc objects.
- BunsetuRecognizers.LabelBunsetu, BunsetuRecognizers.Recognize: take `rightEdge` as a parameter. rightEdge(h) stands for the last token of head h's bunsetu, which bunsetu_recognizer.py:158-164 computes inside its loop by walking `t.rights` from the head. That walk over spaCy's dependency tree is not modelled.
- Python set iteration order (the katakana plugin's OOV categories) is a parameter.
- str.lower and NFKC normalisation (Unicode Standard Annex #15, section 1.2) are parameters given as code-point maps.
- Plugins are closed datatypes rather than classes loaded by name.
- ja_ginza's parse_tree helpers that duplicate the bunsetu code are not modelled a second time.

## Findings

| source | as written | input that shows it | evidently intended | confidence | as-written member | corrected member |
|---|---|---|---|---|---|---|
| sudachipy/dartsclone/doublearraybuilder.py:342 | the fix-up label `id ^ unused_offset` is stored without keeping it to a byte | block 1 with every offset used, id 256: the label is 256 and sets the unit's has-leaf bit | the label is the low byte of `id ^ unused_offset` | not executed | DoubleArrayBuilders.FixLabelAsWrittenSetsHasLeaf | DoubleArrayBuilders.FixLabelKeepsUnit |
| sudachipy/dictionarylib/grammar.py:23 | the reader steps past a part-of-speech string by `1 + 2 * len(s)` of the decoded string | the bytes `[2, 0x40, 0xD8, 0x0B, 0xDC]` hold one string U+2000B; the next string starts at 5, the step gives 3 | step by the stored code-unit count, `1 + 2 * n` | not executed | Grammars.AsWrittenStepFallsShort | DictionaryBlocks.FieldReadBack |
| sudachipy/dictionarylib/wordinfolist.py:21 | an empty reading form is returned empty, while the writer stores "" for a reading equal to the surface | a word whose reading equals its surface reads back with reading "" | an empty reading is restored to the surface, as the normalized form is | not executed | DictionaryLayouts.RecordReadBack | DictionaryLayouts.RecordReadBackIntended |
| sudachipy/dictionarylib/dictionarybuilder.py:255 | the records start at `mark * 4 + len(entries)` | two entries with the position table at mark 10: the records start at 42, 24 zero bytes after the table ends at 18 | the records start right after the table, at `mark + 4 * len(entries)` | not executed | LexiconLayouts.AreaLayoutAsWritten | LexiconLayouts.AreaLayoutIntended |
| sudachipy/dictionarylib/categorytype.py:22-29 | get_id reads `self.id`, which an Enum member does not have, and get_type iterates `CategoryType.values()`, which an Enum class does not have | `get_type(1)` on any member raises AttributeError instead of returning DEFAULT | get_id returns the member's value and get_type scans the members in declaration order | not executed | CategoryTypes.GetTypeNeverFinds | CategoryTypes.GetTypeFinds |
| sudachipy/dictionarylib/userdictionarybuilder.py:29-31 | get_part_of_speech_id raises for an unknown part of speech, so the fallback to a new id never runs | any part of speech missing from the system grammar raises ValueError | an unknown part of speech gets the next id after the grammar's | not executed | UserDictionaryBuilders.GetPosIdNeverFallsBack | UserDictionaryBuilders.IntendedPosIdsSeparate |
| sudachipy/dictionarylib/userdictionarybuilder.py:38 | a word missing from the user dictionary is looked up with `get_word_id1`, which LexiconSet does not define; the finding holds only if its base class lexicon.Lexicon (not part of this model) does not define it either | any headword the user dictionary lacks raises AttributeError | look the word up in the system lexicon | not executed | UserDictionaryBuilders.GetWordIdAsWritten | UserDictionaryBuilders.IntendedWordIdsSeparate |
| sudachipy/dictionarylib/userdictionarybuilder.py:43 | an unflagged id is compared with `system_lexicon.size()`, which a DoubleArrayLexicon cannot answer (its size is an int) and a LexiconSet, the lexicon the command line passes, does not define itself | any unflagged non-negative word id raises the call's error (TypeError for a DoubleArrayLexicon) | compare with the system lexicon's size | not executed | UserDictionaryBuilders.CheckWordIdAsWritten | UserDictionaryBuilders.IntendedCheckAccepts |

The double-array builder uses the corrected fix-up (DoubleArrayBuilders.DoubleArrayBuilder.FixId), and the grammar and word-info readers use the corrected step and reading form (Grammars.NextOffset, WordInfoLists.EntryAt). The lexicon writer and the user dictionary builder follow the code as written; the corrected definitions stand beside them with their properties proved.
