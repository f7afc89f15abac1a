# bls-hsm: a verified model

This project models, in Dafny, the parts of the bls-hsm hardware remote signer whose
correctness is least visible from reading the code, and proves what they compute.

- **Hash tree roots** (`Words`, `MerkleTree`, `Merkleization`, `ListHasher`, `LongLists`,
  `Bitlist`, `BitlistProperties`, `MerkleRuns`, `SszLists`, `Containers`, `Blocks`,
  `BlockStandard`, `SigningRoot`, `ToyHash`, `ToyAttestation`; from `lib/merkleization.h` and `getSR` of
  `lib/httpRemote.h`). Leaves are merged one at a time into a binary-counter array; row 0 of
  the global zero-hash table is the in/out buffer of the padding merge. The reference is the
  recursive Merkle root of the zero-padded leaf vector ("Merkleization" in
  ssz/simple-serialize.md of ethereum/consensus-specs). SHA-256 is an arbitrary function `H`
  from byte strings to 32 bytes, so every result holds for every hash function. Where a result
  says that roots differ, it assumes that no two of the finitely many strings hashed for the one
  and the other collide (`CollisionFree`), and sometimes that none of them hashes to zero
  (`ZeroFree`); no function from 64 to 32 bytes is free of collisions altogether. `ToyHash` and
  `ToyAttestation` give a function and inputs that meet the assumptions.
- **The in-place JSON parser** (`Options`, `JsonText`, `JsonNumbers`, `JsonGrammar`, `JsonLayout`,
  `JsonLexer`, `JsonParser`, `JsonShape`, `JsonQuery`, `JsonPrinter`, `JsonRoundTrip`,
  `JsonLanguage`, `JsonLookup`; from `lib/tiny-json.c`). One loop, no recursion; the stack of open containers
  lives in the nodes' own `sibling` fields and the text is unescaped and terminated in its own
  buffer. The reference is a recursive-descent parser; that parser accepts exactly the texts of
  a printer of values that is written without it, and finds the value printed.
- **The keystore** (`KeystoreModel`, `Keystore`, `Hex`; from `lib/bls_hsm.h` and `lib/common.c`).
  Two parallel arrays and a counter, mirrored to protected storage by separate writes; power may
  be lost between any two of them.
- **The bridge** (`BridgeLock`, `Framing`, `KeyList`; from `remote-signer/bridge.go` and the response
  builders of `lib/httpRemote.h`). The mutex with time-outs, over every interleaving, and the
  loop that decides where a response ends.

The model follows the code where the code and the standards or its own comments differ. The
differences, each stated as a lemma with its exact condition:

- `CoverDepth` is the needed tree depth exactly for arguments up to 256
  (`Merkleization.CoverDepthCorrect`); the limit 2048 gets depth 8.
- A call whose leaf count is neither zero nor a power of two overwrites row 0 of the zero-hash
  table with its own padded root; later calls read that value as their first missing leaves.
  `Merkleization.Effective` says which leaf vector is really hashed for any content of row 0,
  `MerkleRuns.TreeCorrectIff` when that is the right one, and `MerkleRuns.RunCorrectIff` which
  calls of a run are right.
- A list of 256 leaves reaches `merge` with an 8-bit size of 0, and leaf 0 is lost
  (`MerkleRuns.FirstLeafLost`). Of a longer list only one run of leaves is hashed, often one that
  was stored long before the end; `LongLists.LongListHashes` says which, for every length.
- The list hashers mix in a constant instead of the length, and work with at most eight levels
  (`SszLists.ListIsSszIff`); `htru64list` also puts one number into each chunk where the standard
  packs four (`SszLists.NumbersNeverSsz`, `SszLists.FullNumbersNeverSsz`).
- `htrAtt` keeps the length of the text of the aggregation bits in eight bits, and its bit list
  may spoil row 0 for the fields behind it: it is right exactly for up to 512 and for 769 to 1015
  bits (`Containers.AttIsSszIff`, `Containers.SoundByLength`). A block is hashed right exactly
  when it has no attestations or two such ones (`BlockStandard.BlockIsSszIff`).
- After `reset` the next `init` reports success only if the keystore was empty and its key cell
  had been written before; the list in memory is right either way
  (`KeystoreModel.BootAfterReset`).
- A handler that gives up waiting leaves its waiter behind; once that waiter gets the mutex
  nobody passes again (`BridgeLock.WedgedForever`, `BridgeLock.ReleasableIff`). A response
  time-out unlocks while the serial port is still in use; `BridgeLock.OverlapIff` says when two
  goroutines can then meet there.
- `json_create`'s documentation says that the root is always an object; the code also accepts
  an array, and ignores whatever follows the closing bracket. So does the model.

Conventions. A C pointer is an index, null is -1. A pointer into one of several 32-byte rows is
an array of chunks and a row number, so `merge(zerohashes[0], ...)` really aliases the table.
Unsigned widths are written out where they matter: the size argument of `merge` and the argument
of `BitIndex` are cut to 8 bits. Random numbers, time-outs, storage content and decoded request
fields are parameters. blst is a record of abstract functions; where signatures matter its
correctness is a stated hypothesis, for keys other than the point at infinity.

## Model

| member | source | states |
|---|---|---|
| Hex.Hex2Bin | lib/common.c:55-87 | success exactly for hex text with room; the bytes are its decoding, odd text having a leading zero nibble; nothing beyond them is touched |
| Hex.Bin2Hex | lib/common.c:36-53 | exact guard; lower-case text, terminator, rest unchanged; room for the terminator is the caller's duty |
| Hex.DecodeHexOf | lib/common.c:36-87 | reading printed hex gives the bytes back, at every length |
| Hex.HexOfDecode | lib/common.c:55-87 | printing what was read gives the lower-case text, with the implied leading zero |
| Hex.Htru64 | lib/merkleization.h:80-86 | byte swap, hex print and hex read give the little-endian zero-padded chunk |
| Hex.U64ChunkInjective | lib/merkleization.h:80-86 | different 64-bit numbers have different chunks |
| Hex.U64ChunkByte | lib/merkleization.h:80-86 | byte k of the chunk is digit k of the number to the base 256 for k below 8, the other bytes are zero |
| Hex.HexAlphabet | lib/common.c:8-34 | the sixteen digits printed are 0123456789abcdef, both cases are read with their values, and no other character is a digit |
| MerkleTree.NodeIsPaddedRoot | lib/merkleization.h:191-195 | the top node of the level/index view is the recursive root of the zero-padded leaves |
| MerkleTree.ExtractCollision | lib/merkleization.h:143-148 | two different leaf vectors with one root yield two distinct 64-byte inputs with one digest, one hashed for each root |
| MerkleTree.PaddedRootInjective | lib/merkleization.h:143-167 | padded roots agree exactly when the padded vectors do, unless strings hashed for them collide |
| MerkleTree.DepthsDiffer | lib/merkleization.h:191-195 | if trees of two depths have one root, a leaf of the smaller is a digest, unless strings hashed for them collide |
| Merkleization.BitIndexIsTopBit | lib/merkleization.h:101-116 | the three masks find the highest set bit of a byte |
| Merkleization.CoverDepthCorrect | lib/merkleization.h:126-131 | at most 8, and the rounded-up logarithm if and only if the argument is at most 256 |
| Merkleization.Climb | lib/merkleization.h:150-167 | the loop of merge has no bound, yet ends within the rows of tmp, and at a level no greater than depth for every index below 2^depth |
| Merkleization.MergeLeaf | lib/merkleization.h:150-183 | merging leaf i turns the finished subtrees of i leaves into those of i + 1 |
| Merkleization.ClimbPadding | lib/merkleization.h:154-157 | the padding call ends exactly at the cover depth with the root of the padded tree |
| Merkleization.MergeFirstOf256 | lib/merkleization.h:150-167 | with 256 leaves the 8-bit size is 0 and leaf 0 lands in the top slot |
| Merkleization.Merkleizer.InitZeroHashes | lib/merkleization.h:133-141 | rows 0..size are the iterated zero hashes, the others unchanged |
| Merkleization.Merkleizer.Merge | lib/merkleization.h:150-167 | buffer and slot hold the climbed value, also when the buffer is row 0 of the table |
| Merkleization.Merkleizer.MergeOne | lib/merkleization.h:179-184 | one pass of the leaf loop keeps the finished-subtree invariant |
| Merkleization.Merkleizer.PadMerge | lib/merkleization.h:188 | merging row 0 into itself leaves the padded root in row 0 and at the cover depth, and the other rows intact |
| Merkleization.Merkleizer.Pad | lib/merkleization.h:186-189 | the slot at the cover depth is the padded root; row 0 becomes that root if padding ran, all else is kept |
| Merkleization.Merkleizer.Extend | lib/merkleization.h:191-195 | the slot at the limit depth is the recursive root of the vector really hashed |
| ListHasher.MergeLeaves | lib/merkleization.h:178-184 | the leaf loop leaves the slots of the pure simulation, for a list of any length |
| ListHasher.PadLeaves | lib/merkleization.h:186-189 | likewise the padding branch: slots and row 0 |
| ListHasher.ExtendLeaves | lib/merkleization.h:191-195 | likewise the extension to the limit depth, also when it does not run |
| ListHasher.StreamRoot | lib/merkleization.h:176-195 | the three together, for a list of any length |
| ListHasher.HtrList | lib/merkleization.h:169-204 | result and whole new table of a list hasher whose elements leave row 0 alone, for a list of any length that the rows of tmp allow |
| ListHasher.FitsIsTree | lib/merkleization.h:176-195 | for a list that fits, the streamed root is the recursive root of the vector really hashed, for every content of row 0; and what row 0 becomes |
| ListHasher.FitsIsList | lib/merkleization.h:169-204 | likewise for the whole list hash, the empty list included |
| LongLists.LongListHashes | lib/merkleization.h:150-195 | for every number of leaves above 256: the padded tree of one run of 2^c leaves is hashed, the last ones with row 0, or those of the last subtree stored at the cover depth c as it stands after one leaf was taken for the padding call; and what row 0 becomes |
| LongLists.TellsAll | lib/merkleization.h:150-184 | the slots at the end tell of the leaves, except that a stale subtree stands in for the one lost with that leaf |
| LongLists.TopIff | lib/merkleization.h:150-167 | the padding call ends at the cover depth exactly when the 8-bit size is all ones and the next bit of the number is clear |
| LongLists.OnlyLastBlock | lib/merkleization.h:176-195 | of 256 q + 2^e leaves (0 < e < 8) only the last 2^e are hashed, and row 0 is not touched |
| LongLists.OnlyStaleRun | lib/merkleization.h:176-195 | of 256 q + m leaves, m at most 126 and neither a power of two nor one less, none of the last m is hashed but a run of the block before (up to 62 when q is 1) |
| LongLists.OnlyBlockBefore | lib/merkleization.h:176-195 | of 512 q leaves (q > 1) only the 256 before the last 256 are hashed |
| LongLists.OnlyLastLeaf | lib/merkleization.h:176-195 | of 256 q + 1 leaves only the last is hashed, beside row 0 |
| Bitlist.ClearTopBit | lib/merkleization.h:224-226 | clearing the bit BitIndex finds leaves exactly the bits below it |
| Bitlist.FillChunk | lib/merkleization.h:217-226 | zeroing, copying and clearing give the packed chunk of the bits before the delimiter |
| Bitlist.MergeChunks | lib/merkleization.h:217-228 | after the chunk loop all finished subtrees of the packed chunks are in place |
| Bitlist.HtrBitlist | lib/merkleization.h:206-246 | result and new table for every byte string whose chunks fit, multiples of 256 bits included |
| BitlistProperties.SerializedLength | lib/merkleization.h:118-124 | the length found in a serialized bit list is the number of its bits |
| BitlistProperties.SerializeRoundTrip | lib/merkleization.h:118-124 | the bits read from a serialization are the bits serialized |
| BitlistProperties.PackInjective | lib/merkleization.h:217-228 | lists of one length with the same chunks are equal |
| BitlistProperties.ChunkBit | lib/merkleization.h:217-228 | where each bit of the list stands in the chunks, least significant first |
| BitlistProperties.BitlistCollision | lib/merkleization.h:206-246 | two different bit lists with one root yield a collision between a string hashed for the one and one hashed for the other |
| MerkleRuns.TreeCorrectIff | lib/merkleization.h:150-204 | the streamed root is the reference root exactly when row 0 is zero or unread and leaf 0 is not lost, unless strings hashed for the two collide |
| MerkleRuns.ListsCollideIff | lib/merkleization.h:197-200 | two non-empty lists hash alike exactly when their zero-padded vectors agree, unless strings hashed for them collide |
| SszLists.ListIsSszIff | lib/merkleization.h:572-745 | a list hasher whose elements leave row 0 alone meets the SSZ standard exactly when its limit is at most 256 and the list is empty or as long as the constant |
| SszLists.NumbersNeverSsz | lib/merkleization.h:169-204 | where the standard needs more levels than CoverDepth counts, htru64list on fewer numbers than the limit, long lists included, never meets it |
| SszLists.FullNumbersNeverSsz | lib/merkleization.h:169-204 | nor does it on as many numbers as the limit, a multiple of 512 |
| SszLists.NumberPlaces | lib/merkleization.h:169-204 | the standard's packing: byte b of number 4q + j is byte 8j + b of chunk q |
| SszLists.IndicesDepth | lib/merkleization.h:492 | the limit of attesting indices is such a limit: 8 levels instead of 9 |
| MerkleRuns.BitlistIsSsz | lib/merkleization.h:206-246 | for every bit list within a limit of at most 65280 bits, the SSZ root with the length mixed in |
| MerkleRuns.Run | lib/merkleization.h:133-246 | any run of calls on the one table returns, call by call, what the state model says |
| MerkleRuns.CleanRunKeepsTable | lib/merkleization.h:186-189 | calls with zero or a power of two leaves keep the table intact |
| MerkleRuns.CorrectThroughFirstDirty | lib/merkleization.h:133-246 | results equal the reference up to and including the first other call, which leaves its padded root in row 0 |
| MerkleRuns.IntactIffAllClean | lib/merkleization.h:186-189 | the table is intact if and only if every call so far had zero or a power of two leaves: nothing repairs it, unless a string hashed for row 0 hashes to zero |
| MerkleRuns.RunCorrectIff | lib/merkleization.h:133-246 | any call of any run returns the reference if and only if all earlier calls were such or it never reads row 0; with 256 leaves, if and only if the lost leaf is zero; unless strings hashed for the two collide |
| MerkleRuns.SecondCallDiffers | lib/merkleization.h:186-195 | three leaves hashed twice: the first result is right, the second is not |
| ToyHash.HypothesesAreMet | lib/merkleization.h:143-148 | the assumptions of that result about collisions hold for some hash function and leaves |
| ToyHash.ToyZeroFree | lib/merkleization.h:143-148 | and those about strings that hash to zero |
| ToyHash.ToySecondCall | lib/merkleization.h:186-195 | for which the second result is indeed wrong |
| MerkleRuns.LengthIgnored | lib/merkleization.h:197-200 | a list and the same list with a zero element appended hash alike |
| MerkleRuns.FirstLeafLost | lib/merkleization.h:150-183 | lists of 256 leaves that differ in leaf 0 hash alike |
| Containers.HtrSignature | lib/merkleization.h:337-342 | tree of three chunks, row 0 as the fourth |
| Containers.SignatureIsPacked | lib/merkleization.h:337-342 | the three chunks are the 96 bytes in their order, byte k in chunk k / 32, as the standard packs them |
| Containers.SignatureIsSsz | lib/merkleization.h:337-342 | from an intact table the SSZ root of the signature |
| Containers.HtrAttDat | lib/merkleization.h:248-306 | the reused registers compute the tree of the five fields |
| Containers.HtrBits | lib/merkleization.h:353-359 | the text is cut to its length modulo 256, decoded and hashed |
| Containers.HtrAtt | lib/merkleization.h:351-377 | tree of the three fields, the later ones under the table the bit list left |
| Containers.HtrAggAndProof | lib/merkleization.h:385-403 | tree of the three fields, likewise |
| Containers.HtrEth1Data | lib/merkleization.h:405-426 | tree of the three fields |
| Containers.ReadOrCut | lib/merkleization.h:353-359 | a text of fewer than 256 digits is read as it stands; of any other a shorter bit list is read |
| Containers.AttIsSszIff | lib/merkleization.h:351-377 | from an intact table the SSZ root exactly when the text has fewer than 256 digits and the bits fill no chunk or a power of two of them; the converse unless strings hashed for the two collide or one hashes to zero |
| Containers.SoundByLength | lib/merkleization.h:351-377 | which is: up to 512 bits, or 769 to 1015 |
| Containers.SmallCommittee | lib/merkleization.h:351-377 | the SSZ root for up to 512 aggregation bits |
| Containers.LargeCommittee | lib/merkleization.h:351-377 | another one for 513 to 768 and for more than 1015 |
| ToyAttestation.LargeHypothesesAreMet | lib/merkleization.h:351-377 | the assumptions of that result hold for some hash function and an attestation of 513 bits |
| ToyAttestation.ToyCommittee | lib/merkleization.h:351-377 | for which the root is indeed wrong |
| Containers.AggregateIsSszIff | lib/merkleization.h:385-403 | the SSZ root of an aggregate and proof exactly under the same condition |
| Blocks.HashList | lib/merkleization.h:651-654 | every list of attestations has its roots, each under the row 0 its predecessors left |
| Blocks.MergeAttestations | lib/merkleization.h:651-654 | the leaf loop hashes each attestation, which may spoil row 0, and keeps the finished-subtree invariant |
| Blocks.HtrAttestations | lib/merkleization.h:642-675 | root of the list and new row 0 |
| Blocks.BodyLeft | lib/merkleization.h:771-778 | first half of the body's tree in register 0 |
| Blocks.BodyMiddle | lib/merkleization.h:780-782 | attester slashings and attestations joined in register 1, row 0 as the attestations left it |
| Blocks.BodyEnd | lib/merkleization.h:784-789 | second half of the body's tree in register 1 |
| Blocks.HtrBody | lib/merkleization.h:756-792 | tree of the eight fields, the later ones under the table the attestations left |
| Blocks.HtrBlock | lib/merkleization.h:794-824 | tree of the five fields and new row 0 |
| BlockStandard.LengthIsMix | lib/merkleization.h:668-671 | a non-empty list of attestations is hashed right only if it has two elements with the right roots |
| BlockStandard.SoundAreSsz | lib/merkleization.h:351-377 | attestations that meet the condition, any number of them in a row, are hashed right and leave row 0 alone |
| BlockStandard.BlockIsSszIff | lib/merkleization.h:756-824 | from an intact table the SSZ root of a block exactly when it has no attestations or two that meet the condition; the converse unless strings hashed for the two collide or one hashes to zero |
| SigningRoot.GetDomain | lib/merkleization.h:308-324 | compute_domain with the current version |
| SigningRoot.SigningRootBytes | lib/merkleization.h:308-335 | the two strings hashed, byte for byte: version and genesis root, then object root, type and the first 28 bytes of that digest |
| SigningRoot.Dispatch | lib/httpRemote.h:434-450 | which eight strings are known and which object each names |
| SigningRoot.HtrRequest | lib/httpRemote.h:434-450 | the string chain: the object the type names, its root, its domain type (00000000, 01000000, 05000000 or 06000000) and the new row 0 |
| SigningRoot.GetSR | lib/httpRemote.h:434-456 | a root exactly for the eight known type strings: compute_signing_root of the message root under the domain type of its kind, block 00000000, attestation 01000000, slot 05000000, aggregate 06000000; row 0 afterwards |
| SigningRoot.MessageRootIsStandardIff | lib/httpRemote.h:434-456 | from an intact table the object root getSR computes is the SSZ root of the message exactly under the conditions on its attestations |
| SigningRoot.SigningRootBinds | lib/merkleization.h:326-335 | signing roots agree exactly when object roots and domains, hence domain types, do, unless the two strings collide |
| SigningRoot.KindsSeparate | lib/httpRemote.h:434-456 | messages of two kinds have different signing roots, whatever their roots and forks, unless the two strings hashed for them collide |
| JsonNumbers.TextOrderIsNumeric | lib/tiny-json.c:295-301 | strcmp order of digit strings of one length is numeric order |
| JsonNumbers.BoundCheckIsInt64 | lib/tiny-json.c:287-302 | a canonical integer token of any length passes if and only if its value is a 64-bit integer |
| JsonPrinter.CharacterClasses | lib/tiny-json.c:427-460 | which characters are blanks, end a primitive or a block, or follow a backslash |
| JsonPrinter.EscapeTable | lib/tiny-json.c:96-109 | what each of the eight escapes stands for |
| JsonPrinter.EscapeRead | lib/tiny-json.c:115-146 | which escapes are accepted, and no others; a slash for itself, a question mark for four hexadecimal digits |
| JsonPrinter.LettersRead | lib/tiny-json.c:127-151 | every string, each character spelled as itself, as an escape or as u with four hexadecimal digits, is read as what it means |
| JsonPrinter.StringRead | lib/tiny-json.c:127-151 | every string, written with quote, backslash and five control characters as escapes and every other character as itself, and closed by a quote, is read back exactly, whatever follows |
| JsonLanguage.LettersFound | lib/tiny-json.c:127-151 | and every string that is read is spelled so |
| JsonPrinter.NumberRead | lib/tiny-json.c:267-305 | every properly written and ended number is accepted as real, or as integer exactly if it fits in 64 bits |
| JsonPrinter.NumberShape | lib/tiny-json.c:267-305 | every accepted number is properly written: no leading zero, digits behind a point and an exponent |
| JsonRoundTrip.ValueRead | lib/tiny-json.c:332-381 | every value, nested to any depth, spelled and laid out in any way with blanks, commas, repeated and missing commas, is found where it stands with its types, names and texts |
| JsonRoundTrip.ParsePrint | lib/tiny-json.c:70-90 | every printed object or array is parsed to exactly that value, whatever blanks stand in front and whatever follows |
| JsonLanguage.ParseShape | lib/tiny-json.c:70-90 | conversely every accepted document is blanks, such a printed value and anything, and the tree is that value |
| JsonLanguage.AcceptedIff | lib/tiny-json.c:70-90 | the accepted language, exactly |
| JsonGrammar.FinishOpen | lib/tiny-json.c:360-373 | descending into a container is finishing it first, then its parent |
| JsonGrammar.FinishClose | lib/tiny-json.c:340-347 | a closing bracket closes the innermost container |
| JsonGrammar.FinishScalar | lib/tiny-json.c:374-380 | a scalar joins the innermost container |
| JsonGrammar.ItemNeedsNode | lib/tiny-json.c:349-350 | where an item starts, the finished tree needs one more node than allocated |
| JsonLayout.LinkTop | lib/tiny-json.c:310-319 | add extends the child chain of the innermost container and changes nothing else |
| JsonParser.PushContainer | lib/tiny-json.c:360-366 | an opened container is linked behind its siblings and its sibling field becomes the way back to its parent |
| JsonLayout.PopClosed | lib/tiny-json.c:342-345 | clearing that link makes the closed container an ordinary last child |
| JsonLexer.SkipBlank | lib/tiny-json.c:432-434 | first non-blank, null at the end of the text |
| JsonLexer.ParseString | lib/tiny-json.c:127-151 | the decoded string is left terminated where it stood; nothing from the cursor on changes |
| JsonLexer.PrimitiveValue | lib/tiny-json.c:201-207 | the literal with its end character, terminated unless a bracket follows |
| JsonLexer.NumValue | lib/tiny-json.c:267-305 | number grammar, type and 64-bit range; the temporary terminator is undone |
| JsonLexer.PropertyName | lib/tiny-json.c:158-166 | name, colon and value position |
| JsonParser.Pool.Alloc | lib/tiny-json.c:397-401 | next node, or null when all are used |
| JsonParser.Pool.Add | lib/tiny-json.c:310-319 | the new node behind the last child, its sibling null |
| JsonParser.PopContainer | lib/tiny-json.c:342-346 | the parent found in the sibling field; null exactly at the root |
| JsonParser.Step | lib/tiny-json.c:332-381 | every iteration keeps pool, links, text and the outcome of the parse |
| JsonParser.ObjValue | lib/tiny-json.c:327-382 | the loop ends with the tree of the recursive parser, or fails when there is none or it does not fit |
| JsonParser.JsonCreate | lib/tiny-json.c:70-90 | success if and only if the text starts with a container of the grammar whose nodes fit the pool; the nodes then are its preorder image and every name and value is a terminated decoded string |
| JsonShape.ParseWellTyped | lib/tiny-json.c:327-382 | containers have container types and nothing else has |
| JsonShape.ParsedIsTree | lib/tiny-json.c:340-347 | every link leads forward, the root has no link to it, every other node exactly one |
| JsonShape.ReachedOnce | lib/tiny-json.c:340-347 | every node of the document is reached from the root, by exactly one path of links |
| JsonQuery.GetProperty | lib/tiny-json.c:43-49 | the node of the first child of that name, or null if there is none |
| JsonQuery.KidHeld | lib/tiny-json.c:43-49 | every child of a container in memory is itself in memory: its nodes from its own index on and its texts in the buffer |
| JsonQuery.GetPropertyValue | lib/tiny-json.c:52-58 | where the terminated text of the first child of that name stands; null if there is none or it is a container |
| JsonLookup.SizeIs | lib/tiny-json.c:397-401 | a parsed value takes one node for each value in it |
| JsonLookup.CreateAndGet | lib/tiny-json.c:43-90 | any written object is accepted exactly if the pool has a node for each of its values, and looking up a name then finds the text of the first member of that name |
| KeystoreModel.CutIsAtomic | lib/bls_hsm.h:138-183 | after a power cut between any storage writes, init restores the list from before or after the operation |
| KeystoreModel.ResetCut | lib/bls_hsm.h:599-611 | a cut reset has deleted all keys exactly if its first write was made |
| KeystoreModel.RunValid | lib/bls_hsm.h:138-183 | in every state of every run with power cuts the counter is at most 10 and storage restores the keys |
| KeystoreModel.ImportsStayDistinct | lib/bls_hsm.h:618-670 | runs without key generation keep all secrets distinct |
| KeystoreModel.TenImports | lib/bls_hsm.h:618-670 | a fresh device takes the first ten of any number of distinct secrets imported, in order, and no other one |
| KeystoreModel.BootAfterReset | lib/bls_hsm.h:599-611 | when init succeeds after a reset, and that the list is empty either way |
| Keystore.ParseHex | lib/common.c:94-119 | offset, wrong length or wrong character, exactly |
| Keystore.BodyIsRest | lib/common.c:94-119 | a leading 0x is skipped and nothing else is |
| Keystore.CharCheck | lib/common.c:125-135 | error exactly when some character is not hexadecimal |
| Keystore.VerifySign | lib/bls_hsm.h:577-594 | 11 exactly if the three texts are readable, the message not empty and the signature verifies for the decoded texts; 12 exactly if they are and it does not; -1 exactly otherwise |
| Keystore.Store.Init | lib/bls_hsm.h:138-165 | the restored state, public keys rebuilt slot by slot, and the status |
| Keystore.Store.AddPair | lib/bls_hsm.h:168-183 | new state, aligned public key and the two storage writes in order |
| Keystore.Store.SecureKeygen | lib/bls_hsm.h:474-530 | appends exactly with room and randomness, else changes nothing |
| Keystore.Store.Stored | lib/bls_hsm.h:633-651 | the flag loop finds a secret exactly if it is stored |
| Keystore.Store.ImportSk | lib/bls_hsm.h:618-670 | appends exactly with room, hex text and a new secret, else changes nothing; the returned number, -6 exactly with ten keys stored |
| Keystore.Store.ResetAll | lib/bls_hsm.h:599-611 | empty state and the storage writes in order |
| Keystore.Store.PkInKeystore | lib/bls_hsm.h:439-467 | the first slot whose public key stands at the offset, or -1 if there is none, for texts of any length |
| Keystore.Store.GetKey | lib/bls_hsm.h:312-318 | the hex of the key derived from the secret in that slot |
| Keystore.Store.SignPk | lib/bls_hsm.h:539-568 | a signature exactly for texts that start with a stored key, made with a secret of that key; of a message that is not hexadecimal, what the buffer held before is signed |
| Keystore.SignThenVerify | lib/bls_hsm.h:539-594 | signing any hex message with any stored key gives a signature for which verify_sign returns 11 |
| BridgeLock.MutualExclusion | remote-signer/bridge.go:43-58 | in every interleaving at most one handler is past the lock |
| BridgeLock.WedgedForever | remote-signer/bridge.go:45-56 | a mutex taken for a handler that gave up is never released and no handler passes again |
| BridgeLock.OneConnectionWedges | remote-signer/bridge.go:45-56 | one connection can bring this about |
| BridgeLock.GaveUpDooms | remote-signer/bridge.go:45-56 | the waiter of a handler that gave up is blocked or has wedged the bridge, for ever |
| BridgeLock.ReleasableIff | remote-signer/bridge.go:43-58 | a held mutex can still be released if and only if the bridge is not wedged |
| BridgeLock.AnswerFrees | remote-signer/bridge.go:171-182 | a handler whose serial goroutine has ended can answer, which frees the mutex and touches no other handler |
| BridgeLock.AnswerPossible | remote-signer/bridge.go:43-182 | unless the bridge is wedged, whoever holds the mutex can give it back with an answer, without any time-out |
| BridgeLock.HandlersLeave | remote-signer/bridge.go:43-58 | no handler is stuck: waiting or past the lock, its time-out ends it, the second one with the mutex freed |
| BridgeLock.SerialExclusion | remote-signer/bridge.go:60-182 | in every run without a response time-out on a busy port, at most one goroutine uses the serial port |
| BridgeLock.OverlapIff | remote-signer/bridge.go:60-182 | without further such time-outs two goroutines can meet at the port if and only if two are there already, or one was abandoned there and the bridge is not wedged |
| BridgeLock.AbandonedMeets | remote-signer/bridge.go:175-182 | after any such time-out they can |
| BridgeLock.SerialOverlap | remote-signer/bridge.go:175-182 | a run from the start in which they do |
| Framing.ReadResponse | remote-signer/bridge.go:126-155 | of any framed response at the front of the stream exactly that response is read |
| Framing.AtoiOfDecimal | remote-signer/bridge.go:140 | the announced length is read back as printed |
| Framing.KeysResponse | lib/httpRemote.h:393-418 | the announced length is the length of the printed list, for any number of keys; what the list holds is KeyList.KeysParsed |
| KeyList.KeysParsed | lib/httpRemote.h:393-418 | read back with the grammar of tiny-json, the list is an array of exactly the keys, in order, each a string starting with 0x, whatever follows |
| Framing.SignResponse | lib/httpRemote.h:510-537 | both reply formats are framed |
| Framing.FixedIsFramed | lib/httpRemote.h:62-112 | the lengths spelled out in the fixed responses are right |
| Framing.HeadTexts | lib/httpRemote.h:73-104 | the two headers spelled out |
| Framing.FixedTexts | lib/httpRemote.h:62-112 | the fixed responses without a body spelled out |
| Framing.KeysRoundTrip | lib/httpRemote.h:393-418 | a key list response is read to its last character and no further |
| Framing.SignRoundTrip | lib/httpRemote.h:510-537 | likewise for signature responses |
| Framing.FixedRoundTrip | lib/httpRemote.h:62-112 | likewise for the fixed responses |

## Left out

- SHA-256, blst, PSA storage and randomness: abstract functions, storage cells and parameters; a storage write is atomic and succeeds.
- `InitZeroHashes(64)`, as called from the two main loops, writes a 65th row; the model's table has 64 rows and allows sizes up to 63.
- ListHasher.HtrList: lists so long that `merge` would leave the rows of `tmp`; pointers have four bytes, so that under the limit 2048 there are 36 rows. Elements whose hashing changes row 0 between two merges, as those of `htrAttesterSlashings` and `htrDeposits` may through `htru64list`; the attestations of `Blocks` are the one such list modelled.
- LongLists.LongListHashes: limits of fewer levels than the cover depth of the list; the limit 2048 has eight, which is never fewer.
- Blocks.HtrBody: proposer and attester slashings, deposits and voluntary exits are empty; their elements' hashers are more of the same kind, or depend on undecoded or uninitialised bytes.
- Blocks.HtrBlock: likewise.
- Blocks.BodyMiddle: likewise, and more attestations than the limit, which no valid block has.
- Blocks.MergeAttestations: more attestations than the limit.
- Blocks.HtrAttestations: more attestations than the limit.
- SigningRoot.HtrRequest: blocks as in Blocks.HtrBlock, and requests that lack the object their type names, where the code follows a null pointer.
- SigningRoot.GetSR: likewise.
- Containers.HtrBits: text of odd length or with characters other than hex digits, for which the code hashes uninitialised memory.
- Reading fields out of cJSON objects and their decimal and hex text, other than the text of the aggregation bits.
- `htrbool`, `htrBLSPubkey`, `htrDeposit`, `htrSignedVoluntaryExit`, `htrSyncAggregate`, `htrBitVector`, `htrBeaconBlockBodyV2`, the slashing containers: unfinished, dependent on undecoded bytes, or more of the same kind.
- Keystore.SignThenVerify: a secret whose public key is the point at infinity, which can be imported.
- JsonLexer.NumValue: reading the value of a number (`strtoll`, `strtod`) after the parse.
- The content of the buffer and the pool after a failed parse, which callers discard.
- `store_pk`: it has no caller in the library.
- Signing: `signResponseStr` returns an error right after `getSR` has computed a root, so that only signing roots sent by the client are signed.
- Request parsing, keystore import over HTTP, the secure partition plumbing, TCP, touch screen, command line and Go signer: I/O and wrappers.
- Framing.ReadResponse: characters outside ASCII, for which the bridge counts runes and the board bytes; and numbers beyond the machine word in `Atoi`.
- BridgeLock: which time-out fires when; any may fire at any moment.
