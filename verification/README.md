# Verified models of the cube-1.3 library

cube-1.3 is a framework for trusted software: modules exchange typed messages that are
described by templates, packed into blobs, framed, routed, hashed and enciphered. This
project models the algorithms at its core in Dafny and proves what they are for.

| file | component |
|---|---|
| `Base.dfy` | results, error codes and byte types shared by all |
| `StructWalk.dfy` | the template tree and the walker that visits it without a stack |
| `StructRecord.dfy` | which leaf instances a record has, and their order |
| `StructCodec.dfy` | packing and unpacking of records as callbacks on that walk |
| `StructLayout.dfy` | creation of templates, offsets, addresses and sizes |
| `StructMemory.dfy` | packing from and unpacking into memory at those addresses |
| `Text.dfy`, `Json.dfy` | decimal numbers and the JSON printer |
| `JsonParse.dfy`, `JsonNodes.dfy` | what the JSON parser makes of a text, and the nodes it links in place |
| `Words.dfy`, `Counting.dfy` | bytes, words, padding and bit counters shared by the digests |
| `Sha1.dfy`, `Sm3.dfy` | SHA-1, SM3 and HMAC-SM3 |
| `KnownAnswers.dfy` | the example digests of their standards |
| `Sm4.dfy`, `Sm4Modes.dfy` | the SM4 block cipher, ECB, CBC and the block mode with a masked tail |
| `Route.dfy` | routing of messages through nested aspects |
| `Bitmap.dfy`, `FileTransfer.dfy` | transfer of files in blocks |
| `Message.dfy` | framing, piecewise reading and relaying of messages |
| `Lists.dfy`, `HashList.dfy` | circular doubly linked lists and the hash list over them |
| `PointerQueue.dfy`, `ByteRing.dfy` | the pointer queue and the byte ring |
| `Radix64.dfy` | the radix64 codec |

Code that changes fields, buffers or links in place is modelled by classes and methods with
loops; each such method is tied to a function of its inputs or of the old state, and the
properties are proved about these functions and about whole runs.

## Assumptions

- The machine is little endian with 64 bit `unsigned long`; `int` has 32 bits.
- Allocation never fails.
- A nonce that the random source yields has not been seen before.
- Where SM3 rotates a constant by `j`, the rotation is by `j` modulo 32, as the standard says.
- Pointers into a template are named by paths, and a record is a map from the instances of
  its leaves to their values; `StructLayout` gives each leaf its address, and `StructMemory`
  carries packing and unpacking over to a memory of bytes at these addresses.
- Digests, S-boxes, template lookup and the contents of files are parameters, so that the
  results hold for all of them.

## Findings

Some of the properties hold only under a condition. Each is proved in both directions, and a
lemma or method shows an input at which it fails.

- JSON (`JsonParse.PrintedRead`, `JsonParse.RoundTrip`; `JsonParse.NegativeExample`,
  `JsonParse.FalseExample`): text printed from a tree parses back
  if and only if no negative number stands directly in an array, and then gives the same tree
  if and only if every boolean is true, because the parser stores `false` as 1.
- Byte ring (`ByteRing.StoredAfterWrite`; `ByteRing.LossExample`): a write stores what it
  reports if and only if the read tail is not at zero, or the write stays below the end of the
  buffer, or the buffer has no bytes; otherwise the ring is empty afterwards.
- Record size (`StructLayout.StructSizeExact`; `StructLayout.StructSizeExample`): `struct_size` is the end of the record if and
  only if the last element is not an array of structures, or its structure has just the size
  of the pointer that stands for the array.
- Framing (`Message.ReadFromBlob`; `Message.EmptyBodyExample`): a frame is read in one call if and only if its body or
  what follows it is not empty.

## Model

| member | source | states |
|---|---|---|
| `StructWalk.Template.Convert` | cubelib/struct_mod/struct_deal.c:45-166 | for every tree and all callbacks that set a limit only while it is zero, the walk without a stack terminates and gives exactly what the recursive traversal gives (the entry callback before every repetition, the leaf and exit callbacks on the same instances in the same order, each subset repeated `limit` times, empty arrays skipped, first error reported), and a walk that succeeds leaves the template at rest |
| `StructWalk.Template.Climb` | cubelib/struct_mod/struct_deal.c:72-105 | at the end of a node the walk goes back to the element above, and what remains to be done is unchanged |
| `StructWalk.Template.Reenter` | cubelib/struct_mod/struct_deal.c:108-152 | before each further repetition of an open element its entry callback is called again with instance and limit, and what remains is unchanged |
| `StructWalk.Template.Enter` | cubelib/struct_mod/struct_deal.c:108-152 | a subset element is opened with the limit its callback gives or passed when it is an empty array, and what remains is unchanged |
| `StructWalk.Template.PassEmpty` | cubelib/struct_mod/struct_deal.c:135-148 | an empty array is left at once through its exit callback, and what remains is unchanged |
| `StructWalk.Template.Process` | cubelib/struct_mod/struct_deal.c:108-161 | a leaf is handed to its callback with the instances of itself and of its length element, an unselected element is skipped, and what remains is unchanged |
| `StructWalk.Template.constructor` | cubelib/struct_mod/struct_deal.c:383-410 | a new template is at rest |
| `StructCodec.RoundTrip` | cubelib/struct_mod/struct_deal.c:767-939 | for every template whose length elements come earlier and every record that holds exactly the leaf instances the template asks for, unpacking the blob with anything behind it succeeds, consumes exactly the blob and rebuilds the record |
| `StructCodec.UnpackPacked` | cubelib/struct_mod/struct_deal.c:767-939 | the same for any record that can be packed: exactly the leaves that were packed come back, each with its value |
| `StructCodec.PackExact` | cubelib/struct_mod/struct_deal.c:767-865 | packing and partial packing succeed exactly when the selected leaf instances can be listed and encoded, and the blob is their encodings one behind the other in ascending order |
| `StructCodec.PackTakes` | cubelib/struct_mod/struct_deal.c:767-865 | a leaf is packed if and only if on the way to it every repetition lies below the declared count (zero read as one) or below the value of the length element, and it and every element above it are selected, which for a partial pack means that they share a bit with the flag |
| `StructRecord.OrderExact` | cubelib/struct_mod/struct_deal.c:767-833 | the list of leaf instances from any element on holds the instances of the record that are selected, and no others |
| `StructRecord.OrderAscends` | cubelib/struct_mod/struct_deal.c:45-166 | the list is strictly ascending: by element, then by repetition, then within the repetition |
| `StructCodec.PackNone` | cubelib/struct_mod/struct_deal.c:835-865 | a partial pack under the flag zero gives the empty blob |
| `StructCodec.PackAll` | cubelib/struct_mod/struct_deal.c:835-865 | under a flag that every element shares a bit with, a partial pack is the whole pack |
| `StructCodec.LeafLayout` | cubelib/struct_mod/struct_init.c:603-701 | which bytes each type of element takes in the blob: raw bytes as they are, a 16 bit TPM number with its high byte first, a string with a zero byte behind it |
| `StructCodec.NameLayout` | cubelib/struct_mod/struct_ops.c:194-232 | a list of names is packed name by name, each with a zero byte and its value behind it |
| `StructCodec.PackInjective` | cubelib/struct_mod/struct_deal.c:767-833 | two records, each with exactly the leaf instances the template asks for, whose blobs agree as far as they go are equal, so no blob is a prefix of another |
| `StructCodec.FollowElems` | cubelib/struct_mod/struct_deal.c:867-939 | from any element on, the unpacking walk follows the packing walk: same repetitions, same offsets, same values |
| `StructCodec.LengthKnown` | cubelib/struct_mod/struct_init.c:209-259 | when the unpacking walk needs the value of a length element, that element has been unpacked |
| `StructCodec.LeafRoundTrip` | cubelib/struct_mod/struct_init.c:603-809 | the bytes of one element, of every type of the model, are decoded to its value, and as many are consumed as were produced |
| `StructCodec.NamesRoundTrip` | cubelib/struct_mod/struct_ops.c:194-232 | a list of names and values is decoded to itself |
| `StructCodec.Perform` | cubelib/struct_mod/struct_deal.c:807-939 | one packing, partial packing or unpacking call on a template at rest yields what it would on a new template (for both kinds of packing the encodings of exactly the selected leaf instances in order), and leaves the template at rest if it succeeds |
| `StructCodec.PerformAll` | cubelib/struct_mod/struct_deal.c:767-939 | in any sequence of successful calls on one shared template no call depends on those before it |
| `StructCodec.PackThenUnpack` | cubelib/struct_mod/struct_deal.c:807-939 | packing and then unpacking on the same template gives back every record with exactly the leaf instances the template asks for |
| `StructLayout.CreateTemplate` | cubelib/struct_mod/struct_deal.c:217-373 | creation succeeds, assigns to every element of the whole tree the offset and size of the recursive layout, and leaves the template at rest |
| `StructLayout.ExtentExact` | cubelib/struct_mod/struct_deal.c:217-373 | values lie in place, strings and lists behind a pointer of eight bytes, a structure is stored as often as it says and at least once, an array behind a pointer |
| `StructLayout.OffsetMonotone` | cubelib/struct_mod/struct_deal.c:266-373 | the fields of a node lie one behind the other without overlap |
| `StructLayout.SpaceIsProduct` | cubelib/struct_mod/struct_deal.c:286-294 | the space of `n` repetitions, which the layout sums up, is the product that the program computes |
| `StructLayout.StructSizeExact` | cubelib/struct_mod/struct_deal.c:656-674 | when exactly `struct_size` is the end of the last field |
| `StructLayout.StructSizeExample` | cubelib/struct_mod/struct_deal.c:656-674 | a record of one array of one 4 byte structure: four bytes are reported, and it takes eight |
| `StructLayout.CollectOffsets` | cubelib/struct_mod/struct_init.c:148-187 | the offsets collected on the way up, followed from the base, lead to the address of the recursive layout, and there is one more of them than pointers on the way |
| `StructLayout.ElemGetAddr` | cubelib/struct_mod/struct_init.c:148-187 | the address computed for an element is that of its current instance in the recursive layout, and there is none exactly if a pointer on the way is not set |
| `StructLayout.LeavesApart` | cubelib/struct_mod/struct_deal.c:217-373 | two different leaf instances of a record never overlap in memory, also behind array pointers |
| `StructMemory.WriteReadOther` | cubelib/struct_mod/struct_init.c:703-809 | a leaf written at its address changes no other leaf |
| `StructMemory.SimElems` | cubelib/struct_mod/struct_deal.c:45-166 | a walk whose callbacks follow those of another walk step by step ends in a related state |
| `StructMemory.PackFromMemory` | cubelib/struct_mod/struct_deal.c:767-833 | packing from a memory that holds the record at the addresses of the layout is packing the record |
| `StructMemory.UnpackIntoMemory` | cubelib/struct_mod/struct_deal.c:867-939 | unpacking into any memory leaves it holding the unpacked record at the addresses of the layout |
| `StructMemory.MemoryRoundTrip` | cubelib/struct_mod/struct_deal.c:767-939 | a blob packed from one memory and unpacked into another leaves the second holding the record, and packs to the same blob |
| `StructMemory.CopyRecord` | cubelib/struct_mod/struct_deal.c:767-939 | the same by two walks on one shared template, which is at rest afterwards |
| `Text.Itoa` | cubelib/string/memfunc.c:172-194 | the text written in place is the decimal notation, ended by a zero character |
| `Text.PutDigits` | cubelib/string/memfunc.c:172-194 | the digits are produced least significant first |
| `Text.Flip` | cubelib/string/memfunc.c:172-194 | the buffer is reversed in place |
| `Json.Document.Print` | cubelib/json/json.c:645-818 | the printer, which moves through father pointers and child cursors, terminates and writes the text of the recursive definition; an error exactly if the root is not a container or some child has no type |
| `Json.Document.PrintChild` | cubelib/json/json.c:645-818 | printing the next child advances the cursors, and text written plus text outstanding is unchanged; an error for a child without a type |
| `Json.PrintLeaf` | cubelib/json/json.c:701-735 | strings are cut and quoted, numbers written by `Itoa` into a buffer, and booleans spelled out |
| `Json.LabelExact` | cubelib/json/json.c:694-699 | a name is printed up to its zero character and at most 32 characters of it, in quotes and with a colon, and only in an object |
| `Json.StringExact` | cubelib/json/json.c:701-735 | a string is printed up to its zero character and at most 512 characters of it, in quotes |
| `Json.ObjectText` | cubelib/json/json.c:645-818 | members of an object stand in braces, each behind its name, with commas between them |
| `Json.ArrayText` | cubelib/json/json.c:645-818 | members of an array stand in square brackets with commas between them |
| `Json.Document.FirstChild` | cubelib/json/json.c:39-46 | the cursor is set on the first child, or on the list head with no child given |
| `Json.Document.NextChild` | cubelib/json/json.c:48-55 | the cursor moves on by one child, to the list head behind the last, where it stays |
| `JsonParse.SpacedRead` | cubelib/json/json.c:386-643 | for any strings of spaces, tabs and line ends before and behind brackets, names, colons, commas and values (section 2 of RFC 8259), the exact result of parsing the text of any tree of plain names, strings and int numbers with anything behind it: an error if an array directly holds a negative number, otherwise the tree with its booleans set to 1, and the rest untouched |
| `JsonParse.PrintedRead` | cubelib/json/json.c:386-643 | the same for the text as it is printed, which has no blanks |
| `JsonParse.RoundTrip` | cubelib/json/json.c:386-818 | parsing undoes printing if and only if no array directly holds a negative number and all booleans are true |
| `JsonParse.NegativeExample` | cubelib/json/json.c:606-634 | the array of -1 is printed as `[-1]`, which is an error to the parser |
| `JsonParse.FalseExample` | cubelib/json/json.c:223-284 | an object that holds false comes back holding true |
| `JsonParse.KidsRead` | cubelib/json/json.c:386-643 | from any child on, the parser reads the text of the children of a container, with any blanks in it, into its stack of open nodes |
| `JsonParse.BlankSkipped` | cubelib/json/json.c:411-417 | one space, tab, line feed or carriage return before a token changes nothing |
| `JsonParse.StartRefused` | cubelib/json/json.c:420-441 | anything but a blank or a comma before the first bracket is an error |
| `JsonParse.LabelRead` | cubelib/json/json.c:460-497 | a name is read with any blanks on both sides of its colon, and the value begins behind them |
| `JsonParse.NameRefused` | cubelib/json/json.c:463-467 | a name of more than 29 characters, escapes included, ends the parse |
| `JsonParse.StrRead` | cubelib/json/json.c:308-330 | a text with a backslash before each quote and backslash is read back without them |
| `JsonParse.StringRead` | cubelib/json/json.c:518-530 | a string value is accepted up to 768 characters in an object and 512 in an array, escapes included |
| `JsonParse.WordsRead` | cubelib/json/json.c:223-284 | the six spellings of the booleans are read as one |
| `JsonParse.WordsOnly` | cubelib/json/json.c:223-284 | no other word is a value |
| `JsonParse.NumRefused` | cubelib/json/json.c:164-203 | a number that does not end at a comma, a closing bracket or a blank is an error |
| `JsonParse.LeafRead` | cubelib/json/json.c:164-330 | the printed text of a value is read to that value and to its last character |
| `JsonParse.NumberRead` | cubelib/json/json.c:164-203 | decimal text followed by an end character is read to its number |
| `JsonParse.GetStrValue` | cubelib/json/json.c:308-330 | the loop over a quoted string gives its content, escapes included, or the error of an unfinished one |
| `JsonParse.GetNumValue` | cubelib/json/json.c:164-203 | the loop over a number gives its value in 32 bits, or an error for a wrong character, a missing end or too many characters |
| `JsonNodes.Parser.Solve` | cubelib/json/json.c:386-643 | the parser over nodes linked in place gives the error or the number of characters of the definition, and its nodes show the tree: types, names, values, child lists in order and father pointers |
| `JsonNodes.Parser.SolveStep` | cubelib/json/json.c:411-640 | one iteration takes the nodes and the current node where the stack of open containers goes |
| `JsonNodes.Parser.SolveMember` | cubelib/json/json.c:445-557 | a member of an object: its node is linked first, then named, typed and counted |
| `JsonNodes.Parser.SolveValue` | cubelib/json/json.c:498-557 | a container becomes the current node, a leaf is stored and counted in its father |
| `JsonNodes.Parser.CloseNode` | cubelib/json/json.c:446-454 | the father becomes the current node and counts the container; at the root the parse ends with the nodes of the whole tree, every count right |
| `JsonNodes.Parser.NewNode` | cubelib/json/json.c:332-351 | the node is linked at the tail of its father's child list |
| `JsonNodes.AtClosed` | cubelib/json/json.c:446-454 | closing a container in the nodes is attaching its tree to the container below |
| `JsonNodes.UnfinishedShown` | cubelib/json/json.c:638-643 | at the end of a text that leaves containers open the nodes show them as children of their fathers |
| `JsonNodes.PrintAndSolve` | cubelib/json/json.c:386-818 | printer and parser run one after the other: the nodes show the tree, and the printed length is consumed |
| `Sha1.Transform` | cubelib/crypto/sha1.c:44-86 | the unrolled rounds with a circular schedule of 16 words and rotated names are the compression function of section 6.1.2 of FIPS 180-4 |
| `Sha1.NextWord` | cubelib/crypto/sha1.c:23-34 | the slot that is overwritten receives the next word of the 80 word schedule |
| `Sha1.Step` | cubelib/crypto/sha1.c:35-42 | a round macro that changes two variables is a round that shifts five |
| `Sha1.FiveSteps` | cubelib/crypto/sha1.c:44-86 | five macros with rotated names are five rounds, and every name is back in its place |
| `Sha1.FIsMix` | cubelib/crypto/sha1.c:35-37 | the shortened bit expressions are the functions Ch, Parity and Maj |
| `Sha1.Context.Update` | cubelib/crypto/sha1.c:100-122 | for every message so far and every piece: chaining value, buffered bytes and both count words are those of the longer message |
| `Sha1.Context.Pad` | cubelib/crypto/sha1.c:135-156 | the byte-wise padding through updates makes the message that of section 5.1.1 of FIPS 180-4, with the 64 bit count of its bits |
| `Sha1.Context.Final` | cubelib/crypto/sha1.c:135-156 | the digest is that of the message fed in |
| `Sha1.HashParts` | cubelib/crypto/sha1.c:89-156 | every split of a message into updates gives the digest of the padded message |
| `Sha1Example.DigestOfAbc` | cubelib/crypto/sha1.c:23-156 | the digest of "abc" is that of appendix A.1 of FIPS 180-2 |
| `Sm3.ExpandBlock` | cubelib/crypto/sm3_ext.c:72-160 | the expanded words are those of section 5.3.2 of GB/T 32905-2016 |
| `Sm3.MoveRegisters` | cubelib/crypto/sm3_ext.c:185-222 | the registers moved in place, one assignment after the other, are one round of the standard |
| `Sm3.Process` | cubelib/crypto/sm3_ext.c:72-235 | one block changes the state as the compression function of section 5.3.3 of GB/T 32905-2016 does |
| `Sm3.Context.Update` | cubelib/crypto/sm3_ext.c:240-279 | totals, state and buffer after any piece, the empty one included, are those of the longer message |
| `Sm3.Context.Pad` | cubelib/crypto/sm3_ext.c:281-309 | the message is padded as section 5.2 of GB/T 32905-2016 says |
| `Sm3.Context.Finish` | cubelib/crypto/sm3_ext.c:292-319 | the output is the digest of the message fed in |
| `Sm3.HashParts` | cubelib/crypto/sm3_ext.c:56-319 | every split of a message into updates gives the digest of the message |
| `Sm3Example.DigestOfAbc` | cubelib/crypto/sm3_ext.c:56-319 | the digest of "abc" is that of appendix A.1 of GB/T 32905-2016 |
| `Sm3.MakePad` | cubelib/crypto/sm3_ext.c:415-446 | key bytes combined with the constant in place are the padded key block combined with it |
| `Sm3.HmacInit` | cubelib/crypto/sm3_ext.c:415-446 | for keys below, at and above 64 bytes the context has absorbed the inner pad and keeps the outer pad |
| `Sm3.HmacFinish` | cubelib/crypto/sm3_ext.c:459-473 | the output is the outer hash over the outer pad and the inner digest |
| `Sm3.HmacParts` | cubelib/crypto/sm3_ext.c:415-484 | for every key and every split of a message the output is the nested form of section 2 of RFC 2104 |
| `Sm4.CryptInverse` | cubelib/crypto/sm4.c:151-277 | for every S-box, all round keys and every block, the cipher with the round keys in reverse order undoes the cipher |
| `Sm4.PutBytesLow` | cubelib/crypto/sm4.c:73-81 | the bytes that shifts and casts take from a 64 bit word are those of its low word, whatever stray bits it carries |
| `Sm4.GetUlongClean` | cubelib/crypto/sm4.c:63-71 | a word joined from bytes in 64 bits carries no stray bits |
| `Sm4.TauClean` | cubelib/crypto/sm4.c:151-202 | the S-box step on a 64 bit word sees its low word alone and gives a clean word |
| `Sm4.LowF` | cubelib/crypto/sm4.c:151-180 | whatever stray bits the 64 bit words carry, the low word of a round is that of the 32 bit definition |
| `Sm4.LowK` | cubelib/crypto/sm4.c:188-224 | the same for one word of the key schedule |
| `Sm4.SetKey` | cubelib/crypto/sm4.c:204-224 | the low words of the key array are the round keys of section 7.3 of GB/T 32907-2016 |
| `Sm4.CKBytes` | cubelib/crypto/sm4.c:120-130 | byte `j` of constant `i` is `(4 * i + j) * 7` modulo 256 (section 7.3.2 of GB/T 32907-2016) |
| `Sm4.KeyStart` | cubelib/crypto/sm4.c:117-217 | the first four words of the key schedule are those of the key xored with the system parameter |
| `Sm4.OneRound` | cubelib/crypto/sm4.c:230-254 | the output block is the cipher of section 7.1 of GB/T 32907-2016 applied to the input block, also in place, and no other byte changes |
| `Sm4Modes.Context.SetKeyEnc` | cubelib/crypto/sm4.c:259-263 | the context holds the round keys |
| `Sm4Modes.Context.SetKeyDec` | cubelib/crypto/sm4.c:268-277 | the exchanges in place leave the round keys in reverse order |
| `Sm4Modes.Context.CryptEcb` | cubelib/crypto/sm4.c:284-298 | every block that the count reaches is enciphered by itself, also in place |
| `Sm4Modes.Context.EncryptCbc` | cubelib/crypto/sm4.c:303-327 | the output is CBC encryption and `iv` is left as the last cipher block, also in place: cipher block `i` is the cipher of plain block `i` xored byte by byte with the cipher block before it, or the vector |
| `Sm4Modes.Context.DecryptCbc` | cubelib/crypto/sm4.c:328-345 | the output is CBC decryption and `iv` is left as the last cipher block, also in place: plain block `i` is the cipher of cipher block `i` xored byte by byte with the cipher block before it, or the vector |
| `Sm4Modes.CbcEncBlocks` | cubelib/crypto/sm4.c:303-327 | the blocks of the definition by recursion are chained as section 6.2 of NIST SP 800-38A says |
| `Sm4Modes.CbcDecBlocks` | cubelib/crypto/sm4.c:328-345 | the same for decryption |
| `Sm4Modes.VectorMatters` | cubelib/crypto/sm4.c:303-327 | two vectors give the same cipher text of a non-empty text if and only if they are equal |
| `Sm4Modes.EcbInverse` | cubelib/crypto/sm4.c:284-298 | ECB with reversed keys undoes ECB |
| `Sm4Modes.CbcInverse` | cubelib/crypto/sm4.c:303-345 | CBC decryption undoes CBC encryption for any number of blocks and every vector |
| `Sm4Modes.CbcEncSplit` | cubelib/crypto/sm4.c:303-327 | a message enciphered in two calls through the updated vector is the message enciphered in one |
| `Sm4Modes.CbcDecSplit` | cubelib/crypto/sm4.c:328-345 | the same for decryption |
| `Sm4Modes.CbcThereAndBack` | cubelib/crypto/sm4.c:303-345 | a buffer enciphered in place in any number of calls and deciphered in place in any other calls is as it was |
| `Sm4Modes.TailedInverse` | cubelib/crypto/crypto_func.c:110-169 | the block mode with a masked tail loses nothing, for every length |
| `Sm4Modes.TailedMasks` | cubelib/crypto/crypto_func.c:110-139 | whole blocks go through the cipher one by one, and every byte behind them is xored with the mask byte at its place |
| `Sm4Modes.ContextCrypt` | cubelib/crypto/crypto_func.c:111-139 | a size that is not positive is an error; otherwise the result is the block mode under the padded password, of the same length, and every byte behind the last whole block is the input byte xored with the byte of the fixed mask at its place |
| `Sm4Modes.ContextDecrypt` | cubelib/crypto/crypto_func.c:141-169 | the same with the reversed keys |
| `Sm4Modes.CryptThenDecrypt` | cubelib/crypto/crypto_func.c:110-169 | decryption gives back every non-empty text |
| `Route.RunShows` | cubelib/dispatch/route_tree.c:565-638 | over every run with fresh nonces, of any number of messages and duplicates, the lookups in the hash forest give each message the head that a private stack of saved heads would give it |
| `Route.AspectRestores` | cubelib/dispatch/route_tree.c:565-638 | a message that enters an aspect, goes through any well-nested steps and leaves it, has its outer nonce, sender, receiver, route, flow, state, jumps, policy and site again; only the flags CRYPT, SIGN, ZIP and VERIFY and the other content are those of the current message |
| `Route.FindAdded` | cubelib/dispatch/route_tree.c:1396-1424 | a node added at the tail is found if and only if no earlier node of the same kind has its nonce |
| `Route.ChainAspect` | cubelib/dispatch/route_tree.c:565-597 | a node under a fresh nonce does not disturb what other messages have saved |
| `Route.ChainTrace` | cubelib/dispatch/route_tree.c:1279-1296 | trace nodes in the same bucket, even with the same nonce, do not disturb it either |
| `Route.Router.CreateAspectNode` | cubelib/dispatch/route_tree.c:565-597 | the node saves the head as it was, and the message has the fresh nonce and a route that reads as its sender |
| `Route.Message.Recover` | cubelib/dispatch/route_tree.c:599-619 | the head is restored from the node |
| `Route.Router.AspectMessage` | cubelib/dispatch/route_tree.c:622-638 | only an aspect branch is accepted; then node, head and trace node are as specified, the route reads as the name of the branch path, and the aspect flag is set |
| `Route.Router.DupMessage` | cubelib/dispatch/route_tree.c:547-563 | no copy for a branch of another type; otherwise the copy has the nonce and the sender of the message, a route that reads as the name of the branch path, the aspect flag, and starts on that path |
| `Route.Router.SetStart` | cubelib/dispatch/route_tree.c:1298-1319 | the message is set at the start of the path, its route reads as the name of the path, and there is a trace node for a query path only |
| `Route.StrCopy` | cubelib/dispatch/route_tree.c:1309-1309 | the bytes up to and with the first zero byte of the source, or all 32, are copied, and those behind it stay |
| `Route.CopyReads` | cubelib/dispatch/route_tree.c:1309-1309 | read as strings, the copy and its source are the same |
| `Route.Router.FindTrace` | cubelib/dispatch/route_tree.c:1396-1468 | the walk over the bucket finds the first node of the wanted kind with the nonce |
| `Route.Router.LeaveAspect` | cubelib/dispatch/route_tree.c:1427-1514 | lookup and recovery together |
| `Route.Perform` | cubelib/dispatch/route_tree.c:565-638 | the program, run over message objects and the forest, is in the state of the run, so the results above hold of it |
| `Bitmap.Set` | cubelib/string/memfunc.c:412-418 | one bit is set and no other bit changes |
| `Bitmap.IsAllSet` | cubelib/string/memfunc.c:434-450 | true if and only if the first `size` bits are set and all others of the bytes are clear |
| `FileTransfer.Send` | proc/src/file_dealer/file_dealer.c:318-425 | the messages are the blocks of the file in order, at multiples of 512, with the shorter last one |
| `FileTransfer.Receiver.Receive` | proc/src/file_dealer/file_dealer.c:158-316 | store, file and notice after any message, with all branches for files that exist, differ or fit one message |
| `FileTransfer.Receiver.Save` | proc/src/file_dealer/file_dealer.c:147-155 | the bytes are written at the offset; a gap behind the end reads as zero |
| `FileTransfer.Entry.Mark` | proc/src/file_dealer/file_dealer.c:275-276 | the bitmap stands for the set of received blocks with this block added |
| `FileTransfer.RunHolds` | proc/src/file_dealer/file_dealer.c:236-289 | for any files and any order and repetition of their blocks, the marks of a file are the blocks that arrived, and every marked block on disk is that of the source |
| `FileTransfer.TransferCorrect` | proc/src/file_dealer/file_dealer.c:289-313 | a delivery is answered with success exactly when all blocks of its file have arrived, and then the file equals the source |
| `FileTransfer.ShortFile` | proc/src/file_dealer/file_dealer.c:179-231 | a file of one message is stored and confirmed at once |
| `FileTransfer.Transfer` | proc/src/file_dealer/file_dealer.c:158-425 | sender and receiver run over any deliveries leave every completely delivered file on disk |
| `Message.HeadBack` | cubelib/message/message.c:981-985 | the head read from its bytes is the head |
| `Message.HeadAt` | cubelib/message/message.c:981-985 | which bytes of the 180 hold tag, version, sender, receiver, route, flow, state, flag and left jump |
| `Message.HeadBehind` | cubelib/message/message.c:981-985 | which bytes hold the right jump, the record and expand fields and the nonce |
| `Message.IntExact` | cubelib/struct_mod/struct_init.c:603-701 | an int has its byte of lowest weight first |
| `Message.SplitConcat` | cubelib/message/message.c:1044-1056 | cutting the body by the sizes in it finds the expands that were joined |
| `Message.MessageBox.RecordStruct2Blob` | cubelib/message/message.c:394-442 | every record is packed unless it was given packed, the sizes add up, and the first failure is reported |
| `Message.MessageBox.ExpandStruct2Blob` | cubelib/message/message.c:444-512 | every expand is packed behind its head with the size of its body, or kept, and the first failure is reported |
| `Message.MessageBox.Output` | cubelib/message/message.c:514-602 | the bytes are those of the frame of the box, or the error of the part that has none |
| `Message.ReadHead` | cubelib/message/message.c:953-1009 | a box is made if and only if the head is complete and meets every condition |
| `Message.AcceptsExact` | cubelib/message/message.c:953-1009 | a head is accepted exactly for the tag `MESG`, version 0x10001, at most ten expands, and counts and body size that are not negative |
| `Message.CryptedBit` | cubelib/message/message.c:514-602 | a message is encrypted if bit 4 of its flag is set |
| `Message.MessageBox.ReadData` | cubelib/message/message.c:1011-1065 | pieces add up until the body is complete, and then the box is rebuilt from it |
| `Message.ReadFromBlob` | cubelib/message/message.c:1067-1083 | reading a frame with anything behind it recovers head, body and each expand and consumes the frame |
| `Message.EmptyBodyExample` | cubelib/message/message.c:1030-1031 | a well-formed frame without a body cannot be read alone |
| `Message.ReadInPieces` | cubelib/message/message.c:1011-1065 | for every split of the body into non-empty pieces the box is loading until the completing piece and is then that of a single read |
| `Message.OutWellFormed` | cubelib/message/message.c:514-602 | what a box with a proper head puts out is a well-formed frame |
| `Message.Exchange` | cubelib/message/message.c:514-1083 | reading what a box puts out gives its head, the bytes of its records and each expand |
| `Message.RelayFrame` | cubelib/message/message.c:560-602 | a box that has just read a frame puts out that frame |
| `Message.Relay` | cubelib/message/message.c:514-1083 | a relay passes on a frame byte for byte |
| `Message.MessageBox.LoadRecords` | cubelib/message/message.c:1146-1205 | the records are unpacked one behind the other from the body |
| `Message.ExpandBack` | cubelib/message/message.c:1216-1268 | a packed expand tells the size of its body, its type and its subtype, and its body unpacks to the record that was packed |
| `Message.RecordsBack` | cubelib/message/message.c:1195-1205 | records packed and joined are found again, each as it was |
| `Message.SendRecords` | cubelib/message/message.c:394-1205 | records and expands packed into a message, framed, read and unpacked are the records and the expands |
| `Lists.Insert` | cubelib/include/list.h:21-29 | linking a cell between two neighbours gives a well-formed ring with the cell at that place |
| `Lists.Add` | cubelib/include/list.h:52-55 | the cell comes first |
| `Lists.AddTail` | cubelib/include/list.h:65-68 | the cell comes last |
| `Lists.Del` | cubelib/include/list.h:69-79 | the ring is well formed without the cell, which is a ring of its own |
| `Lists.Cat` | cubelib/include/list.h:31-42 | a whole ring is spliced in at any place |
| `HashList.Perform` | cubelib/basefunc/basefunc.c:105-244 | every run of puts, lookups and removals over 256 or 1024 buckets answers as a plain list in the order of insertion |
| `HashList.HashList.constructor` | cubelib/basefunc/basefunc.c:61-88 | every bucket is an empty ring |
| `HashList.HashList.Add` | cubelib/basefunc/basefunc.c:105-131 | the record comes last in the plain list, all rings stay well formed, and other numbers of buckets are refused |
| `HashList.HashList.FindCell` | cubelib/basefunc/basefunc.c:170-196 | the walk over one ring finds the first record of the whole list with the key |
| `HashList.HashList.Remove` | cubelib/basefunc/basefunc.c:224-244 | exactly the first record with the key leaves the list, and all rings stay well formed |
| `HashList.CompUuid` | cubelib/basefunc/basefunc.c:133-147 | zero exactly for equal keys, otherwise the order of the first word in which they differ |
| `HashList.IndexExact` | cubelib/basefunc/basefunc.c:25-47 | the bucket is the first byte of the key among 256, and its first ten bits among 1024 |
| `HashList.HashList.GetFirst` | cubelib/basefunc/basefunc.c:246-263 | the cursor stands on the first record of the visit, or there is none |
| `HashList.HashList.GetNext` | cubelib/basefunc/basefunc.c:265-288 | the cursor moves to the next record of the visit, across empty buckets, or the visit ends |
| `HashList.HashList.VisitAll` | cubelib/basefunc/basefunc.c:246-288 | first and then next give the records bucket by bucket and then end, each record of the list as often as it is there |
| `HashList.FlatAll` | cubelib/basefunc/basefunc.c:246-288 | a visit meets every record exactly once |
| `PointerQueue.Queue.Put` | cubelib/basefunc/basefunc.c:413-433 | the value comes last, and is refused exactly when `size` values are held |
| `PointerQueue.Queue.Get` | cubelib/basefunc/basefunc.c:436-454 | the oldest value leaves, and there is an error exactly when none is held |
| `PointerQueue.Perform` | cubelib/basefunc/basefunc.c:392-454 | for every size from 1 on and every run the ring answers as a queue of exactly that capacity |
| `ByteRing.StoredAfterWrite` | cubelib/channel/channel_buf.c:134-209 | a write stores what it reports if and only if it is safe, and then takes as much as one less than the free bytes; an unsafe write empties the ring |
| `ByteRing.LossExample` | cubelib/channel/channel_buf.c:164-205 | eight bytes written to a new ring of eight bytes are reported as written and lost |
| `ByteRing.Channel.Read` | cubelib/channel/channel_buf.c:75-132 | the first stored bytes are delivered and no others leave; the return value counts them |
| `ByteRing.Channel.Write` | cubelib/channel/channel_buf.c:134-209 | a safe write appends the bytes it counts; the exact effect of an unsafe one |
| `ByteRing.Perform` | cubelib/channel/channel_buf.c:75-209 | over every run whose writes are safe, bytes accepted are bytes delivered followed by bytes stored, at most `bufsize - 1`; whether a run is safe follows from the sizes alone |
| `Radix64.RoundTrip` | cubelib/crypto/radix64.c:14-107 | decoding undoes encoding for every byte string |
| `Radix64.BinToRadix64` | cubelib/crypto/radix64.c:14-51 | the characters are those of section 4 of RFC 4648 without padding, as many as the length function says, and a zero behind them |
| `Radix64.InTable` | cubelib/crypto/radix64.c:12-12 | the table is the alphabet of the standard |
| `Radix64.ValueExact` | cubelib/crypto/radix64.c:53-70 | a character has the value at whose place it stands in the alphabet, `=` has 64, and no other character has one |
| `Radix64.RadixToBin` | cubelib/crypto/radix64.c:53-107 | an error exactly for a length that no encoding has or a character that is neither in the alphabet nor `=`; otherwise the bytes and their number |
| `Radix64.EncodedLength` | cubelib/crypto/radix64.c:109-112 | the length function gives the number of characters |
| `Radix64.LengthsInverse` | cubelib/crypto/radix64.c:109-120 | the second length function undoes the first |
| `Radix64.ThereAndBack` | cubelib/crypto/radix64.c:14-107 | encoder and decoder run one after the other over buffers give back the bytes |

## Left out

- Element types that do not come back as written: UUIDARRAY, TPM_UINT64 and TPM_UINT32, an ESTRING that is NULL, and lengths held in string elements.
- StructLayout.CreateTemplate: does not resolve length elements by name, because a template of the model holds the path of the length element.
- StructLayout.CollectOffsets: states how many offsets there are and not what the program does when its array of ten overflows.
- Cloning, comparing and freeing of records, and the conversion of records to JSON.
- StructCodec.Perform: a negative length of an array, on which the program enters the array once through a pointer that it has not set, is an error in the model; so are reading beyond a blob and a name longer than 32 bytes.
- StructMemory.MemoryRoundTrip: what a pointer leaf leads to is carried by the pointer, and the setting of array pointers is not modelled.
- Walks that end in an error: the program leaves the counters of open elements set, and nothing is claimed about the template afterwards.
- `json_2_struct` and the conversion of elements to and from text: many special cases.
- JSON: what the parser overwrites when a value is longer than its buffer of 512 bytes, and the `isvalue` flag.
- Text.Itoa: does not cover the smallest int, whose negation overflows; nor does Json.Document.Print.
- Sm4.OneRound: does not fix the S-box table, because the results hold for every table.
- `sm4_text_crypt`, `sm4_text_decrypt`, `sm4_data_recover`, the second SM3 in `sm3.c` and the SHA-1 helper for big endian words.
- The strength of the ciphers and digests, and the handling of keys.
- Route.Perform: the evaluation of match rules, policy loading and the movement along a path are not modelled; a step of the model may change a message in any way but for its nonce.
- FileTransfer.TransferCorrect: does not cover a receiver that already has the file, which ignores its blocks, and two files under one name.
- FileTransfer.Receiver.Receive: demands that the block lies within its file, because the program sets a bit beyond the bitmap otherwise.
- Message.MessageBox.Output: demands that the message fits the 4096 byte buffer, because the program does not look; a second output of one box is not modelled, because the program keeps a buffer that it has freed.
- Message.MessageBox.ReadData: demands that the sizes of the expands stay within the body, because the program does not look.
- Message.MessageBox.LoadRecords: does not model the addition behind the loop, which reads a size beyond the last record.
- ByteRing.Channel.Write: data sizes below zero are not modelled.
- `channel_membuf_create`, `pointer_stack`, list queues and the lookup of records by name.
- Sockets, connectors, threads, module loading, configuration files, the allocator and the TPM driver: input and output, and calls into code that is not part of this model.
