# Verified model of the safeloader image tool, its MD5, and three small companions

The repository builds and unpacks firmware images for TP-LINK devices (`tools/tplink-safeloader`), patches kernel command
lines (`tools/patch-cmdline`), resolves names with a minimal DNS client (`packages/lifeline`), and copies streams with a
deadline (`packages/hatch`). This project models that code in Dafny, imperative code as methods over arrays, files and
classes, and proves what the pieces promise together. `dafny verify dfyconfig.toml` checks everything.

## The main results

**Images (`Factory`, `Sysupgrade`, `TableReader`, `Convert`, `Firmware`, `Routes`, `Formats`, `Outcomes`, `ArcherC7`, on
`PartitionTable`, `Text`, `Files`, `Bytes`).** Images are arrays filled in place, files are objects with contents and a
position, tables are arrays of slots.

- *Print and parse.* The table printed by the packer and the one printed into the partition-table partition are both read
  back as they were exactly when they have an entry and every name has at most 31 bytes and no space or newline
  (`PartitionTable.TableRoundTrip`). The zero at byte 2047 keeps a whole parse inside its buffer
  (`PartitionTable.TableStaysInside`).
- *Where the table leads.* The entries of a table lead to their parts, whatever these contain, exactly when every part with
  data starts below 4 GiB (`Firmware.BasesAreExact`); they tile the data area exactly when every part does
  (`Firmware.EntriesTile`).
- *Pack and extract.* Parts that can be packed come back as the files of their names, with their bytes, in order, whatever
  these are, exactly when there are 1 to 16 parts, every name is a proper file name a table can carry, and every part with
  data starts below 4 GiB (`Firmware.ExtractionIsExact`). For a single image it is exactly when the names and the number are
  such and the entries lead to the parts (`Firmware.PackThenExtract`).
- *Two routes.* Converting a factory image gives the sysupgrade image of the same parts followed by 0xff up to the end of
  the flash file system exactly when no padding exceeds the 2^31 bytes write_ff can write, and the kernel's flash partition
  ends where the file system's starts, or else the flash between them is all zeros and the file system's partition is not
  empty (`Routes.RoutesAgree`). Any partitions may be listed between the two. For the devices whose sysupgrade image goes on
  behind the file system, the converted file is its front, under the corresponding condition (`Routes.ConversionIsFront`).
  `ArcherC7.ArcherC7Works` takes one device of the tool's list, with its whole layout and all eight parts, through both
  routes and through extraction, for every contents that fit.
- *Sysupgrade images are flash slices* (`Sysupgrade.SysupgradeIsFlashOverlay`), and *factory images describe themselves*,
  with the exact sizes up to which length field and checksum do (`Firmware.FactoryIsConsistent`).
- *Every outcome.* For every input of packing and of generating it is stated when they succeed, and which failure comes
  first otherwise (`Outcomes.PackingOutcome`, `Outcomes.FactoryOutcome`, `Sysupgrade.SysupgradeOutcome`); for a sorted
  layout there is a sysupgrade image if and only if every part fits its partition (`Sysupgrade.SizeCheckIsExact`). What a
  packed image with too many parts, or without one that is looked up, ends in is in `Outcomes` as well.
- *The formats in literal bytes*: lines, numbers, headers, salt and the partition-table part (`Formats`).

**MD5 (`Md5Rfc`, `Unsigned`, `Md5Words`, `Md5Body`, `Md5Stream`, `Md5Context`, `Md5Padding`, `Md5Inverse`, `Md5Digits`,
`Md5Trace`, `Md5Suite`).** `Md5Rfc` is the definition of RFC 1321, sections 3.1 to 3.5, written as functions; everything
else is compared with it. "Any 32-bit or wider unsigned integer data type will do": all words of the program are unsigned
integers of 32 + k bits, for every k (`Unsigned`), with arithmetic modulo 2^(32+k).

- *The 64 unrolled steps are the 64 operations of section 3.4* on the lower halves of words of any width, rewritten round
  functions, mask, word orders, rotation amounts, constants and register rotation included (`Md5Body.Round1` to `Round4`,
  `MD5Context.OneBlock`).
- *Streaming is one-shot hashing.* The context always stands for the message seen so far (`Absorbed`); any sequence of
  updates followed by `Final` yields the digest of the concatenation, for words and sizes of every width
  (`Md5Context.HashPieces`), with no bound on lengths: the counters are proved to hold the length modulo 2^61.
- *The test suite of section A.5*: on the empty string, "abc" and the 80 digits the definition gives the digests the RFC
  lists, byte by byte, and so does the program, cut into pieces and at every width (`Md5Suite.Suite`).
- *Padding is injective on all messages*, and *for a fixed block the 64 steps are a bijection* with an explicit inverse.

**DNS (`DnsName`, `DnsAnswers`).** The question written for a name decodes to the name's labels exactly when each has 1 to 63
bytes; the skip loop of the receiver stands at the question's end exactly when no label length is a multiple of 256, and
behind the owner of a record exactly when that has no letters in the way; a response with such owners, pointers and the root
among them, yields exactly its IN A records, in order.

**Copying (`CopyWithDeadline`).** The loops of a poll are the calls of a flat definition, one after the other, and the call
that ends a poll decides its outcome. In every reachable state, what was read is what was written followed by what is
buffered; completion by the end of the stream has written everything, completion by the timer all but at most 2048 bytes
read. If the deadline is never due and all calls are ready, two calls for every byte and two more complete the copy.

**Command line (`PatchCmdline`).** A patch changes 504 bytes behind the first marker and nothing else, and the last patch
wins.

## Where the code does not meet its promise

Each of these is part of the model, with the exact condition or outcome proved, and a failing input in `Shortfalls`.

- A name that contains a space, a newline or more than 31 bytes is packed without complaint and does not come back
  (`tools/tplink-safeloader/tplink-safeloader.c:1328`, `:1644-1666`; `PartitionTable.TableRoundTrip`;
  `Shortfalls.BadNamesAreNotExtracted`).
- Names that are not names of files are packed and cannot be extracted under their names
  (`tools/tplink-safeloader/tplink-safeloader.c:1727-1731`; `Firmware.PackThenExtract`; `Shortfalls.BadNamesAreNotExtracted`).
- Up to 16 parts can be extracted while more can be packed (`tools/tplink-safeloader/tplink-safeloader.c:1743`;
  `Shortfalls.SeventeenAreNotExtracted`); an image of none can be packed and not extracted
  (`tools/tplink-safeloader/tplink-safeloader.c:1620-1624`; `Shortfalls.NothingIsNotExtracted`).
- The base of a part is printed as an `unsigned`, so a part with data that starts at 4 GiB or behind is listed at the wrong
  place: the entries are right whatever the parts contain, and the parts can be extracted whatever they contain, only if
  there is none (`tools/tplink-safeloader/tplink-safeloader.c:1329`; `Firmware.BasesAreExact`, `Firmware.ExtractionIsExact`;
  `Shortfalls.PartBehind4GiB`).
- The length field of a factory image is its length only below 4 GiB (`tools/tplink-safeloader/tplink-safeloader.c:1378`;
  `Firmware.FactoryIsConsistent`; `Shortfalls.LengthFieldOverflows`).
- The checksum takes its length as an `unsigned`: from 2^32 + 20 bytes of image on it covers only a front part
  (`tools/tplink-safeloader/tplink-safeloader.c:1341`, `:1387`; `Firmware.FactoryIsConsistent`; `Shortfalls.ChecksumStops`).
- A vendor text of more than 4092 bytes reaches into the block of the table. The block is the documented one exactly if
  behind the printed table, which overwrites it, the text has nothing but 0xff there
  (`tools/tplink-safeloader/tplink-safeloader.c:1380-1384`; `Factory.DocumentedTableBlock`, `Firmware.TableBlockIsDocumented`;
  `Shortfalls.LongVendorText`).
- Conversion and sysupgrade differ when there is a gap between the two flash partitions: the sysupgrade image has the flash
  contents there, usually 0xff, the converted file the zeros that seeking past the end leaves
  (`tools/tplink-safeloader/tplink-safeloader.c:1436`, `:1865`; `Routes.RoutesAgree`; `Shortfalls.GapsDiffer`).
- `write_ff` counts in an `int`: it writes at most 2^31 bytes, and with more to pad conversion and sysupgrade differ
  (`tools/tplink-safeloader/tplink-safeloader.c:1798-1808`; `Convert.WriteFf`, `Routes.RoutesAgree`;
  `Shortfalls.PaddingStops`).
- `find_partition` compares with the name of empty entries, which is a null pointer: a missing partition ends in the intended
  message only if the array of entries is full (`tools/tplink-safeloader/tplink-safeloader.c:1787`;
  `TableReader.FindInFilled`; `Shortfalls.MissingPartitionIsNullName`).
- A board whose first and last sysupgrade partition have the same name never finds its last one
  (`tools/tplink-safeloader/tplink-safeloader.c:1409-1415`; `Sysupgrade.Range`; `Shortfalls.OneUpgradedPartition`).
- `dns_request` accepts names with empty labels and labels over 63 bytes, which do not decode
  (`packages/lifeline/dns.c:99-112`; `DnsName.NameRoundTrip`; `Shortfalls.EmptyLabel`).
- The skip loop takes a letter in the name of an owner for a pointer (`packages/lifeline/dns.c:177`;
  `DnsAnswers.OwnerSkipped`; `Shortfalls.LettersAreNotSkipped`).
- The test for sixteen records in `dns_receive` comes after the write to an array of eight; a ninth record is the failure
  `Outside` here (`packages/lifeline/dns.c:52`, `:189-194`; `DnsAnswers.AnswersRead`; `Shortfalls.NineRecords`).
- Without a timer the copy future completes on its first poll with nothing copied
  (`packages/hatch/src/services/lifeline1/copy.rs:47`, `:67-73`; `CopyWithDeadline.Run`; `Shortfalls.CopyWithoutTimer`).

## How to read the model

- `Results.Failure` lists how an operation of the image tool ends early: an error message with exit, a failed assertion, or
  an access that leaves the buffer. Null pointers and out-of-range copies are failures, not preconditions.
- `junk`, `table` and `chunks` are what uninitialised stack buffers hold, parameters of the operations that read into one.
  Theorems hold for all values of them.
- `open` says what opening a path below the output directory leads to. `Convert.Writable` is what is asked of a directory in
  which files can be written; `Shortfalls.PlainDirectoryIsWritable` gives one.
- `Firmware.PackedInto` asks an image for its table and data only: extracting and converting do not look at the rest.
  `Firmware.FactoryImageIsPacked` shows that factory images are packed in this sense.
- `Firmware.EntriesLead` says that every entry of an image leads to the bytes of its part; it holds if every part with data
  starts below 4 GiB (`Firmware.FittingEntriesLead`).
- The image tool's 32-bit fields and its conversions between `unsigned`, `size_t` and `int` are written with `% 2^32` or
  `AsSize` and `AsInt`. Words of MD5 are numbers with the operators of `Unsigned`, reference words are bit-vectors.
- Part lists and layouts end at the first empty name in C; here they are sequences.
- Where a part starts is its offset in the table's terms, counted from the end of the vendor information block.
- Ghost parameters (`msg`, `seen`, `r0`, `before`) name the message or the contents a contract talks about.
- A `hide` statement drops a definition that a proof does not need.

## Model

| member | source | states |
|---|---|---|
| Unsigned.SizeIsPower | tools/tplink-safeloader/md5.c:26 | An unsigned integer of 32 + k bits has 2^(32+k) values. |
| Unsigned.LowOfSum | tools/tplink-safeloader/md5.c:61-63 | Addition modulo 2^(32+k), seen from the lower 32 bits, is addition of 32-bit words, for every k. |
| Unsigned.LowOfShiftLeft | tools/tplink-safeloader/md5.c:62 | So is the left shift. |
| Unsigned.LowOfShiftRight | tools/tplink-safeloader/md5.c:62 | So is the right shift of a number that has no more than 32 bits. |
| Unsigned.LowOfMasked | tools/tplink-safeloader/md5.c:62 | The mask 0xffffffff leaves the lower 32 bits as they are. |
| Unsigned.LowOfAnd | tools/tplink-safeloader/md5.c:51-52 | So does the bitwise conjunction, defined bit by bit on numbers, follow the one of 32-bit words. |
| Unsigned.LowOfOr | tools/tplink-safeloader/md5.c:55 | The disjunction as well. |
| Unsigned.LowOfXor | tools/tplink-safeloader/md5.c:51-55 | The exclusive disjunction as well. |
| Unsigned.LowOfNot | tools/tplink-safeloader/md5.c:55 | The complement within 32 + k bits as well. |
| Unsigned.BitsFit | tools/tplink-safeloader/md5.c:51-55 | No bitwise operator leaves the width of its operands. |
| Unsigned.ByteAt | tools/tplink-safeloader/md5.c:276-291 | The byte emitted from bit 8, 16 or 24 of a word of any width is the one of its lower half. |
| Unsigned.WrapKeepsLow | tools/tplink-safeloader/md5.c:217-219 | A sum keeps the same low bits whatever the width it wraps in, if that has as many. |
| Md5Words.FIsRfc | tools/tplink-safeloader/md5.c:51 | For words of any width the lower half of the AND-NOT-free F is the F of RFC 1321 of the lower halves. |
| Md5Words.GIsRfc | tools/tplink-safeloader/md5.c:52 | The same for G. |
| Md5Words.HIsRfc | tools/tplink-safeloader/md5.c:53-54 | H and H2 are interchangeable on the lower half and are the H of RFC 1321. |
| Md5Words.IIsRfc | tools/tplink-safeloader/md5.c:55 | The same for I, whose complement depends on the width. |
| Md5Words.RotateIsRfc | tools/tplink-safeloader/md5.c:62 | For words of any width and every amount from 1 to 31 the masked shift pair is, on the lower half, the circular shift of RFC 1321. |
| Md5Words.AccumulateIsRfc | tools/tplink-safeloader/md5.c:61 | The bracketing of the additions in STEP makes no difference to the lower half, at any width. |
| Md5Words.Step | tools/tplink-safeloader/md5.c:60-63 | For words of any width STEP computes b + ((a + f + x + t) <<< s) of section 3.4 in the lower half. |
| Md5Words.StepF | tools/tplink-safeloader/md5.c:60-63 | For words of any width STEP with F is operation i of round 1 on the lower halves if its word, constant and amount are the ones RFC 1321 lists for i. |
| Md5Words.StepG | tools/tplink-safeloader/md5.c:60-63 | The same for round 2. |
| Md5Words.StepH | tools/tplink-safeloader/md5.c:60-63 | The same for round 3 with H. |
| Md5Words.StepH2 | tools/tplink-safeloader/md5.c:60-63 | The same for round 3 with H2. |
| Md5Words.StepI | tools/tplink-safeloader/md5.c:60-63 | The same for round 4. |
| Md5Words.SetIsRfc | tools/tplink-safeloader/md5.c:79-84 | The four bytes shifted and or-ed together are, at any width, the little-endian word of section 2. |
| Md5Body.Set | tools/tplink-safeloader/md5.c:79-84 | After SET(n) the first n + 1 stored words are those of the current block, and the n-th is the result, at any width. |
| Md5Body.Quad | tools/tplink-safeloader/md5.c:113-116 | Four steps with rotated argument lists are four operations of the looped definition, each register back under its own name. |
| Md5Body.Round1 | tools/tplink-safeloader/md5.c:112-128 | The sixteen unrolled steps of round 1, on words of any width, are operations 0 to 15 on the current block in the lower halves, and leave its sixteen words behind for GET. |
| Md5Body.Round2 | tools/tplink-safeloader/md5.c:130-146 | Round 2 takes the state after 16 operations to the state after 32. |
| Md5Body.Round3 | tools/tplink-safeloader/md5.c:148-164 | Round 3 takes the state after 32 operations to the state after 48. |
| Md5Body.Round4 | tools/tplink-safeloader/md5.c:166-182 | Round 4 takes the state after 48 operations to the state after 64. |
| Md5Context.MD5Context.OneBlock | tools/tplink-safeloader/md5.c:107-187 | One turn of the loop is, in the lower halves of words of any width, the block compression of section 3.4, feed-forward included. |
| Md5Context.MD5Context.Body | tools/tplink-safeloader/md5.c:93-198 | On k blocks the lower halves of the registers become the k-fold compression of their old values, and no register leaves its width. |
| Md5Context.MD5Context.Init | tools/tplink-safeloader/md5.c:200-209 | An initialised context stands for the empty message. |
| Md5Context.MD5Context.Count | tools/tplink-safeloader/md5.c:216-219 | The counters hold the length, the high one modulo 2^32 in its lower half, before and after any number of bytes is added; sums with the size wrap in the wider of the two types. |
| Md5Context.MD5Context.Update | tools/tplink-safeloader/md5.c:211-243 | A context of words of any width that stands for msg stands for msg + data afterwards, for data of any length: registers, counters and carried bytes. |
| Md5Context.MD5Context.CompleteBlock | tools/tplink-safeloader/md5.c:223-235 | Topping up the carry buffer hashes everything seen so far. |
| Md5Context.MD5Context.AbsorbBlocks | tools/tplink-safeloader/md5.c:237-242 | Whole blocks are hashed in place, and exactly the unhashed tail is kept. |
| Md5Context.MD5Context.StartPadding | tools/tplink-safeloader/md5.c:249-262 | The byte 0x80 stands behind the tail; if the length does not fit in the block it is filled with zeros and hashed. |
| Md5Context.MD5Context.FinishPadding | tools/tplink-safeloader/md5.c:264-274 | Behind what is in the buffer zeros and the length complete the padding, so that the registers are those of the whole padded message. |
| Md5Context.MD5Context.Final | tools/tplink-safeloader/md5.c:245-294 | A context that stands for msg emits the RFC 1321 digest of msg, into those sixteen bytes only, and is wiped: counters, registers, buffer and stored words. |
| Md5Context.MD5Context.StoreLength | tools/tplink-safeloader/md5.c:264-272 | The last eight bytes of the block become the bit length modulo 2^64, low-order byte first. |
| Md5Context.MD5Context.Emit | tools/tplink-safeloader/md5.c:276-291 | The registers are emitted as section 3.5 has them. |
| Md5Context.HashPieces | tools/tplink-safeloader/md5.c:200-294 | For every width of words of at least 32 bits, every width of sizes, every message and every way of cutting it into updates, the result is the RFC 1321 digest of the whole. |
| Md5Stream.CompressAllSplit | tools/tplink-safeloader/md5.c:106-190 | Hashing two runs of blocks one after the other is hashing their concatenation. |
| Md5Stream.AbsorbFirstBlock | tools/tplink-safeloader/md5.c:223-235 | Hashing the full blocks and then tail plus data is hashing the whole, when these complete a block. |
| Md5Stream.AbsorbWithinBlock | tools/tplink-safeloader/md5.c:226-229 | Data that does not complete a block only extends the tail. |
| Md5Stream.AbsorbRest | tools/tplink-safeloader/md5.c:242 | Behind whole blocks, less than a block of data is the tail. |
| Md5Stream.PaddedOneBlock | tools/tplink-safeloader/md5.c:249-272 | If 0x80 and the length fit behind the tail, the one block fed to the transformation completes the padding of section 3.1 and 3.2. |
| Md5Stream.PaddedTwoBlocks | tools/tplink-safeloader/md5.c:253-272 | Otherwise the two blocks do. |
| Md5Stream.PaddingCloses | tools/tplink-safeloader/md5.c:249-272 | Zeros and the length behind what is in the buffer complete the padding in both cases. |
| Md5Stream.CountersHoldLength | tools/tplink-safeloader/md5.c:216-219 | hi * 2^29 + lo is the length modulo 2^61. |
| Md5Stream.CountersAdvance | tools/tplink-safeloader/md5.c:216-219 | The update of the counters, carry by comparison included, adds any number of bytes; the sum may wrap at any width of 32 bits or more before it is masked. |
| Md5Stream.LengthFieldSplits | tools/tplink-safeloader/md5.c:264-272 | lo shifted by three and hi are the two halves of the 64-bit length field. |
| Md5Padding.ZeroCountIsLeast | tools/tplink-safeloader/md5.c:249-262 | No smaller number of zero bytes reaches 56 modulo 64. |
| Md5Padding.LengthFieldRoundTrip | tools/tplink-safeloader/md5.c:264-272 | The eight length bytes decode to the bit length modulo 2^64. |
| Md5Padding.PaddingIsInjective | tools/tplink-safeloader/md5.c:245-274 | Messages with equal padded forms are equal, for messages of all lengths. |
| Md5Padding.ScheduleIndices | tools/tplink-safeloader/md5.c:112-182 | The listed word orders are i, 1 + 5i, 5 + 3i and 7i modulo 16. |
| Md5Padding.ScheduleAmounts | tools/tplink-safeloader/md5.c:112-182 | Each round rotates by four amounts in turn. |
| Md5Inverse.FullTurn | tools/tplink-safeloader/md5.c:62 | Two circular shifts that add up to 32 bits are the identity, for every amount. |
| Md5Inverse.TurnBack | tools/tplink-safeloader/md5.c:62 | Right rotation undoes left rotation and the other way round, for every amount. |
| Md5Inverse.OldWordInverts | tools/tplink-safeloader/md5.c:60-63 | A step is undone by subtracting and rotating right, in both orders. |
| Md5Inverse.UndoOpInverts | tools/tplink-safeloader/md5.c:60-63 | The inverse of an operation on the four registers, in both orders. |
| Md5Inverse.OpsAreBijective | tools/tplink-safeloader/md5.c:112-182 | For a fixed block any number of operations followed by their inverses, or preceded by them, is the identity. |
| Md5Digits.Hex8 | tools/tplink-safeloader/md5.c:113-182 | A constant of eight hexadecimal digits is, as a word, these digits in four bits each. |
| Md5Trace.QuadIs | tools/tplink-safeloader/md5.c:113-116 | Four operations of the definition are four operations on literal words, amounts and constants. |
| Md5Suite.EmptyDigest | tools/tplink-safeloader/md5.c:200-294 | The digest of the empty string, in literal bytes, as in section A.5 of RFC 1321. |
| Md5Suite.AbcDigest | tools/tplink-safeloader/md5.c:200-294 | The digest of "abc". |
| Md5Suite.EightyDigest | tools/tplink-safeloader/md5.c:200-294 | The digest of the 80 digits, which takes two blocks. |
| Md5Suite.Suite | tools/tplink-safeloader/md5.c:200-294 | The program returns these digests, the last one from eight pieces, at every width of words and sizes. |
| Text.ReadHexOfHex | tools/tplink-safeloader/tplink-safeloader.c:1674 | Reading the digits of a printed number accumulates exactly that number. |
| Text.HexLength | tools/tplink-safeloader/tplink-safeloader.c:1105 | A 32-bit number is printed with at most eight digits. |
| Text.StrtoulOfHex05 | tools/tplink-safeloader/tplink-safeloader.c:1674-1682 | Base-16 reading gives back every number printed with 0x%05x unless a further digit follows it. |
| Text.StrtoulStaysInside | tools/tplink-safeloader/tplink-safeloader.c:1618-1682 | With a zero byte at the end, a number read does not depend on what lies behind the buffer. |
| PartitionTable.LineReadBack | tools/tplink-safeloader/tplink-safeloader.c:1644-1688 | A printed line is parsed to its entry, the name cut to 31 bytes, and ends at its own newline. |
| PartitionTable.InsertAppends | tools/tplink-safeloader/tplink-safeloader.c:1566-1583 | Insertion into the first free slot appends to what was inserted before, and fails exactly when all slots are taken. |
| PartitionTable.TextReadBack | tools/tplink-safeloader/tplink-safeloader.c:1626-1689 | The lines printed at any position are all added, in order, up to the zero byte behind them. |
| PartitionTable.ReadPrinted | tools/tplink-safeloader/tplink-safeloader.c:1588-1692 | Reading a printed table gives its entries, or fails when there are more than the array can take. |
| PartitionTable.ParsedNamesArePlain | tools/tplink-safeloader/tplink-safeloader.c:1659-1666 | Whatever the buffer holds, stored names have at most 31 bytes and no space, newline or zero byte. |
| PartitionTable.LineStaysInside | tools/tplink-safeloader/tplink-safeloader.c:1644-1688 | Nor does a whole line, its two numbers included. |
| PartitionTable.TableStaysInside | tools/tplink-safeloader/tplink-safeloader.c:1618-1691 | A whole parse with arbitrary memory behind its 2048 bytes gives what the parse of the buffer alone gives, because byte 2047 is zero. |
| PartitionTable.TableRoundTrip | tools/tplink-safeloader/tplink-safeloader.c:1094-1120 | Printed tables of both kinds come back as they were if and only if they have an entry and every name has at most 31 bytes and no space or newline. |
| TableReader.AddFlashPartition | tools/tplink-safeloader/tplink-safeloader.c:1559-1585 | The first slot without name and numbers is filled in place with 32 bits of the numbers; without one nothing changes. |
| TableReader.NextSpace | tools/tplink-safeloader/tplink-safeloader.c:1648 | The scan behind the i-th space of a line finds the next one, or the line's end. |
| TableReader.ReadLine | tools/tplink-safeloader/tplink-safeloader.c:1644-1688 | The loop over the elements reads the name between the first two spaces and the numbers behind the third and fifth, and moves past the newline. |
| TableReader.ReadLines | tools/tplink-safeloader/tplink-safeloader.c:1620-1691 | On every 2048-byte buffer the loop ends, stays inside, and fills the slots as the line-by-line definition does or fails as it does. |
| TableReader.ReadPartitionTable | tools/tplink-safeloader/tplink-safeloader.c:1588-1692 | The same for any file and offset, the file's contents untouched. |
| TableReader.FindPartition | tools/tplink-safeloader/tplink-safeloader.c:1782-1793 | The search stops at the first entry of that name or at the first empty slot. |
| TableReader.FindInFilled | tools/tplink-safeloader/tplink-safeloader.c:1782-1793 | After reading a table, exactly its names are found, first occurrence first; a missing one is reported only if the array is full. |
| Files.StoreStore | tools/tplink-safeloader/tplink-safeloader.c:1705-1719 | Two writes in a row are one write of the concatenation, wherever the position is. |
| Bytes.BigEndianRoundTrip | tools/tplink-safeloader/tplink-safeloader.c:1058-1063 | The four bytes decode to the number modulo 2^32. |
| Factory.Put32 | tools/tplink-safeloader/tplink-safeloader.c:1058-1063 | Four bytes are overwritten with the big-endian form of the number's low 32 bits, and no others. |
| Factory.MakePartitionTable | tools/tplink-safeloader/tplink-safeloader.c:1094-1120 | The partition is header, printed layout, a zero and 0xff, all 2048 bytes, the zero excepted for an empty layout, where it is what malloc delivered; it fails exactly when text and zero do not fit. |
| Factory.PutPart | tools/tplink-safeloader/tplink-safeloader.c:1324-1336 | A part whose line fits adds its bytes to the data and its line to the table, and disturbs neither what is there already nor anything else. |
| Factory.PutPartitions | tools/tplink-safeloader/tplink-safeloader.c:1310-1338 | The buffer changes in the table text with its zero and in the concatenated data only, or the first offending part decides the failure. |
| Factory.CheckSize | tools/tplink-safeloader/tplink-safeloader.c:1317-1325 | The first flash entry of the part's name decides; there has to be one. |
| Factory.CheckBoundsTable | tools/tplink-safeloader/tplink-safeloader.c:1328-1334 | An accepted list of parts has a table that fits with its zero. |
| Factory.PutMd5 | tools/tplink-safeloader/tplink-safeloader.c:1341-1348 | Sixteen bytes become the RFC 1321 digest of salt and buffer; no other byte changes. |
| Factory.WriteHead | tools/tplink-safeloader/tplink-safeloader.c:1377-1384 | Length and vendor information are in place before packing, whatever the length of the text, unless it ends behind the image; everything else up to the data is 0xff. |
| Factory.DocumentedVendorBlock | tools/tplink-safeloader/tplink-safeloader.c:1351-1365 | For vendor texts of at most 4092 bytes the vendor block is the documented one, padded with 0xff. |
| Factory.DocumentedTableBlock | tools/tplink-safeloader/tplink-safeloader.c:1351-1386 | The table block is the documented one if and only if the vendor text, where it reaches behind the printed table in that block, is all 0xff. |
| Factory.HeadWritten | tools/tplink-safeloader/tplink-safeloader.c:1351-1365 | The buffer after packing is length, room for the digest, vendor block, table block and data, whatever overflow of the vendor text lay there. |
| Factory.GenerateFactoryImage | tools/tplink-safeloader/tplink-safeloader.c:1366-1390 | For vendor texts of any length: the image is length, digest of salt and payload, and payload; or the text ends behind the image, or packing failed. |
| Firmware.FactoryImageIsPacked | tools/tplink-safeloader/tplink-safeloader.c:1366-1390 | A factory image of an accepted list has table and data in their places, and the big-endian length, the digest of salt and payload, and the vendor and table block it is to have. |
| Firmware.TableBlockIsDocumented | tools/tplink-safeloader/tplink-safeloader.c:1377-1386 | In the image of an accepted list the table block is the documented one exactly under that condition. |
| Firmware.FactoryIsConsistent | tools/tplink-safeloader/tplink-safeloader.c:1351-1390 | For images of any size: bytes 0-3 decode to the length if and only if it is below 4 GiB, bytes 4-19 are the digest of salt and the hashed part of the finished image from 0x14 on, which is all of it if and only if the image is below 4 GiB + 0x14, and the data are the parts back to back. |
| Firmware.EntriesTile | tools/tplink-safeloader/tplink-safeloader.c:1314-1337 | For every list whose parts are each shorter than 4 GiB, as accepted ones are: every entry has the size of its part, and the entries tile the data area without gap or overlap if and only if every part starts below 4 GiB. |
| Firmware.SizesFit | tools/tplink-safeloader/tplink-safeloader.c:1318-1319 | No accepted part is longer than a 32-bit size can say. |
| Firmware.FittingEntriesLead | tools/tplink-safeloader/tplink-safeloader.c:1327-1336 | If every part with data starts below 4 GiB, every entry leads to the bytes of its part. |
| Firmware.FrontStays | tools/tplink-safeloader/tplink-safeloader.c:1327-1336 | Another byte at the start of a part makes no difference to the image in front of it, table included. |
| Firmware.BasesAreExact | tools/tplink-safeloader/tplink-safeloader.c:1327-1336 | For every accepted list: the entries of every list of the same names and lengths lead to the bytes of its parts if and only if every part with data starts below 4 GiB. |
| Firmware.WindowOfImage | tools/tplink-safeloader/tplink-safeloader.c:1612-1618 | The window read from a packed image holds the printed table, whatever the stack held. |
| Firmware.NoPartsBlankTable | tools/tplink-safeloader/tplink-safeloader.c:1377-1386 | The factory image of an empty list has a blank table block if and only if the vendor text has nothing but 0xff there. |
| Firmware.NoPartsNoTable | tools/tplink-safeloader/tplink-safeloader.c:1620-1624 | Reading a table from a blank block fails. |
| Firmware.SmallImagesFit | tools/tplink-safeloader/tplink-safeloader.c:1328 | Images of up to 4 GiB have no part that starts where a 32-bit base cannot point. |
| Firmware.SlotsGiveParts | tools/tplink-safeloader/tplink-safeloader.c:1769-1776 | Copying the entries of a table out gives the files of the parts if and only if every entry leads to its part. |
| Firmware.PackThenExtract | tools/tplink-safeloader/tplink-safeloader.c:1741-1780 | For every packed image: extracting it returns every part as the file of its name, with its bytes, in order, if and only if there are 1 to 16 parts, every name is a proper file name of at most 31 bytes without space or newline, and every entry leads to its part, which is so if every part with data starts below 4 GiB. |
| Firmware.ExtractionIsExact | tools/tplink-safeloader/tplink-safeloader.c:1741-1780 | For every accepted list: all lists of the same names and lengths come back from their factory images if and only if there are 1 to 16 parts, every name is such a file name, and every part with data starts below 4 GiB. |
| Firmware.DirectoryHoldsParts | tools/tplink-safeloader/tplink-safeloader.c:1722-1739 | With such names, no two of them equal, the output directory afterwards holds a file for every part, with its bytes, and no other. |
| Routes.PartFound | tools/tplink-safeloader/tplink-safeloader.c:1782-1793 | The first table entry of a name leads to the bytes of the first part of that name. |
| Routes.LookupFirst | tools/tplink-safeloader/tplink-safeloader.c:1317-1325 | The first entry of a name is the one that is found. |
| Routes.PartNamedFirst | tools/tplink-safeloader/tplink-safeloader.c:1424-1429 | The first part of a name is the one that is found. |
| Routes.LayoutReadBack | tools/tplink-safeloader/tplink-safeloader.c:1852-1854 | Four bytes into the partition-table part, the window holds the printed flash layout. |
| Routes.BothTablesRead | tools/tplink-safeloader/tplink-safeloader.c:1838-1868 | Converting a packed image finds both tables and copies exactly the kernel and file system that were packed, whatever else is listed between their partitions. |
| Routes.PartitionBytes | tools/tplink-safeloader/tplink-safeloader.c:1438-1450 | In every partition of a sorted run the flash holds the part of that name, and 0xff behind it. |
| Routes.AssembledBytes | tools/tplink-safeloader/tplink-safeloader.c:1860-1867 | The converted file byte by byte: the padded kernel, zeros up to the distance of the bases, the padded file system. |
| Routes.SysupgradeIsSlice | tools/tplink-safeloader/tplink-safeloader.c:1399-1453 | The sysupgrade image is the slice of the flash from the first base on. |
| Routes.PackedPartsFit | tools/tplink-safeloader/tplink-safeloader.c:1316-1325 | Every part that was packed fits the flash partition it is named after. |
| Routes.RoutesAgree | tools/tplink-safeloader/tplink-safeloader.c:1815-1871 | For every sorted run from the kernel to the file system, whatever is listed between them: converting the factory image equals generating the sysupgrade image and padding it with 0xff if and only if no padding exceeds 2^31 bytes and the two partitions touch, or the flash between them is all zeros and the last partition is not empty. |
| Routes.ConversionIsFront | tools/tplink-safeloader/tplink-safeloader.c:1815-1871 | For a run that goes on behind the file system, as on the CPE and WBS devices, the converted file is a front part of the sysupgrade image if and only if the kernel padding does not exceed 2^31 bytes and the flash between kernel and file system is all zeros, or the file-system partition is empty. |
| ArcherC7.DeviceIsConvertible | tools/tplink-safeloader/tplink-safeloader.c:549-574 | The ARCHER-C7-V4, with its whole layout and all eight parts, meets the conditions of the two routes. |
| ArcherC7.ArcherC7Works | tools/tplink-safeloader/tplink-safeloader.c:1465-1497 | For every contents that fit its partitions: the eight parts are accepted, converting the factory image gives the padded sysupgrade image, and extracting it gives the parts. |
| Formats.PrintedNumber | tools/tplink-safeloader/tplink-safeloader.c:1107 | A printed number is 0x and at least five digits of 0-9a-f, each the one of its place, with no zero in front of more than five. |
| Formats.DigitIsRead | tools/tplink-safeloader/tplink-safeloader.c:1674 | The digits 0-9a-f are read as what they stand for, and so are the capitals. |
| Formats.ImageLine | tools/tplink-safeloader/tplink-safeloader.c:1328-1329 | A line of the image table, in literal bytes with tab, CR and LF at its end. |
| Formats.LayoutLine | tools/tplink-safeloader/tplink-safeloader.c:1107 | A line of the flash layout, in literal bytes with LF at its end. |
| Formats.TableHeader | tools/tplink-safeloader/tplink-safeloader.c:1596-1624 | The table of an image is refused as such if and only if it does not start with "fwup-ptn", that of a layout if and only if it does not start with "partition". |
| Formats.ImageTableStarts | tools/tplink-safeloader/tplink-safeloader.c:1310-1338 | At byte 0x1014 of the factory image of any accepted non-empty list stand the literal bytes of "fwup-ptn ". |
| Formats.LayoutBytes | tools/tplink-safeloader/tplink-safeloader.c:1094-1120 | The partition-table part is 00 04 00 00, the lines, a zero, and 0xff up to 2048 bytes; with an entry the lines start with "partition ". |
| Formats.Salted | tools/tplink-safeloader/tplink-safeloader.c:1341-1348 | The checksum is the digest of the sixteen literal bytes of salt and of what is hashed of the image. |
| Formats.NamesLookedUp | tools/tplink-safeloader/tplink-safeloader.c:1842-1859 | The three names that are looked up, in literal bytes. |
| Formats.LineOfFields | tools/tplink-safeloader/tplink-safeloader.c:1644-1688 | Any line, by its fields: with six or more the second is the name, cut to 31 bytes, and numbers are read where the fourth and the sixth start; with fewer the line is cut or bad. |
| Formats.BrokenLine | tools/tplink-safeloader/tplink-safeloader.c:1644-1653 | A line of fewer than six fields ends the table without an error if its last field, not the only one, is empty, and is an error otherwise. |
| Formats.UnfinishedLine | tools/tplink-safeloader/tplink-safeloader.c:1637-1641 | A table ends in front of a line without a newline. |
| Formats.OtherNumbers | tools/tplink-safeloader/tplink-safeloader.c:1674-1682 | Blanks, a sign and 0x may stand in front of the digits of a number that is read; it saturates, and a negative one wraps. |
| Outcomes.PackingOutcome | tools/tplink-safeloader/tplink-safeloader.c:1310-1338 | Packing succeeds if and only if no part lacks a partition, exceeds the first one of its name, or fills the table; the first part that does decides the failure. |
| Outcomes.FactoryOutcome | tools/tplink-safeloader/tplink-safeloader.c:1366-1390 | There is a factory image if and only if the vendor text ends inside it and packing succeeds, the text being looked at first. |
| Outcomes.NoTable | tools/tplink-safeloader/tplink-safeloader.c:1620-1624 | Without "fwup-ptn" at byte 0x1014 nothing is extracted and nothing converted. |
| Outcomes.TooManyParts | tools/tplink-safeloader/tplink-safeloader.c:1743 | More than 16 parts are too many to extract and more than 32 too many to convert. |
| Outcomes.FirstUnopened | tools/tplink-safeloader/tplink-safeloader.c:1769-1776 | The first name that cannot be opened ends an extraction, with the files in front of it written; if all can be, all are written, wherever their names lead. |
| Outcomes.MissingPart | tools/tplink-safeloader/tplink-safeloader.c:1842-1849 | Without a kernel, a file system or a layout in its table an image is not converted: a null name is met if the table has fewer than 32 entries, and the message comes if it has 32. |
| Outcomes.MissingPartition | tools/tplink-safeloader/tplink-safeloader.c:1851-1859 | The same for a layout without kernel or file system; an empty one and one of more than 32 entries cannot be read. |
| Outcomes.Leftovers | tools/tplink-safeloader/tplink-safeloader.c:1704-1719 | Behind the end of the file a copy repeats what the buffer held 4096 bytes before, and at first whatever it held. |
| Outcomes.AnyAssembledBytes | tools/tplink-safeloader/tplink-safeloader.c:1860-1867 | The converted file byte by byte for entries of any sizes and places, differences wrapping as 32-bit numbers. |
| Sysupgrade.LastIndex | tools/tplink-safeloader/tplink-safeloader.c:1408-1417 | The index found is the last of that name, and none is found only if there is none. |
| Sysupgrade.FindRange | tools/tplink-safeloader/tplink-safeloader.c:1407-1420 | The loop finds the last index of each name and refuses equal names, missing ones and a wrong order. |
| Sysupgrade.CopyParts | tools/tplink-safeloader/tplink-safeloader.c:1438-1450 | The image becomes the overlay of its old contents with the parts, entry by entry, or the first oversized or misplaced part decides; `Sysupgrade.OverlayOutcome` says what that is. |
| Sysupgrade.RangeIs | tools/tplink-safeloader/tplink-safeloader.c:1407-1421 | The range found runs from the last entry of the first name to the last entry of the second if that comes later and the names differ, and there is no other. |
| Sysupgrade.OverlayOutcome | tools/tplink-safeloader/tplink-safeloader.c:1438-1450 | The first entry of the run whose part is larger than the partition or would leave the image decides the failure, the size being checked first; without one, the last entry with data for an address decides its byte. |
| Sysupgrade.SysupgradeOutcome | tools/tplink-safeloader/tplink-safeloader.c:1399-1453 | For every layout and all parts: which of the failures of range, last part, size and place comes, and otherwise the length, with bases subtracted as 32-bit numbers, and every byte of the image. |
| Sysupgrade.SizeCheckIsExact | tools/tplink-safeloader/tplink-safeloader.c:1441-1442 | For a sorted run whose last part is there, there is an image if and only if every part fits its partition, and otherwise the failure is the size check's. |
| Sysupgrade.FirstEntry | tools/tplink-safeloader/tplink-safeloader.c:1444-1446 | The byte an entry puts at an address is the one the flash is to hold there, whatever the entries behind it. |
| Sysupgrade.GenerateSysupgradeImage | tools/tplink-safeloader/tplink-safeloader.c:1399-1453 | The image returned is the overlay of the parts on 0xff, or the first failure in the order of the code. |
| Sysupgrade.OverlayBytes | tools/tplink-safeloader/tplink-safeloader.c:1438-1450 | For sorted entries whose parts fit, no copy leaves the image and every byte is the one the flash is to hold at its address. |
| Sysupgrade.SysupgradeIsFlashOverlay | tools/tplink-safeloader/tplink-safeloader.c:1399-1453 | For a sorted, non-overlapping layout generation succeeds, with the exact length, and byte k is the part's byte for flash address base + k, or 0xff. |
| Convert.CopyChunk | tools/tplink-safeloader/tplink-safeloader.c:1706-1710 | A chunk is what the file delivers and, behind that, what the buffer held before; it is written whole. |
| Convert.CopiedBytes | tools/tplink-safeloader/tplink-safeloader.c:1694-1720 | The file's own bytes are copied as far as it has any, through any number of chunks. |
| Convert.RegionIsCopied | tools/tplink-safeloader/tplink-safeloader.c:1694-1720 | A region the file holds is copied exactly, whatever the buffer held. |
| Convert.WritePartition | tools/tplink-safeloader/tplink-safeloader.c:1694-1720 | Exactly the entry's size is written at the output position: chunk by chunk the input's bytes, and the leftovers of the buffer where the input ends. |
| Convert.CounterSteps | tools/tplink-safeloader/tplink-safeloader.c:1802 | The int counter compared in size_t behaves like a natural number up to 2^31, where it turns negative. |
| Convert.CounterWrapped | tools/tplink-safeloader/tplink-safeloader.c:1802-1808 | A negative counter ends the loop and suppresses the last chunk, for every 32-bit size. |
| Convert.WriteFf | tools/tplink-safeloader/tplink-safeloader.c:1795-1813 | As many 0xff bytes are written as asked for up to 2^31, and 2^31 beyond. |
| Convert.ExtractFirmwarePartition | tools/tplink-safeloader/tplink-safeloader.c:1722-1739 | The file that opening the name leads to gets exactly the bytes copied for the entry; a name that is missing or cannot be opened is the failure. |
| Convert.ExtractSlots | tools/tplink-safeloader/tplink-safeloader.c:1769-1776 | Every slot in use becomes a file, in order, up to the first slot without a name or whose file cannot be opened, which decides the failure; the files written before it are stated. |
| Convert.ExtractFirmware | tools/tplink-safeloader/tplink-safeloader.c:1741-1780 | The files written, and the failure if there is one, are exactly those of the image's table, for whole and for cut-off images; a table that cannot be read fails as reading it does, with no file written. |
| Convert.ReadTables | tools/tplink-safeloader/tplink-safeloader.c:1838-1859 | Both tables are read and the five entries looked up in the order of the code, the first failure deciding, for all leftovers of both buffers. |
| Convert.ConvertFirmware | tools/tplink-safeloader/tplink-safeloader.c:1815-1871 | The output is exactly the copied kernel padded with 0xff and, at the distance of the flash bases, the copied file system padded with 0xff, for whole and for cut-off images; or the failure of the tables. |
| DnsName.EncodeLabels | packages/lifeline/dns.c:99-110 | The loop writes the labels between the dots, each behind its length modulo 256, and leaves zeros behind. |
| DnsName.EncodeQuestion | packages/lifeline/dns.c:87-119 | Names over 492 bytes are refused; otherwise the 512 bytes of payload are the question, of six bytes more than the name, and zeros. |
| DnsName.EncodedCons | packages/lifeline/dns.c:99-110 | A label is written as its length modulo 256 and its bytes. |
| DnsName.JoinedLabels | packages/lifeline/dns.c:99-110 | Joining the labels of a name with dots gives the name back. |
| DnsName.NameRoundTrip | packages/lifeline/dns.c:99-119 | Decoding the question by section 3.1 of RFC 1035 gives the labels, which are what lies between the dots, and the position before type and class, if and only if each label has 1 to 63 bytes; these are the bytes 0, 1, 0, 1. |
| DnsAnswers.SkipName | packages/lifeline/dns.c:173-178 | The skip loop stops behind the zero byte, or behind the byte after the first one with a top bit set, if the payload has it. |
| DnsAnswers.OwnerSkipped | packages/lifeline/dns.c:173-178 | For owners of any labels, ended by the root or a pointer: the loop stands behind the owner if and only if no byte of the labels is zero or has one of its two top bits, the last one in front of the root excepted. |
| DnsAnswers.ParseAnswers | packages/lifeline/dns.c:171-197 | The records are stored from index 0 on, the other slots are untouched, and the count is theirs; or an access leaves the buffers. |
| DnsAnswers.Receive | packages/lifeline/dns.c:135-199 | The header checks in order, then the records of the payload. |
| DnsAnswers.NetworkOrder | packages/lifeline/dns.c:180-186 | Numbers are read and written highest byte first. |
| DnsAnswers.HeaderDecides | packages/lifeline/dns.c:141-162 | Each check of the header with its error, in order, on the literal bytes of the datagram; behind them only an access outside the buffers fails. |
| DnsAnswers.OnlyGenuineResponses | packages/lifeline/dns.c:146-162 | Never more than eight records are found, and only in a datagram that passed all checks. |
| DnsAnswers.AnswerRead | packages/lifeline/dns.c:173-196 | A record serialised as in section 4.1.3, with a skippable owner, is consumed exactly and kept exactly if its type is 1, its class 1 and its length 4; its time to live is a C int. |
| DnsAnswers.AnswersRead | packages/lifeline/dns.c:171-197 | A list of such records yields exactly those of type 1, class 1 and length 4, in order, if the eight slots suffice. |
| DnsAnswers.QuestionSkipped | packages/lifeline/dns.c:164-169 | The skip loop stands at the end of the question dns_request wrote if and only if no label length is a multiple of 256. |
| DnsAnswers.ResponseIsParsed | packages/lifeline/dns.c:135-199 | Receiving a response that echoes the question or has none, with skippable owners, yields exactly the time to live and address of its IN A records, in order. |
| CopyWithDeadline.Copy.constructor | packages/hatch/src/services/lifeline1/copy.rs:41-56 | Nothing is read or written yet, and the deadline counts from now. |
| CopyWithDeadline.CallsKeep | packages/hatch/src/services/lifeline1/copy.rs:77-124 | A poll loses and invents nothing, and completes with everything written. |
| CopyWithDeadline.CallsMove | packages/hatch/src/services/lifeline1/copy.rs:77-124 | A poll ends not ready only at a call that would block, with an I/O error only at a broken one, with a write error only after a write that took nothing; every ready call is one of at most two for each byte and two more, and renews the deadline unless it is the flush. |
| CopyWithDeadline.ReadyCalls | packages/hatch/src/services/lifeline1/copy.rs:77-124 | If all calls are ready a poll goes through its whole script or completes, and with enough of them it completes. |
| CopyWithDeadline.Copy.Poll | packages/hatch/src/services/lifeline1/copy.rs:65-125 | A poll completes by the timer exactly when that is absent or due since the last move, then changing nothing; otherwise it is the calls of its script one after the other, and with two ready calls for every unread byte, one for every buffered one and two more it completes with everything written. |
| CopyWithDeadline.Copy.Pump | packages/hatch/src/services/lifeline1/copy.rs:77-124 | The nested loops end as the flat sequence of calls does, in the same state, after the same number of ready calls. |
| CopyWithDeadline.Copy.WriteOut | packages/hatch/src/services/lifeline1/copy.rs:97-113 | The inner loop writes until the buffer is empty or a call ends the poll. |
| CopyWithDeadline.Copy.Receive | packages/hatch/src/services/lifeline1/copy.rs:83-94 | A read moves a front part of the stream, as much as is offered and fits, into the empty buffer, or notes the end of the stream, and renews the deadline. |
| CopyWithDeadline.Copy.Drain | packages/hatch/src/services/lifeline1/copy.rs:100-112 | A write moves a front part of the buffer to the writer, counts it and renews the deadline. |
| CopyWithDeadline.Run | packages/hatch/src/services/lifeline1/copy.rs:65-125 | Over any schedule of polls: the writer has a front part of the stream, all of it after completion by the end of the stream, and all that was read but at most 2048 bytes otherwise. If the deadline is never due and all calls are ready, two for every byte and two more complete the copy, in however many polls. |
| PatchCmdline.FirstMarker | tools/patch-cmdline/patch-cmdline.c:61-67 | The marker found is the first at a multiple of four in the search space, and none is found only if there is none. |
| PatchCmdline.Patch | tools/patch-cmdline/patch-cmdline.c:49-74 | The mapped image is patched in place as specified, or unchanged when the line is too long or there is no marker. |
| PatchCmdline.PatchOutcome | tools/patch-cmdline/patch-cmdline.c:49-74 | Patching is refused exactly for lines over 503 bytes, and then exactly without a "CMDLINE:" in literal bytes at a multiple of four in the search space, changing nothing; otherwise the image is what it was but for the 504 bytes behind the first one, which are the line and zeros. |
| PatchCmdline.PatchIsLocal | tools/patch-cmdline/patch-cmdline.c:73-74 | Only the 504 bytes behind the first marker change, and the C string there is the command line. |
| PatchCmdline.MarkerStays | tools/patch-cmdline/patch-cmdline.c:61-67 | A change behind the first marker leaves it the first one. |
| PatchCmdline.LastWriteWins | tools/patch-cmdline/patch-cmdline.c:49-74 | Patching with a and then with b equals patching with b, whatever the first patch did or refused to do. |
| Shortfalls.NothingIsNotExtracted | tools/tplink-safeloader/tplink-safeloader.c:1620-1624 | The image of an empty list of parts is built and cannot be extracted. |
| Shortfalls.BadNamesAreNotExtracted | tools/tplink-safeloader/tplink-safeloader.c:1644-1666 | Parts named "a b", "a\nb", with 32 bytes, "", ".", ".." or "./a" are packed and do not come back. |
| Shortfalls.SeventeenAreNotExtracted | tools/tplink-safeloader/tplink-safeloader.c:1743 | Seventeen parts are packed and do not come back. |
| Shortfalls.LengthFieldOverflows | tools/tplink-safeloader/tplink-safeloader.c:1378 | A part of 2^32 - 1 bytes makes an image whose length field is not its length. |
| Shortfalls.ChecksumStops | tools/tplink-safeloader/tplink-safeloader.c:1341-1348 | In the same image the checksum covers less than everything behind it. |
| Shortfalls.PartBehind4GiB | tools/tplink-safeloader/tplink-safeloader.c:1328 | A part behind it is accepted, and its entry leads to other bytes. |
| Shortfalls.LongVendorText | tools/tplink-safeloader/tplink-safeloader.c:1380-1384 | In the image of an accepted list, with a vendor text of 6140 bytes, the table block is not the documented one. |
| Shortfalls.MissingPartitionIsNullName | tools/tplink-safeloader/tplink-safeloader.c:1782-1793 | Looking for a kernel in a table of one other entry meets a null name. |
| Shortfalls.OneUpgradedPartition | tools/tplink-safeloader/tplink-safeloader.c:1408-1420 | A device that names one partition first and last finds no range. |
| Shortfalls.SpreadIsConvertible | tools/tplink-safeloader/tplink-safeloader.c:1438-1450 | A device of three partitions, kernel and file system touching or not, and its parts meet the conditions of the two routes. |
| Shortfalls.SpreadDiffers | tools/tplink-safeloader/tplink-safeloader.c:1815-1871 | For such a device with a kernel of one byte the two routes differ if and only if there is a gap, or the kernel's partition has more than 2^31 + 1 bytes. |
| Shortfalls.GapsDiffer | tools/tplink-safeloader/tplink-safeloader.c:1860-1867 | With a gap of 0x1000 bytes the converted factory image is not the padded sysupgrade image. |
| Shortfalls.PaddingStops | tools/tplink-safeloader/tplink-safeloader.c:1795-1813 | With 2^31 + 1 bytes to pad behind the kernel, and no gap, it is not either. |
| Shortfalls.EmptyLabel | packages/lifeline/dns.c:102-110 | The question for "a..b" does not decode to the name, and the receiver does not find its end. |
| Shortfalls.LettersAreNotSkipped | packages/lifeline/dns.c:173-178 | In the owner of one label of two letters the skip loop stops at the first letter. |
| Shortfalls.NineRecords | packages/lifeline/dns.c:189-194 | Nine address records are one too many. |
| Shortfalls.CopyWithoutTimer | packages/hatch/src/services/lifeline1/copy.rs:67-73 | Without a timer a stream of three bytes is reported as copied when nothing is. |
## Left out

- Firmware.PackThenExtract: is about names that are C strings, and for an empty list about a blank table block, as a vendor text of more than 4092 bytes could write a table of its own; `Firmware.ExtractionIsExact` likewise. That a later file replaces an earlier one of the same name is in `Firmware.DirectoryHoldsParts`.
- Routes.RoutesAgree: is about layouts without repeated names, sorted between kernel and file system, at most 32 parts and entries whose names a table can carry, and images whose entries lead to their parts. What becomes of more, and of missing ones, is in `Outcomes`.
- ArcherC7.ArcherC7Works: soft-version, support-list, extra-para, identity and sysconf have arbitrary contents that fit, the tool's own among them.
- DnsAnswers.ResponseIsParsed: owners are skippable; what the loop does with others is in `DnsAnswers.OwnerSkipped`.
- CopyWithDeadline.Copy.Poll: `amt` is a natural number, not 64 bits wide; readers report the end of the stream only at its end, and writers take no more than they are given.
- CopyWithDeadline.Run: a schedule may go on after an error, which an executor does not do.
- The branch of SET for machines with unaligned little-endian loads, which reads the same word directly; the portable branch is modelled.
- The sine formula behind the constants of RFC 1321: they are data in `Md5Rfc`, and the code's constants are proved equal to them.
- strtoul is modelled after its definition in the C standard, with a 64-bit unsigned long.
- Errors of files other than opening an output file, of allocation and of system calls; the checks of paths and of the output directory; path length; subdirectories and links in the output directory.
- Board data but for one device, options, environment and clock, soft-version and support-list partitions, `read_file` and `read_file_split2`: parts are arbitrary names and bytes.
- `dns_init`, sockets, and the fixed header of a request; accesses behind the packet are the failure `Outside`.
- `main` of patch-cmdline around the search: argument parsing, file mapping and unmapping. The mapping is the search space and 512 bytes.
- The remaining parts of hatch, the lifeline protocol, genesis, scripts and build files.
