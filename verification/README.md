# A model of the lch utility library

`lch/util` is the C library under a packet-monitoring system: trees, tables and pools, rings between two threads,
a configuration store, a JSON reader and printer, checksums, a filter language with a wire form, the discovery of
IMA groups on ATM links, and archives of timed files. This project models the parts of it whose correctness is
not visible in one body, in Dafny, and proves what each of them is for. Objects that the C code changes in place
are classes with the same fields; loops are loops; concurrent code is a state machine with one action for each
access to a shared variable; code that only computes is a function.

| files | what they model |
|---|---|
| AvlModel, AvlOrder, AvlRotation, AvlSwap, AvlSteps, AvlTree, AvlDestroy | the balanced tree of `avl.c`, on linked heap nodes with parent pointers and balances |
| ChecksumTables, ChecksumDivision, Checksum | fcs16, fcs32 and crc32c against polynomial division bit by bit |
| SniperStream | the receiver that cuts frames out of a TCP stream (`adapter_snipermgt.c`) |
| Ring, Pfifo, PfifoRuns, Fifo | the two lock-free rings: each call alone, and all interleavings of one producer and one consumer |
| ImaModel, ImaFields, ImaScan | `imascan_result`: partition of links into IMA groups by eight sorting and splitting passes |
| FilterCodec, FilterNodes | filter trees, their wire form and their evaluation |
| JsonText, JsonRoundTrip, JsonGrammar, JsonLayout, JsonStrings, JsonMeaning, JsonBuffer, JsonAllocation | the printers and the parser of `cJSON.c`: what they print, what they read of any text, the buffer that grows while it is filled, and the memory counted for a string |
| ConfigModel, ConfigText, ConfigReader, ConfigLoading, ConfigEdits, ConfigLines, ConfigPlaces, ConfigStore, ConfigLoad, ConfigDump, ConfigLayout, ConfigTyped, ConfigAnswers, ConfigEffects, ConfigRoundTrip, ConfigReload, ConfigRuns | the store of `cconfig.c`: its edits, its loader, its dump, what it answers, and runs of all of them |
| LinkedLists, ConfigLinks, ConfigThreads, ConfigLinked | the pointers of that store: `next`, `prev`, `token`, `etoken`, `snext` and `token->line`, as the loader makes them and the edits change them |
| BitFields | bit fields and septets of `misc.c` |
| HashModel, HashTable | `hash_long` and the chained table of `hashtbl.c` |
| Archive | the open files of `archive.c` and the file system they leave behind |
| BufMgr, MemAlloc | the two pools |
| Arithmetic | powers of two and division, shared by BitFields, HashModel, Archive and BufMgr |

Some results say when the code does *not* do what one would expect, with the exact condition and, in most cases, an input.

- A run of frames is cut out of the stream whole if and only if none is empty (`SniperStream.FramesExactly`); an
  empty one stops the receiver for good (`EmptyFrameStalls`).
- `pfifo_write_rollback` is safe if and only if the consumer has not come to the value (`PfifoRuns.RollbackExact`,
  with a failing run in `RollbackBreaks`).
- A group of IMA links whose frame numbers agree modulo 256 up to one is found to be in step if and only if they do
  not wrap (`ImaScan.InStepExactly`); a pair with the numbers 255 and 0 is not (`PairUnseen`). The scan groups
  exactly if and only if there are fewer than `MAX_GRP_NUM` classes (`ImaScan.Scan.Result`).
- The filter decoder drops the high octet of an option type, so that a round trip holds if and only if every field
  is small (`FilterCodec.RoundTrip`). It checks no bounds: a tree cut short is read past its end if and only if
  fewer bytes came than its length field says (`CutShort`, with two inputs in `ReadsPastEnd`).
- `filter_and` and `filter_or` without release return a composite without children (`FilterNodes.FilterCompose`).
- The text that `CfgDump` writes is read back if and only if lines are short and names and values are clean
  (`ConfigReload.StoreRoundTrip`).
- Opening or finishing a period of the archive loses data if and only if a part and a finished file lie side by side
  and the one that is replaced is not empty (`Archive.ReopenExactly`, `CloseExactly`, and over whole runs
  `Archive.Run`). In the last period before the 32-bit clock ends, every write opens a file anew (`EndOfClock`).
- A JSON string is read as what it denotes if and only if no escape in it stands for NUL (`JsonStrings.StringDenotes`).
- `parse_string` writes no more than it allocates if and only if no escape takes the closing quote
  (`JsonAllocation.AllocationExactly`, with an input in `QuoteTaken`).
- `bufmgr_free` keeps its list if and only if the pointer was handed out (`BufMgr.FreeExactly`): its range check is
  not enough. A hash table misses equal keys whose hashes differ (`HashTable.MeetsNothing`).

## Model

| member | source | states |
|---|---|---|
| AvlTree.AvlTree.constructor | lch/util/avl.c:868-885 | A created tree satisfies the invariant and holds no nodes: the base of every run. |
| AvlTree.AvlTree.Rotate | lch/util/avl.c:290-460 | On linked nodes, a rotation turns the subtree into its balanced form and leaves the rest of the tree and the order as they were; the result says whether the subtree lost height. |
| AvlRotation.RotatedInorder | lch/util/avl.c:290-460 | Neither the single nor the double rotation changes the order of the nodes. |
| AvlRotation.RotatedAvl | lch/util/avl.c:290-460 | A rotation of a subtree that is two out of balance is balanced with correct stored balances, and one lower unless the heavy child was in balance. |
| AvlModel.PlugAvl | lch/util/avl.c:469-545 | A tree is balanced with correct stored balances exactly when the subtree at hand is and everything above it is for a subtree of that height. |
| AvlSteps.GrowStep | lch/util/avl.c:500-545 | While an insertion climbs, each new balance means exactly one of: settled, one taller at the next node, or settled by a rotation. |
| AvlSteps.ShrinkStep | lch/util/avl.c:760-806 | While a removal climbs, each new balance means exactly one of: settled, one lower at the next node, or rotated and then either. |
| AvlTree.AvlTree.Insert | lch/util/avl.c:469-545 | Insertion at an empty place keeps the invariant and puts the node at that place of the order; nothing else moves. |
| AvlTree.AvlTree.InsertHere | lch/util/avl.c:559-614 | The new node stands right before or right after the given one, all others keep their order. |
| AvlTree.AvlTree.Add | lch/util/avl.c:619-637 | A node equal to none in an ordered tree is added once, and the order by the comparison is kept. |
| AvlTree.AvlTree.Remove | lch/util/avl.c:662-806 | Removal, with the swap of a node that has two children for its neighbour, takes out exactly that node and keeps invariant and order of the others. |
| AvlSwap.SwappedTree | lch/util/avl.c:690-736 | The swap of a node with its neighbour, adjacent or not, by copying links is a renaming of two nodes in the same balanced shape. |
| AvlTree.AvlTree.Find | lch/util/avl.c:243-273 | The search returns an equal node, or else the empty place where the value keeps the order. |
| AvlTree.AvlTree.Walk | lch/util/avl.c:124-165 | A step returns the node next in the order on that side, or null at the end. |
| AvlTree.AvlTree.First | lch/util/avl.c:171-187 | The first node of the order, or null for an empty tree. |
| AvlTree.AvlTree.Last | lch/util/avl.c:190-210 | The last node of the order, or null for an empty tree. |
| AvlTree.AvlTree.Nearest | lch/util/avl.c:214-231 | From an empty place, the node right before or right after it in the order. |
| AvlTree.AvlTree.FindClosest | lch/util/avl.h:205-231 | The documented idiom of search, then nearest or neighbour, returns the greatest smaller or the least greater node, null exactly if there is none. |
| AvlTree.AvlTree.Enumerate | lch/util/avl.c:124-210 | Walking from one end visits every node once, in order, and ends. |
| AvlTree.AvlTree.Update | lch/util/avl.c:846-864 | After the data of one node changed, it moves exactly if the order by the comparison no longer holds; then, or if it is equal to no other, the tree is strictly in order with the same nodes; next to its equal it stays, and nothing changes. |
| AvlTree.AvlTree.UpdateToward | lch/util/avl.c:812-844 | The same when the data can only have moved to one side and only that neighbour is compared. |
| AvlOrder.MisplacedAscends | lch/util/avl.c:846-864 | With all others in order, no two nodes of the whole tree are out of order exactly when neither neighbour of the changed one is. |
| AvlDestroy.DestroyNodes | lch/util/avl.c:939-1030 | With the packed cookie of the call before, a call returns the next node of the postorder and never touches a node it returned. |
| AvlDestroy.DestroyAll | lch/util/avl.c:939-1030 | The destruction loop returns the postorder of the tree and leaves it empty. |
| AvlDestroy.PostorderVisits | lch/util/avl.c:921-938 | The postorder contains every node of the tree exactly once. |
| AvlDestroy.ChildrenFirst | lch/util/avl.c:921-938 | What is below a node is returned before the node. |
| Checksum.Fcs16Of | lch/util/algorithm.c:44-55 | The table loop computes the remainder of bit-by-bit division for every byte string. |
| Checksum.Fcs32Of | lch/util/algorithm.c:124-135 | The same for fcs32. |
| Checksum.Crc32cOf | lch/util/algorithm.c:206-228 | The same for crc32c, complemented and with its bytes swapped. |
| Checksum.ReturnedBytes | lch/util/algorithm.c:206-228 | What crc32c returns is the remainder with each byte complemented and the last one first. |
| Checksum.TableEntry | lch/util/algorithm.c:9-42 | Every entry of the three tables is what its index leaves after eight division steps. |
| Checksum.BurstsDetected | lch/util/algorithm.c:44-55 | Two messages that differ only inside a window as wide as the code, at any bit, share their checksum exactly if they are equal. |
| Checksum.ByteBurstsDetected | lch/util/algorithm.c:44-55 | The same for a replaced run of bytes no longer than the checksum. |
| Checksum.OddErrorsSeen | lch/util/algorithm.c:206-228 | An odd number of wrong bits always changes fcs16 and crc32c. |
| Checksum.GoodExactly | lch/util/algorithm.c:44-55 | For fcs16 and fcs32, message and tail leave the constant exactly when the tail is the complemented checksum, low byte first. |
| SniperStream.FedIsCut | lch/adapter/adapter_snipermgt.c:248-348 | However a stream is split into packets, draining after each gives the frames, skipped bytes and backlog of cutting the whole stream at once. |
| SniperStream.ChunksDoNotMatter | lch/adapter/adapter_snipermgt.c:268-348 | Two ways of splitting the same stream end in the same state. |
| SniperStream.CutConserves | lch/adapter/adapter_snipermgt.c:268-348 | Bytes of frames, skipped bytes and backlog add up to the bytes received. |
| SniperStream.FramesComeOut | lch/adapter/adapter_snipermgt.c:248-348 | Any run of messages with payload, each framed as command 1 to 4, two bytes, length high byte first and payload, is cut into exactly these frames, whatever follows. |
| SniperStream.FramesExactly | lch/adapter/adapter_snipermgt.c:248-348 | A run of framed messages is cut into exactly their frames if and only if none has an empty payload. |
| SniperStream.StallsAt | lch/adapter/adapter_snipermgt.c:248-348 | Otherwise the frames before the first empty message come out, and all from that one on stays. |
| SniperStream.FrontWaits | lch/adapter/adapter_snipermgt.c:248-266 | Of a frame that has not come to its end nothing is cut and nothing is skipped. |
| SniperStream.CutSpells | lch/adapter/adapter_snipermgt.c:268-348 | Any stream at all is the frames that come out, each that of some message, between stretches of bytes that are no command and were skipped, and the backlog. |
| SniperStream.NoiseIsSkipped | lch/adapter/adapter_snipermgt.c:248-348 | Bytes other than 1 to 4 are skipped one by one and the rest is cut as if they had not come. |
| SniperStream.BacklogBound | lch/adapter/adapter_snipermgt.c:248-348 | After a drain less than one longest frame waits, unless an empty frame heads the backlog. |
| SniperStream.EmptyFrameStalls | lch/adapter/adapter_snipermgt.c:248-266 | Behind a frame of length zero nothing is ever cut again. |
| SniperStream.PacketFits | lch/adapter/adapter_snipermgt.c:268-300 | Unless an empty frame blocks it, the buffer takes any packet of up to 327677 bytes. |
| SniperStream.Connection.Process | lch/adapter/adapter_snipermgt.c:268-348 | A packet leaves buffer, queue and counters as the cut of backlog and packet says, or drops everything when it does not fit. |
| SniperStream.Receive | lch/adapter/adapter_snipermgt.c:268-348 | However the frames of a run of messages with payload are split into packets of up to 327677 bytes, a new connection queues each of them, in order, and counts every byte as good. |
| PfifoRuns.OpenedRing | lch/util/pfifo.c:42-98 | A ring opened with blocks of the average size is empty and satisfies the invariant: the base of every run. |
| PfifoRuns.StepKeepsInv | lch/util/pfifo.c:99-210 | Every step of either side keeps the invariant, a rollback if it can be undone. |
| PfifoRuns.RunKeepsInv | lch/util/pfifo.c:99-210 | So does every interleaving in which each rollback is safe when its turn comes. |
| PfifoRuns.RollbackExact | lch/util/pfifo.c:141-155 | A rollback keeps the invariant if and only if a value is held that the consumer has not come to. |
| PfifoRuns.RollbackBreaks | lch/util/pfifo.c:141-155 | A run of eleven steps after which the producer fills the block that the consumer is reading. |
| PfifoRuns.ReadsAreOrdered | lch/util/pfifo.c:99-210 | However the sides interleave, what is read was committed and not rolled back, once each, in order, as committed. |
| PfifoRuns.NothingLost | lch/util/pfifo.c:99-179 | Without a clear, what was read is exactly the front of what was committed and not rolled back, and the rest is held. |
| PfifoRuns.PeekedIsSafe | lch/util/pfifo.c:99-168 | While the consumer reads a block, no step of the producer frees it, writes it or takes its slot. |
| PfifoRuns.FillingIsSafe | lch/util/pfifo.c:99-168 | While the producer fills a block, it is live, large enough and out of the consumer's reach. |
| PfifoRuns.CountTrust | lch/util/pfifo.c:212-226 | Steps of the other side move the count of held values only one way, so each side may trust it in one direction. |
| PfifoRuns.RefusalsAreExact | lch/util/pfifo.c:99-166 | A write is refused for want of room exactly when size - 1 values are held, a read exactly when none is. |
| Pfifo.Queue.Write | lch/util/pfifo.c:99-124 | The free slot's block is returned, replaced if it is too small; null exactly when full or out of memory; the contents stay. |
| Pfifo.Queue.WriteCommit | lch/util/pfifo.c:126-139 | The block joins the contents; with no room left all contents are forgotten. |
| Pfifo.Queue.WriteRollback | lch/util/pfifo.c:141-155 | The last element leaves the contents; on an empty ring size - 1 stale blocks appear. |
| Pfifo.Queue.ReadCommit | lch/util/pfifo.c:168-180 | The oldest element leaves the contents; on an empty ring size - 1 stale blocks appear. |
| Fifo.FirstInFirstOut | lch/util/fifo.c:52-102 | However push and pop interleave, what was popped is the front of what was pushed, and the rest waits. |
| Fifo.RefusalsAreExact | lch/util/fifo.c:52-102 | A push finds no room exactly if size - 1 values wait, a pop nothing exactly if none does. |
| Fifo.Queue.Push | lch/util/fifo.c:52-76 | A pointer is appended unless it is null or the ring is full. |
| Fifo.Queue.Pop | lch/util/fifo.c:78-102 | The oldest pointer is taken, null exactly on an empty ring. |
| ImaScan.Scan.Result | lch/util/imascan.c:991-1087 | The scan keeps all links; every group holds links whose cells agree in version, IMA id, status and control, group status, timing and the three test fields, and no two groups hold links that do, if and only if fewer than the maximum of such combinations were heard; it marks exactly the groups whose frame numbers are in step modulo 256 without wrapping, and orders each by physical link. |
| ImaFields.KeyIsFields | lch/util/imascan.c:119-351 | Two links that heard cells have equal keys exactly if the eight bytes of their cells agree. |
| ImaModel.NumberCompares | lch/util/imascan.c:308-324 | Lists of bytes are compared by the first byte in which they differ. |
| ImaScan.InStepExactly | lch/util/imascan.c:1048-1059 | For every group, the integer test of the scan holds if and only if all frame numbers are some s or s + 1 modulo 256 and they do not hold both 255 and 0. |
| ImaScan.PairUnseen | lch/util/imascan.c:1048-1059 | Two links at frames 255 and 0 are in step modulo 256 and are not found to be. |
| ImaScan.Scan.Split | lch/util/imascan.c:417-814 | A pass over the growing list refines exact groups by its field, and fails exactly when the classes reach the maximum. |
| ImaScan.Scan.SplitVer | lch/util/imascan.c:354-415 | The first pass puts the links that heard a cell in front and groups them by version; it never fails. |
| ImaScan.Scan.SplitAll | lch/util/imascan.c:1019-1046 | After all passes the groups are exact if and only if the classes of all fields are fewer than the maximum. |
| ImaScan.Scan.MarkGroups | lch/util/imascan.c:1048-1059 | A group is fine exactly when its sorted frame numbers end at most one above where they start. |
| ImaModel.RoundProgresses | lch/util/imascan.c:417-474 | Cutting one group moves a pass on: groups before the mark are classes of the finer key. |
| FilterNodes.Node.OfSingle | lch/util/filter.c:279-311 | A fresh valid leaf with these fields and the length of its value and its head. |
| FilterNodes.FilterSingle | lch/util/filter.c:265-314 | The value takes as many bytes as its type says, and the leaf answers what the comparison says of it; null exactly for octets without a number. |
| FilterNodes.ValueLengths | lch/util/filter.c:286-303 | Types 1 to 4 take 1, 2, 4 and 8 bytes, type 5 a string up to its first NUL and with it, type 6 the number given. |
| FilterNodes.Node.OfBoth | lch/util/filter.c:402-405 | With release, a composite owns both children and has the sum of their lengths and its head. |
| FilterNodes.FilterCompose | lch/util/filter.c:378-441 | Null exactly if an argument is; with release the composite of both, which is true exactly if both are (AND) or one is (OR); without it a node with the length of both that has no children and is no tree. |
| FilterNodes.Node.Non | lch/util/filter.c:316-323 | The node is negated once, however often it is called: what answered 0 answers 1, all else 0. |
| FilterNodes.Node.Encode | lch/util/filter.c:558-576 | The fresh buffer holds the reserved zero bytes and then the wire form of the tree, nothing else. |
| FilterNodes.Node.EncodeExt | lch/util/filter.c:578-595 | The wire form fills the front of a large enough buffer and nothing behind it; a small one is left alone. |
| FilterNodes.Node.Decode | lch/util/filter.c:597-620 | Exactly one of three: the tree that the wire form admits and that uses up the buffer; null; or, told by `past`, a read behind the end of the buffer, which the program does not check. |
| FilterNodes.Node.LogicResult | lch/util/filter.c:670-706 | Evaluation on the nodes is the evaluation of the tree; a composite without children answers 0. |
| FilterNodes.JoinedAnswer | lch/util/filter.c:325-441 | Joined by AND, two filters answer 1 exactly if both answer true alone, by OR exactly if one does, else 0; joined without release, 0. |
| FilterNodes.Answer | lch/util/filter.c:670-706 | A null pointer answers -1, a composite without children 0, a tree as it is evaluated. |
| FilterCodec.CompositeAnswer | lch/util/filter.c:684-698 | AND is true exactly if both children are, OR exactly if one is; true is 1. |
| FilterCodec.LeafAnswer | lch/util/filter.c:679-683 | A leaf answers what the comparison says of its option, operator and value. |
| FilterCodec.NegatedAnswer | lch/util/filter.c:699-706 | A negated tree is true exactly if the tree without the negation is not. |
| FilterCodec.WireLength | lch/util/filter.c:518-556 | The wire form is as long as the length field of the tree says. |
| FilterCodec.LeafOctets | lch/util/filter.c:518-535 | A leaf is sent as 1, the negation, the length high octet first, type and operator in one octet, the option high octet first, the length of the value and the value. |
| FilterCodec.CompositeOctets | lch/util/filter.c:536-556 | A composite is sent as 2 (AND) or 3 (OR), the negation, the length high octet first, and its children, the left one first. |
| FilterCodec.DecodeWire | lch/util/filter.c:443-516 | Decoding an encoded tree gives the tree with option types cut to an octet, whatever follows it. |
| FilterCodec.CutShort | lch/util/filter.c:443-516 | Of an encoded tree cut anywhere, the decoder reads past the end if and only if fewer bytes are left than the length field says. |
| FilterCodec.ReadsPastEnd | lch/util/filter.c:443-516 | Two headers that announce a byte of value behind the end are read past it, one with a length field that agrees with the buffer. |
| FilterCodec.DecodeLocal | lch/util/filter.c:443-516 | A decoded tree is read from exactly as many bytes as its length says: no byte behind matters, and every shorter front is read past its end. |
| FilterCodec.DecodeStable | lch/util/filter.c:443-516 | Bytes behind the buffer change the outcome only where the decoder reads past the end. |
| FilterCodec.MemoryBehind | lch/util/filter.c:597-620 | Whatever lies in memory behind a message, a tree of the message's length is found exactly if the message alone is one; read past its end, it is never accepted. |
| FilterCodec.RoundTrip | lch/util/filter.c:518-620 | Decoding the encoded tree gives the same tree if and only if every field fits its place on the wire. |
| FilterCodec.DecodedFits | lch/util/filter.c:443-516 | Every tree that the decoder returns could have been encoded. |
| FilterCodec.NarrowAnswers | lch/util/filter.c:670-706 | A comparison that ignores the high octet of the option answers the same before and after the round trip. |
| JsonRoundTrip.RoundTrip | lch/util/cJSON.c:345-349 | Printing any tree of ints and byte strings without NUL, formatted or not, and parsing the text rebuilds the tree and uses up the text. |
| JsonRoundTrip.ValueBack | lch/util/cJSON.c:363-666 | At any depth, a printed value before any delimiter is parsed as itself, and parsing stops right behind it. |
| JsonRoundTrip.StringBack | lch/util/cJSON.c:198-313 | Every byte string without NUL survives quoting and escaping. |
| JsonRoundTrip.NumberBack | lch/util/cJSON.c:102-181 | Every int is read back from its decimal form. |
| JsonRoundTrip.Utf8Back | lch/util/cJSON.c:221-247 | The bytes written for a code point are its UTF-8 form. |
| JsonRoundTrip.BasicPlane | lch/util/cJSON.c:221-247 | Four hexadecimal digits of a code point outside the surrogates are read as its UTF-8 bytes. |
| JsonRoundTrip.SurrogatePair | lch/util/cJSON.c:222-236 | A pair of escaped surrogates is read as the bytes of its code point. |
| JsonStrings.StringDenotes | lch/util/cJSON.c:198-256 | Every string text of RFC 8259, section 7, is read up to its closing quote; with paired surrogates it is read as what it denotes if and only if no escape stands for NUL. |
| JsonStrings.StringAccepted | lch/util/cJSON.c:198-256 | Whatever is accepted as a string is a quote, pieces (characters, escapes, units of four characters), and a quote or the end of the text, and is read as what these pieces make. |
| JsonMeaning.TextDenotes | lch/util/cJSON.c:326-555 | Every JSON text with int numbers and paired surrogates, whatever white space stands in it, is accepted; it is read as the value that it denotes if and only if no escape in it stands for NUL. |
| JsonMeaning.ValueRead | lch/util/cJSON.c:363-555 | Every derivation of the wider grammar that the parser takes (bytes up to 32 as white space, leading zero, any escape) is read as its value, up to where it ends. |
| JsonMeaning.ValueAccepted | lch/util/cJSON.c:363-555 | Nothing else is accepted: a text that is read begins with such a derivation and is read as its value, or is a string that never ends. |
| JsonGrammar.PrintIsJson | lch/util/cJSON.c:348-409 | What is printed is derived by the grammar of sections 2 to 7 of RFC 8259, and is UTF-8 if all strings are. |
| JsonLayout.PrintIsLaid | lch/util/cJSON.c:348-666 | What is printed is the text of one derivation: unformatted without white space; formatted with a space before each item but the first, each member on a line of its own behind as many tabs as it is deep, and a tab before its value. |
| JsonLayout.EscapesAre | lch/util/cJSON.c:258-313 | Quote, backslash and five controls have an escape of two characters, other controls four lower-case hexadecimal digits, all else stands for itself. |
| JsonBuffer.PrintBuffered | lch/util/cJSON.c:351-359 | From any initial size, the printer into one growing buffer leaves exactly the text of the other printer, terminated. |
| JsonBuffer.PrintBuffer.Ensure | lch/util/cJSON.c:127-142 | There is room behind the offset, and what was printed is still there. |
| JsonBuffer.PrintBuffer.Update | lch/util/cJSON.c:144-150 | The offset comes to the end of what was printed. |
| JsonBuffer.PrintBuffer.PrintValue | lch/util/cJSON.c:378-409 | The buffer shows what it showed and then the value, terminated. |
| JsonBuffer.ArrayFits | lch/util/cJSON.c:440-517 | The space that the unbuffered array printer allocates is never less than what it writes. |
| JsonBuffer.ObjectFits | lch/util/cJSON.c:556-666 | Nor is it for objects. |
| JsonAllocation.AllocationExactly | lch/util/cJSON.c:198-255 | For the inside of a string up to its closing quote, no text behind it makes the parser write more than it counted if and only if no escape takes that quote. |
| JsonAllocation.QuoteTaken | lch/util/cJSON.c:198-255 | An escape without digits takes the closing quote: one byte is counted and three are written. |
| ConfigStore.Config.constructor | lch/util/cconfig.c:19-55 | A new store is empty and satisfies the invariant. |
| ConfigLoad.Load | lch/util/cconfig.c:283-579 | A text is loaded exactly if the line grammar reads it; then the invariant holds and the lines are the rows read. |
| ConfigLoad.LinkAll | lch/util/cconfig.c:468-576 | From any lines that were read, the loops over sections, scalars and chains establish the whole invariant. |
| ConfigLoad.RankSections | lch/util/cconfig.c:512-518 | The nested increments give every section its occurrence among those of its name. |
| ConfigLoad.RankNames | lch/util/cconfig.c:562-576 | The same for the scalars of a section. |
| ConfigReader.ReadLine | lch/util/cconfig.c:338-462 | A line is read as remark, section, scalar or vector exactly as the row grammar says. |
| ConfigTyped.LineTyped | lch/util/cconfig.c:338-462 | A line typed with any spaces and tabs around its words is read as these words: a section name in brackets and a name and a value around an equal sign with one space for each gap, the tokens of a vector one by one. |
| ConfigTyped.ReadExactly | lch/util/cconfig.c:338-462 | A line without blanks at its end is read if and only if it is typed in one of these ways. |
| ConfigTyped.OrderIsPlaced | lch/util/cconfig.c:330-462 | The order of rows is accepted exactly if every token stands in a section that has none of the other kind before it. |
| ConfigTyped.TextTyped | lch/util/cconfig.c:306-462 | A text of typed lines of up to 1023 characters, ended by newlines with or without carriage returns, is read as their rows, exactly if its tokens stand where they may. |
| ConfigTyped.LongLineCut | lch/util/cconfig.c:306-336 | A longer line is cut behind its first 1023 characters. |
| ConfigTyped.ReadTyped | lch/util/cconfig.c:338-462 | The reader, run on a typed line cut off behind its last word, returns its row. |
| ConfigTyped.LoadTyped | lch/util/cconfig.c:283-579 | The loader, run on a typed text, refuses it exactly for a token out of place, and the store then has its rows. |
| ConfigStore.Config.FindSection | lch/util/cconfig.c:675-700 | The k-th section of a name, or none exactly if there is none. |
| ConfigStore.Config.GetValue | lch/util/cconfig.c:675-724 | The value of the k-th token of a name in the n-th section of a name; none exactly if there is no such token. |
| ConfigAnswers.AnswerIsWanted | lch/util/cconfig.c:675-724 | In any valid store there is a value for a section, its number, a name and a number exactly if the rows of its text have one there, and it is that one. |
| ConfigAnswers.Answer | lch/util/cconfig.c:675-724 | `CfgGetValue` answers what the text of the store says: the k-th value of that name in the n-th section of that name. |
| ConfigAnswers.AnswerTyped | lch/util/cconfig.c:283-724 | So it does for a text as typed, loaded and asked. |
| ConfigEffects.WantedIsListed | lch/util/cconfig.c:675-724 | The answer for `k` is the k-th of the list. |
| ConfigStore.Config.GetCount | lch/util/cconfig.c:801-866 | The number of sections of a name, or of tokens of a name in one of them. |
| ConfigEffects.CountValues | lch/util/cconfig.c:801-866 | The count is that of the sections of a name in the text, or of the values of the name in one of them; -1 for the vector tokens of a section of scalars, and in a section of vectors the values equal to the name. |
| ConfigStore.Config.AddToken | lch/util/cconfig.c:972-1256 | A section or token enters at the asked place of table, chain and line list, every other line stays, all occurrence indices stay exact, and a refused call changes nothing; refused exactly without such a section or with a token of the other kind. |
| ConfigEffects.AddValue | lch/util/cconfig.c:972-1256 | Adding a token puts its value into the list of that name in that section, behind the `where`-th or at the end, and changes no other list. |
| ConfigStore.Config.DelToken | lch/util/cconfig.c:1376-1473 | Exactly the asked token leaves chain and line, its line goes if it was the last there, every other line stays, and later ones of its name move up; refused exactly if there is none. |
| ConfigEffects.DelValue | lch/util/cconfig.c:1376-1473 | Deleting takes the k-th value out of its list and changes no other; refused exactly if there is no k-th. |
| ConfigStore.Config.SetValue | lch/util/cconfig.c:738-798 | Only the value of the asked token changes, and only if it differs by the store's comparison. |
| ConfigEffects.SetValue | lch/util/cconfig.c:738-798 | Setting changes the k-th value of its list unless the old one compares equal, and no other list. |
| ConfigStore.Config.DelSection | lch/util/cconfig.c:1476-1559 | Of the lines exactly those from the remarks before the header to the last token of the section leave, remarks behind it stay, and later sections of its name move up; refused exactly if there is none. |
| ConfigModel.RankInsert | lch/util/cconfig.c:1163-1255 | Raising the later tokens of the same name makes every index its occurrence again. |
| ConfigModel.RankDelete | lch/util/cconfig.c:1395-1465 | Lowering them does after a deletion. |
| ConfigDump.Dump | lch/util/cconfig.c:582-643 | The text written is that of the rows of the store, vectors wrapped by tokens per line, and nothing but the dirty flag changes. |
| ConfigLayout.ScalarLaidOut | lch/util/cconfig.c:633-634 | A scalar is written as its name, spaces up to column 15 or none, " = " and its value. |
| ConfigLayout.PerLineFits | lch/util/cconfig.c:607-615 | As many values go on a line as are set, else as fit into 70 columns, one at least and 16 at most. |
| ConfigLayout.LongestIs | lch/util/cconfig.c:601-606 | Columns are as wide as the longest value. |
| ConfigLayout.ColumnsLaidOut | lch/util/cconfig.c:616-617 | Each value of a line is followed by spaces to the width of the columns. |
| ConfigLayout.VectorLaidOut | lch/util/cconfig.c:616-624 | A vector is written in lines of that many values, the last of which may be shorter, without losing or moving one. |
| ConfigRoundTrip.RowBack | lch/util/cconfig.c:582-643 | A written line is read as its row if and only if the row is clean. |
| ConfigRoundTrip.RoundTrip | lch/util/cconfig.c:283-643 | Written rows are read back if and only if every line fits the line buffer, every row is clean and tokens stand where they may; wrapping never changes the tokens. |
| ConfigReload.ViewIsText | lch/util/cconfig.c:582-643 | What a caller can ask of a valid store, every index included, is what its text says. |
| ConfigReload.StoreRoundTrip | lch/util/cconfig.c:283-643 | The dump of any valid store is read back if and only if its lines are short and its rows clean. |
| ConfigReload.Reload | lch/util/cconfig.c:283-643 | Then a store loaded from the dump shows the same sections, tokens and indices. |
| ConfigRuns.Run | lch/util/cconfig.c:283-1559 | After any text loaded and any edits, refused ones included, the invariant holds and the store shows what its text says. |
| ConfigLinks.Memory.AddFirst | lch/util/cconfig.c:1169-1228 | Writing the links of a line behind the header and of the first token of a section leaves links that show the store with the token inserted. |
| ConfigLinks.Memory.AddBehind | lch/util/cconfig.c:1229-1253 | The same for a scalar behind another, in a line of its own. |
| ConfigLinks.Memory.AddInFront | lch/util/cconfig.c:1179-1190 | The same for a vector token in front of the first, in its line. |
| ConfigLinks.Memory.AddInLine | lch/util/cconfig.c:1191-1204 | The same for a vector token behind another, in its line. |
| ConfigLinks.Memory.AddSection | lch/util/cconfig.c:1089-1127 | Walking to the line before the target and back over remarks finds where the header goes, and the links then show it there. |
| ConfigLinks.Memory.DelVector | lch/util/cconfig.c:1407-1437 | Passing by the token in its section and in its line, and by its line if that is empty, leaves links that show the store without it. |
| ConfigLinks.Memory.DelScalar | lch/util/cconfig.c:1446-1458 | The same for a scalar, whose line goes with it. |
| ConfigLinks.Memory.DelSection | lch/util/cconfig.c:1498-1538 | The walks over remarks before the header and back from the next header find what to unlink, and the links then show the store without it. |
| ConfigThreads.Thread | lch/util/cconfig.c:206-560 | Appending lines and tokens and then the loops over lines and sections make links that show the loaded store: lines in both directions, tokens of each line and of each section, and the line of each token. |
| ConfigLinked.FindToken | lch/util/cconfig.c:700-723 | The walk from `etoken` along `snext` ends at the k-th token of the name in the section, or at null exactly if there is none. |
| ConfigLinked.GetValue | lch/util/cconfig.c:675-724 | The value found along the links is that of the asked token; none exactly if there is no such token. |
| ConfigLinked.RunBoth | lch/util/cconfig.c:972-1559 | After any run of edits, refused ones included, the links still show the store, and no list runs into another or into itself. |
| ConfigLinked.RunLinked | lch/util/cconfig.c:206-1559 | The same from any text that is loaded. |
| BitFields.CombineBitsBE | lch/util/misc.c:350-389 | The number of the big-endian field at a bit, modulo the word; zero for no bits. |
| BitFields.CombineBitsLE | lch/util/misc.c:305-344 | The little-endian number of the bytes divided by two to the start, modulo two to the width. |
| BitFields.CombineBitsLength | lch/util/misc.c:277-299 | The big-endian field, less the bits that its last byte pushes out of the word; the whole field if it is at most 32 bits down to the end of that byte. |
| BitFields.CombineBitsRange | lch/util/misc.c:252-274 | The same field given by its two ends. |
| BitFields.ValueIsWeights | lch/util/misc.c:350-389 | A field is the sum of its set bits, each worth its power of two. |
| BitFields.QueryBit | lch/util/misc.c:428-437 | The queried bit is that bit of every field that starts there and reaches it. |
| BitFields.CountBitsLength | lch/util/misc.c:405-425 | The number of set bits of the field. |
| BitFields.DecodeBit7 | lch/util/misc.c:585-602 | The m-th octet written is septet m of the text as a little-endian number (section 6.1.2.1 of 3GPP TS 23.038), and a terminator follows. |
| HashModel.HashLong | lch/util/hash.h:33-53 | The six shifts are a multiplication by the prime modulo the word, and the index is below two to the bits. |
| HashTable.Table.constructor | lch/util/hashtbl.c:57-94 | Empty buckets, as many as the least power of two that is not below the request. |
| HashTable.Table.FindSeq | lch/util/hashtbl.c:96-141 | The entry number n, oldest first, among those equal to the key in its bucket. |
| HashTable.Table.Insert | lch/util/hashtbl.c:143-166 | The entry becomes the youngest; refused exactly for a hash outside the buckets. |
| HashTable.Table.Delete | lch/util/hashtbl.c:168-212 | The oldest entry that a search meets goes, and only that. |
| HashTable.Table.Pop | lch/util/hashtbl.c:214-237 | The oldest entry of the first bucket in use goes; refused exactly on an empty table. |
| HashTable.Table.Traverse | lch/util/hashtbl.c:239-260 | Every entry is visited once. |
| HashTable.Table.TraverseDelete | lch/util/hashtbl.c:262-296 | Exactly the accepted entries go, each released once, the others keep their order and are counted. |
| HashTable.MeetsEqual | lch/util/hashtbl.c:96-130 | If equal keys have equal hashes, the table answers like a list of its entries in order of insertion. |
| HashTable.MeetsNothing | lch/util/hashtbl.c:96-130 | Otherwise a search misses the only entry of a table. |
| Archive.MatchedAligned | lch/util/archive.c:48-52 | Starts of periods match exactly if they are equal and the period ends before the clock. |
| Archive.Archive.PrepareFile | lch/util/archive.c:122-207 | An open file for the period is used; else only the slot of the oldest changes, which is free or has the least start of all; on disk only the period asked for can lose anything, as opening it again does. |
| Archive.Archive.Write | lch/util/archive.c:302-320 | The data is appended to what is kept for its period and to nothing else, whatever is closed, renamed, opened or refused; on disk all other periods keep both their files. |
| Archive.Archive.Close | lch/util/archive.c:322-373 | Every file is closed, no part is left of an open period, and nothing on disk is lost. |
| Archive.Archive.Run | lch/util/archive.c:302-320 | After any run of writes each period holds what it held and then what was written for it, in order; and all that was on disk is still there if and only if no period written for had a part with data beside a finished file. |
| Archive.LostExactly | lch/util/archive.c:90-207 | What a run leaves on disk decides the loss exactly: the if and only if of the row before, for any file systems before and after. |
| Archive.OpenArchive | lch/util/archive.c:209-257 | An archive exactly if path, prefix, suffix and function are given and the numbers are in range. |
| Archive.StalePartLost | lch/util/archive.c:90-120 | A part beside a finished file is replaced by it when the period is opened again. |
| Archive.ReopenExactly | lch/util/archive.c:90-120 | Opening a period again loses a file if and only if it has both, and loses data if and only if the part then has any. |
| Archive.CloseExactly | lch/util/archive.c:141-158 | Finishing a period loses a file if and only if it has both, and loses data if and only if the finished file then has any. |
| Archive.EndOfClock | lch/util/archive.c:122-207 | In the period in which the clock ends a second slot comes to hold the same period. |
| BufMgr.OpenPool | lch/util/bufmgr.c:35-78 | A pool exactly for arguments with room for a block, and none of its blocks is used. |
| BufMgr.Pool.Alloc | lch/util/bufmgr.c:80-99 | A buffer that was not handed out, null exactly if no block is free; all others stay handed out. |
| BufMgr.Pool.Free | lch/util/bufmgr.c:101-121 | The pool stays good if and only if the pointer is ignored or handed out. |
| BufMgr.FreeExactly | lch/util/bufmgr.c:101-121 | After giving back a pointer some list of different blocks is free, all others counted, if and only if the pointer was a handed-out buffer. |
| BufMgr.LiveApart | lch/util/bufmgr.c:80-99 | Handed-out buffers do not overlap each other or each other's headers. |
| MemAlloc.Pool.Alloc | lch/util/MemAlloc_T.h:175-211 | An object that is not handed out, the first idle one if there is one; null exactly if none is idle and none can be made. |
| MemAlloc.Pool.Free | lch/util/MemAlloc_T.h:214-248 | Bound to whichever node heads the other list, the object heads the idle ones, and the pool stays valid if and only if it was handed out. |
| MemAlloc.Pool.IncreaseMem | lch/util/MemAlloc_T.h:102-137 | That many new nodes with new objects head the idle list, and the sum grows by as many. |

## Left out

- AvlTree.AvlTree.Add: adding a node that compares equal to one in the tree is an assertion failure in the program and is excluded here.
- AvlTree.AvlTree.Update: data that is out of place and equal to another node elsewhere runs into that assertion when the node is added again, and is excluded (`Movable`).
- `avl.c`: user data is an int compared by any consistent comparison; the packing of parent, child index and balance into one word and the offset between node and object are not modelled; the placeholder on the stack in a removal is a fresh node. `avl_swap`, `avl_numnodes` and `avl_is_empty` are trivial.
- PfifoRuns.NothingLost: rollbacks are included if each is safe when its turn comes (`CanUndo`, a test of the two indices and of what the consumer holds); other rollbacks break it, as `RollbackBreaks` shows.
- `pfifo.c`: the callback of `pfifo_clear`, a count taken by a third thread, `pfifo_close` and the reordering of memory accesses by the processor are not modelled; one access is one step.
- `fifo.c`: `fifo_clear` and `fifo_get_cnt` are modelled as single calls only, not interleaved.
- `adapter_snipermgt.c`: sockets, the table of connections and the timer; how frames fare in the queue is a parameter.
- ImaScan.Scan.SortRange: `qsort` is an insertion sort with the same contract, a permutation in order; nothing depends on the order of equal links.
- `imascan.c`: the reception of cells (`rcv_icp_from_link`) and the output of the configuration (`imascan_outcfg`); the pass by link status only orders the links of each group.
- `filter.c`: the blocks that composition without release copies are not modelled, only that they are not attached, nor is a composite without children inside another; failing allocations, the printing of expressions, loading filters from a configuration and the typed comparisons.
- JsonRoundTrip.RoundTrip: numbers are ints; the formatting and reading of fractions is floating point.
- `cJSON.c`: the parser is a function on texts, not on pointers, and what an escape reads behind the end of the text (the outcome `Open`) is not modelled; failing allocations, references and the editing functions are left out; the power of two in `ensure` is the least that is not below, for sizes within an int. What an unpaired surrogate or an escape outside RFC 8259 denotes is not defined there; `Made` and `Meant` say what the parser makes of them.
- ConfigStore.Config.AddToken: works on sequences; `ConfigLinked` carries each edit over to the pointers of `ConfigLinks`. There a scalar is looked for along `snext`, where the program goes along the lines of the section, and the table of sections stays a sequence.
- ConfigLinks.Memory.DelVector: the program frees a token and reads its `snext` afterwards; memory is kept here, and what is freed is not tracked.
- ConfigLoad.Load: reads a text, not a file; NUL bytes, a file that cannot be opened, and loading over a store in use (`CfgReload`) are left out.
- `cconfig.c`: `CfgAddComment`, `CfgGetIndex`, the functions for unique sections, a change of case sensitivity after loading, and saving to a file.
- HashTable.Table.FindSeq: the two counters of accesses are counted, but their values are not specified.
- `hashtbl.c`: a chain is a sequence; failing allocations, names and logs are left out, and `hashtbl_close`. `okToDel` is a function of the entry.
- HashModel.HashLong: words of 64 bits and at least one bit of index; a shift by the whole word, as for a table of one bucket, is undefined in C. `SDBMHash` is left out.
- Archive.Archive.Write: the time of a name is the start of its period, so that local time is taken to name different periods differently; appending takes effect at once; a rename fails only where there is nothing to rename.
- `archive.c`: the mode of direct writing is fixed when the archive is opened; the quota is not used by the program.
- BufMgr.Pool.Free: memory is the headers only; what a client writes outside its buffer, and an unaligned pointer's overlap with other headers, are not modelled.
- MemAlloc.Pool.Free: the mode of block lists, without the lock; `ReduceFreeMemBlock`, which nothing calls, and the destructor are left out.
- `misc.c`: clocks, addresses, file systems, UCS2 and MD5. BitFields.CombineBitsBE: fewer than no bits at a started byte shift by a negative number, undefined in C, and are excluded.
- The other adapters, sockets, logging, CGI and device code of the repository are input and output.
