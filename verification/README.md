# hci_bluetooth: verified models

Dafny models of the parts of this repository that have a state worth reasoning
about, and proofs of what they do on every input. `dafny verify dfyconfig.toml`
checks all of it.

* **SDP data elements** (`sdp/sdp.cpp`). The parser is one flat loop that moves a
  current pointer through a tree of heap objects (`SdpParser`). Its effect is a
  left-to-right scan of elements, each attached below the end of the rightmost
  path (`SdpScan`). The printer walks the tree with a double-ended queue and writes
  into a 256-byte array in place (`SdpPrinter`); it refines the recursive encoding
  of `SdpEncoding`. The end test of the parser compares a count, relative to the
  index at which parsing began, with an absolute index, and forgets the header of
  the sequence; so the tree is not always the one the bytes describe. `SdpLayout`
  says exactly for which layouts it is, at any depth and for any start index, and
  `SdpReference` relates the parser and the printer to a recursive decoder for
  sections 3.2 and 3.3 of Volume 3, Part B of the Bluetooth Core Specification 4.0.
  `SdpRequest` is the ServiceSearchAttribute request of section 4.7.1, `SdpResponse`
  the service record that is sent in reply, and `SdpRoundTrip` runs parser and
  printer in turn on the heap.
* **EZ-USB firmware loader** (`ezusb/ezusb.cpp`). A device answers its transfers in
  any way at all and keeps a log of them (`EzusbRam`). `EzusbText` cuts an Intel HEX
  file into lines and reads them, `EzusbHex` is the reader with its merge buffer,
  `EzusbMerge` proves when merging keeps the meaning of a file, `EzusbFile` follows
  files that are written as the standard says to the chip, `EzusbImages` has the IIC
  and BIX readers, `EzusbLoad` the loader in one or two stages with the order and the
  addresses of its transfers, and `EzusbFx3` the FX3 loader.
* **Command line options** (`xgetopt/XGetopt.cpp`): `Getopt`, a resumable parser
  whose runs are a recursive parse of the argument words.
* **Link keys** (`windows/visual_studio/hci_test/hci_test/hci/link_key_database.cpp`):
  `LinkKeys`, a map, its file format and runs of its operations.
* **Packet log** (`apple_pklg/pklg.cpp`): `PacketLog`, the writer and the reader of
  one record, and of a whole stream.

Objects that the sources update are classes, and loops are loops; each such method
is proved against a function of the old state, and the theorems are about these
functions. Results the code reports by throwing, by an error code or by `EOF` are
values of result types. Runs that the language gives no meaning to are values too
(`Undefined`, `Overrun`), and nothing is promised about their effects. One failure
is made explicit although the code has no check for it: an 8-bit index or count of
the SDP parser that would wrap, or a read behind the data (`OutOfRange`).

Where the code and its documentation differ, the model follows the code:

* A sequence that is parsed is left as soon as the bytes to come, plus the start
  index, are no more than its header: a sequence of one 2-byte UUID never keeps its
  child (`SdpResponse.ServiceClassListMisnested`), and so the parser does not rebuild
  the record that the same stack sends (`SdpResponse.RecordNotRebuilt`).
* A body that ends with an element of one byte loses it behind a header of three
  bytes, because the loop counts only two (`SdpScan.OneByteStaysUnread`).
* Two bytes of the service record are called unknown and not conforming. They are
  the encoding of the unsigned integer 1 (`SdpResponse.RightDummy`).
* The comment of `parse_ihex` says that segments are merged; after a record without
  data the next record goes to a stale address (`EzusbMerge.StaleAddress`).
* The Intel HEX format allows records of 255 bytes. The line buffer of the reader
  holds records of 249; a file with a longer one is rejected (`EzusbFile.HexFileLoads`).
* The header of `getopt` calls "-ab" and "-a -b" equivalent. They are for the
  letters that `Getopt.Separable` names, and for no others.
* The second pass of a two-stage load reads every image as Intel HEX, which the code
  marks as an open question. For an IIC image it can only fail (`EzusbLoad.TwoStageIic`).
* The packet log reader does not look whether the stream has ended: three bytes of a
  header can be taken for a packet (`PacketLog.ThreeBytes`).
* The range comments of the `is_external` functions include the end address, the
  code excludes it.
* The packet log enumerates type 9, writes it, and refuses to read it.

## Model

| member | source | states |
|---|---|---|
| SdpParser.Deserialize | sdp/sdp.cpp:143-197 | for all data: throws, runs out of range or succeeds as the linear scan with 8-bit indices and an 8-bit count does, returns the bytes scanned, and leaves below root fresh objects that are exactly the tree obtained by attaching each scanned element to the end of the rightmost path |
| SdpParser.NextBelow | sdp/sdp.cpp:150-194 | one iteration keeps current at the end of the rightmost path, whose finished subtrees stay as they are, and allocates only fresh objects |
| SdpParser.AddChild | sdp/sdp.cpp:154-163 | a fresh child becomes the last child of current and nothing else on the path changes |
| SdpParser.LeaveIfEnded | sdp/sdp.cpp:183-191 | at most one level is left, when the relative count reaches the absolute end, and never the root |
| SdpParser.ReadHeader | sdp/sdp.cpp:28-84 | kind, 16-bit size and header length for all eight size descriptors; an unknown type code leaves the old kind |
| SdpParser.ReadBody | sdp/sdp.cpp:86-141 | big-endian values cut to 32 and 16 bits, texts byte for byte, current moved to the parent after a leaf, unknown kinds rejected |
| SdpParser.ReadUint | sdp/sdp.cpp:92-98 | shifting bytes in gives the big-endian number modulo 2^32, for any size |
| SdpParser.ReadUuid | sdp/sdp.cpp:105-111 | the same modulo 2^16 |
| SdpParser.EnterLeaf | sdp/sdp.cpp:99-101 | a leaf read below the path is a complete subtree of the tree on the heap |
| SdpParser.EnterSequence | sdp/sdp.cpp:130-134 | a sequence read below the path becomes the end of the path |
| SdpParser.Leave | sdp/sdp.cpp:186-189 | leaving the end of the path completes its subtree |
| SdpScan.ScanConsecutive | sdp/sdp.cpp:150-196 | the elements read lie one behind the other from the start to the returned end: none skipped, none read twice |
| SdpScan.ConsumesWholeElement | sdp/sdp.cpp:147-196 | elements of any declared sizes that fill the body of a sequence exactly are all read, and nothing else, if and only if they are at most 255 bytes with the header, the header has two bytes or more and the last element more bytes than the header has beyond two |
| SdpScan.ScanFromEnds | sdp/sdp.cpp:150-180 | of elements lying one behind the other, reading ends after the last one exactly when that one starts below the stopping position and reaches it |
| SdpScan.OneByteStaysUnread | sdp/sdp.cpp:172-177 | four bytes on which the last element is not read |
| SdpScan.BuildTreeFlattens | sdp/sdp.cpp:154-191 | rightmost-path theorem: the preorder of the built tree is the scan, each element at the depth of the path the parser stood on |
| SdpScan.PreorderIsScanOrder | sdp/sdp.cpp:143-197 | however the declared sizes nest, preorder is the linear order of the elements in the data |
| SdpScan.StepFlattens | sdp/sdp.cpp:154-191 | one step appends the element behind everything read before, one level below the end of the path |
| SdpScan.BuildTreeBare | sdp/sdp.cpp:154-163 | only sequences get children |
| SdpScan.HeaderMeans | sdp/sdp.cpp:28-84 | every element that is read: its type, size and number of header bytes, from the bits of its first byte and the bytes behind it |
| SdpScan.OtherTypes | sdp/sdp.cpp:33-53 | an element is rejected for its type if and only if its code is not 1, 3, 4 or 6 |
| SdpElement.FlattenInjective | sdp/sdp.cpp:143-197 | preorder fields and depths determine a tree |
| SdpEncoding.WholeElementRoundTrip | sdp/sdp.cpp:143-502 | stated on the data alone: if elements of any declared sizes fill the body of a sequence, parsing consumes the sequence and printing gives all of its bytes back, if and only if it has at most 255 bytes and every element has the header form of the printer |
| SdpEncoding.ParseThenPrint | sdp/sdp.cpp:143-502 | whatever a successful parse has read comes back as bytes at its own index, and no other cell of the array changes, if and only if every element in it has that header form, whatever the nesting the parser made |
| SdpEncoding.CanonicalToken | sdp/sdp.cpp:301-472 | of one element: its encoding lies where it was read if and only if it has that header form; a 4-byte UUID only if its upper half is zero |
| SdpEncoding.PrintAllFits | sdp/sdp.cpp:479-501 | elements that have encodings and fit the array, to its last cell, are written one behind the other; every other cell keeps its value |
| SdpEncoding.PrintAllReturns | sdp/sdp.cpp:479-501 | printing returns if and only if every element has an encoding and none straddles the end of the array, the 8-bit cursor being back at the first cell behind an element that ends in the last |
| SdpEncoding.WrapsAround | sdp/sdp.cpp:479-501 | a tree of five bytes that is printed to the last three cells and the first two, and reported as printed |
| SdpEncoding.TreeBytes | sdp/sdp.cpp:481-499 | the encodings in print order are the recursive encoding of the tree |
| SdpEncoding.PrintedNumber | sdp/sdp.cpp:317-381 | the bytes of a printed number or UUID of one, two or four bytes; other sizes are rejected |
| SdpLayout.NestsAs | sdp/sdp.cpp:165-191 | at any depth, from any start index: the parser nests a well-sized layout as it is laid out if and only if the layout is recoverable |
| SdpLayout.PlaceTree | sdp/sdp.cpp:182-191 | the same for an inner element below any path, with the path on which the parser is left |
| SdpLayout.TwoLevelsRecoverable | sdp/sdp.cpp:182-191 | leaves and sequences of leaves, from index 0: recoverable if and only if the last leaf of each non-empty inner sequence is longer than that sequence's header |
| SdpLayout.InnerRecoverable | sdp/sdp.cpp:182-191 | the same for one sequence of leaves |
| SdpReference.ParserAgainstStandard | sdp/sdp.cpp:143-197 | on whatever the reference decoder accepts within 256 bytes, with 1 or 2 length bytes, the parser consumes the whole element and reads each part alike if and only if it has at most 255 bytes, and builds the prescribed tree if and only if the layout is recoverable |
| SdpReference.DecodeReads | sdp/sdp.cpp:28-141 | every element the reference decoder finds is the one the parser reads at that index |
| SdpReference.DecodePrinted | sdp/sdp.cpp:301-502 | the reference decoder recovers every printed tree of any depth whose declared sizes are the lengths of its children |
| SdpReference.PrintThenParse | sdp/sdp.cpp:143-502 | print, then parse: all bytes are consumed if they are at most 255, and the printed tree comes back (start indices aside) if and only if its layout is recoverable |
| SdpReference.TwoLevelRoundTrip | sdp/sdp.cpp:143-502 | for a root with leaves and sequences of leaves, at index 0: the printed tree comes back if and only if the last element of every non-empty inner sequence is printed with more than 3 bytes |
| SdpResponse.ServiceClassListMisnested | sdp/sdp.cpp:608-619 | a sequence of one 2-byte UUID inside a root does not survive: the UUID ends up beside it |
| SdpResponse.DecodePrintedMeaning | sdp/sdp.cpp:301-502 | the reference decoder recovers what a printed tree means, plain dummy bytes that encode a number included |
| SdpResponse.RecordIsRight | sdp/sdp.cpp:578-773 | every declared size in the service record is the length of its children, 98 bytes in all |
| SdpResponse.RecordDecodes | sdp/sdp.cpp:578-778 | wherever the printed record lies, the standard reads it as the record that was meant |
| SdpResponse.RightDummy | sdp/sdp.cpp:659-666 | the two bytes of unknown origin are the one-byte unsigned integer 1 |
| SdpResponse.RecordBytes | sdp/sdp.cpp:578-778 | the printed record, all 98 bytes of it |
| SdpResponse.RecordNotRebuilt | sdp/sdp.cpp:143-197 | the parser consumes all of the printed record but builds another tree |
| SdpPrinter.SerializeSequence | sdp/sdp.cpp:474-502 | for every tree, array and start: result and array are those of writing the elements in preorder with an 8-bit cursor; if all fit, to the last cell, the array holds exactly the recursive encoding, every other cell is as it was, and the index behind it is returned; terminates |
| SdpPrinter.Serialize | sdp/sdp.cpp:504-514 | returns if and only if every element has an encoding and none straddles the end of the array; result and array are those of writing in preorder, for every outcome with a meaning; what fits is written in full; an absolute index for sequences, a count for leaves, both in eight bits |
| SdpRoundTrip.ParseAndPrint | sdp/sdp.cpp:143-514 | parsing into objects and printing these to the same index gives every byte back, and changes no other cell, when the elements have the header form of the printer and end inside the array |
| SdpPrinter.SerializeSimple | sdp/sdp.cpp:301-472 | one element: its encoding, other cells unchanged; nothing is written when it is rejected, only the descriptor when a checked access fails |
| SdpPrinter.WriteNumber | sdp/sdp.cpp:425-460 | bytes written from the last to the first are the big-endian number; one that does not fit leaves the array as it was |
| SdpPrinter.CopyText | sdp/sdp.cpp:451 | the text lies at its place and nothing else changes |
| SdpPrinter.Describe | sdp/sdp.cpp:305-412 | descriptors and byte count are those of the encoding, errors those of the switch |
| SdpPrinter.PushChildren | sdp/sdp.cpp:491-497 | children pushed last to first stand in front of the queue in order |
| SdpPrinter.ExpandOrder | sdp/sdp.cpp:483-499 | printing the front of the queue and putting its children there changes neither the order nor the bytes still to come |
| SdpRequest.ServiceSearchAttributeRequest | sdp/sdp.cpp:516-574 | answer, exception or overrun of a request are those of two scans, with the UUID taken from the second token of the pattern |
| SdpRequest.FirstChild | sdp/sdp.cpp:537-540 | however the rest is nested, the first child of the root is the second token, and there is none only if nothing follows the header |
| SdpRequest.ConformingRequest | sdp/sdp.cpp:516-574 | a request laid out as section 4.7.1 says is answered with its transaction id, high byte first, its first UUID and the index behind it |
| SdpRequest.EmptyPattern | sdp/sdp.cpp:539 | the pattern 35 00, which has no elements, makes the request throw |
| EzusbRam.InternalRanges | ezusb/ezusb.cpp:66-121 | for each chip: a non-empty range is internal if and only if one on-chip window holds all of it |
| EzusbRam.Device.EzusbWrite | ezusb/ezusb.cpp:139-161 | one transfer is logged; failure if and only if its status is an error |
| EzusbRam.Device.EzusbCpucs | ezusb/ezusb.cpp:194-217 | one transfer is logged; an I/O error fails a stop but not a reset |
| EzusbRam.RamPokeContext.RamPoke | ezusb/ezusb.cpp:527-584 | refuses, skips or sends by mode, with the opcode of the segment; the counters and the log change only when it sends |
| EzusbRam.PokesConcat | ezusb/ezusb.cpp:527-584 | poking a list is poking its parts in turn, and stops at the first failure |
| EzusbRam.PassWrites | ezusb/ezusb.cpp:543-560 | a successful first pass writes the external segments, a successful second one the on-chip segments, each in order |
| EzusbRam.SelectPartitions | ezusb/ezusb.cpp:543-560 | together the two passes write each segment exactly once |
| EzusbRam.SingleStageSucceeds | ezusb/ezusb.cpp:535-584 | a single-stage pass succeeds if and only if no segment is external and no transfer fails, and has then written all of them in order |
| EzusbRam.SingleStageFails | ezusb/ezusb.cpp:535-584 | otherwise it has written exactly the segments before the first external one or the first failed transfer |
| EzusbText.ReadPiece | ezusb/ezusb.cpp:287-296 | a read delivers a line with its break, or the first 511 characters of it |
| EzusbText.ReadLine | ezusb/ezusb.cpp:298-382 | comment, foreign line or record: its length, address, type and data bytes from the hexadecimal digits of either case, and whether it is long enough |
| EzusbText.FieldsOfLine | ezusb/ezusb.cpp:308-382 | where the fields of a record lie in its line, which a line break or a NUL ends, and that every data byte is the value of its own two digits |
| EzusbText.DigitValues | ezusb/ezusb.cpp:318-380 | the values of the sixteen digits, in both cases, and the digit that is written for a value |
| EzusbText.SameLines | ezusb/ezusb.cpp:318-380 | texts that differ only in the case of the letters a to f have the same lines |
| EzusbText.OtherLines | ezusb/ezusb.cpp:298-305 | a line that does not begin with a colon is a comment if it begins with #, and is rejected otherwise |
| EzusbText.ShortRecordLine | ezusb/ezusb.cpp:287-382 | a record of at most 249 bytes, written as the Intel HEX specification says, with any check sum and line break, is read back |
| EzusbText.FullRecordLine | ezusb/ezusb.cpp:287-305 | one of 250 bytes is read, and its line break is left over as a line that is no record |
| EzusbText.LongRecordLine | ezusb/ezusb.cpp:287-354 | of a longer one the first piece is a record that is too short |
| EzusbFile.HexFileLoads | ezusb/ezusb.cpp:286-395 | a file of such records, each digit in either case, is accepted if and only if every record has at most 249 bytes, and then every byte is poked to its address, in file order; the first longer record gives -2 if it has 250 bytes, and -4 otherwise |
| EzusbFile.OneByteTooLong | ezusb/ezusb.cpp:287-305 | every file of one record of 250 bytes is rejected with -2 |
| EzusbFile.HexFileReachesChip | ezusb/ezusb.cpp:790-817 | a successful single-stage load of a written file has sent every byte of its records to its address, in order, and all of them to on-chip RAM |
| EzusbHex.ParseIhex | ezusb/ezusb.cpp:264-396 | for all texts and all devices: return code, log and counters are those of poking the segments merged from its lines; the buffer never overflows |
| EzusbHex.TakeRecord | ezusb/ezusb.cpp:363-383 | one record: flushed first if it is not adjacent or does not fit, then appended in place |
| EzusbHex.Append | ezusb/ezusb.cpp:377-383 | the buffer holds its old contents and the record |
| EzusbMerge.FirstEndDecides | ezusb/ezusb.cpp:292-354 | the first line that is neither a comment nor a complete data record decides the return code of a file; a missing end record is no error |
| EzusbMerge.RejectedFile | ezusb/ezusb.cpp:292-394 | of a file that is rejected at some line, all the lines before it would have handed out has been handed out, except what is in the buffer |
| EzusbMerge.MergePreservesMeaning | ezusb/ezusb.cpp:286-395 | of an accepted file: every byte is poked to the address its record gives it, in file order, if and only if no record with data meets a stale address |
| EzusbMerge.DataNeverStale | ezusb/ezusb.cpp:360-374 | which cannot happen when every record carries data |
| EzusbMerge.StaleAddress | ezusb/ezusb.cpp:363 | a file with an empty first record on which the address is wrong |
| EzusbMerge.MergeCarriesData | ezusb/ezusb.cpp:376-394 | in any accepted file the data poked, one segment after the other, is the data of the records |
| EzusbMerge.MergeIsGreedy | ezusb/ezusb.cpp:356-394 | in any file: each poke has 1 to 1023 bytes; of two successive ones the second is not adjacent, or the record that opened it, the first with data behind all the data before, would not have fit behind the first |
| EzusbMerge.OrderIrrelevant | ezusb/ezusb.cpp:811-841 | writing the same bytes in another order leaves the same memory if no address is given two values |
| EzusbMerge.TwoPassesOneImage | ezusb/ezusb.cpp:811-841 | two passes leave the memory one pass would, if and only if at every address that external and on-chip segments both write an on-chip byte has the last word |
| EzusbMerge.OneValuedAgrees | ezusb/ezusb.cpp:811-841 | which is so when no address is given two different bytes |
| EzusbMerge.ExternalByteLost | ezusb/ezusb.cpp:811-841 | an image for which the two passes leave another memory |
| EzusbImages.ParseIic | ezusb/ezusb.cpp:451-499 | pokes the blocks of the file in order, with the errors of a short header, an oversized block and a short block |
| EzusbImages.BlockRead | ezusb/ezusb.cpp:476-491 | any block header with two bytes or more behind it: up to 4096 bytes that are there are taken, with the address of the header; otherwise -1 |
| EzusbImages.LargestBlock | ezusb/ezusb.cpp:482-486 | a block of 4096 bytes is accepted, one of 4097 is rejected with -1 |
| EzusbImages.TrailerIgnored | ezusb/ezusb.cpp:473-475 | the last five bytes are no block, whatever they are |
| EzusbImages.IicRoundTrip | ezusb/ezusb.cpp:472-498 | from any list of blocks and any trailer of 5 bytes the reader recovers exactly that list |
| EzusbImages.ParseBin | ezusb/ezusb.cpp:413-435 | pokes the file in chunks, and terminates |
| EzusbImages.BinTiles | ezusb/ezusb.cpp:423-434 | the chunks hold every byte at its own offset, and all but the last have 4096 bytes |
| EzusbLoad.LoadRam | ezusb/ezusb.cpp:742-855 | result, log and counters of a load are those of the run of stop, passes and reset, for every image, stage and device |
| EzusbLoad.LoadIsSafe | ezusb/ezusb.cpp:790-850 | in every run: no on-chip write before a successful stop of the control register of the chip, no external write after it, and a reset only as the last transfer, after all others were done and every pass over the image has succeeded |
| EzusbLoad.ResetMeansLoaded | ezusb/ezusb.cpp:790-850 | the CPU is reset if and only if it was stopped, every image scanned was accepted and no segment was refused or failed |
| EzusbLoad.EveryTransfer | ezusb/ezusb.cpp:773-849 | in every run: stops and resets go to 0xe600 on the FX2 and FX2LP and to 0x7f92 on the others; data that fits one on-chip range goes out as request 0xA0, other data as 0xA3 |
| EzusbLoad.SingleStageRun | ezusb/ezusb.cpp:790-817 | every single-stage load, successful or not: exactly the segments before the first external one or the first failed transfer are written, and the result says which of the causes ended it |
| EzusbLoad.SingleStageLoad | ezusb/ezusb.cpp:790-817 | a successful single-stage load is a stop, every segment in order, a reset; the image had no external segment, and the bytes sent are the bytes of the image |
| EzusbLoad.SingleStageOnChip | ezusb/ezusb.cpp:790-817 | no single-stage load, successful or not, of any image type for any chip sends a byte outside on-chip RAM |
| EzusbLoad.TwoStageLoad | ezusb/ezusb.cpp:800-850 | a successful two-stage HEX load is the external segments, a stop, the on-chip segments, a reset; each segment once; the memory its transfers leave is that of a single pass under the exact condition above |
| EzusbLoad.SingleStageRecords | ezusb/ezusb.cpp:286-395 | a successful single-stage HEX load sends every byte to the address its record gives it, in file order, if and only if no record with data meets a stale address |
| EzusbLoad.TwoStageRecords | ezusb/ezusb.cpp:800-850 | a successful two-stage load of a file without stale addresses leaves the memory of its records under the exact condition above |
| EzusbLoad.TwoStageTotals | ezusb/ezusb.cpp:843-846 | the counters are then the segments and bytes of the image |
| EzusbLoad.SecondPassSyntax | ezusb/ezusb.cpp:819-841 | a load that ends with the code of a syntax error has not reached the CPU: the second pass never finds one |
| EzusbLoad.TwoStageIic | ezusb/ezusb.cpp:819-841 | no two-stage load of an IIC image succeeds or resets the CPU, because the second pass reads it as Intel HEX; if its first pass and the stop succeed, the CPU is left stopped |
| EzusbLoad.TwoStageOther | ezusb/ezusb.cpp:819-841 | the same for BIX images that do not begin as Intel HEX |
| EzusbLoad.IicFileReachesChip | ezusb/ezusb.cpp:762-817 | an IIC file, from its 8-byte header to its 5-byte trailer: a single-stage load succeeds if and only if the stop, every block, all of them on-chip, and the reset go through, and has then sent every byte to its address |
| EzusbLoad.IicForOtherChip | ezusb/ezusb.cpp:762-771 | a file without the header of the chip is rejected without a transfer |
| EzusbLoad.BixFileReachesChip | ezusb/ezusb.cpp:413-435 | a BIX file: a single-stage load succeeds if and only if the file fits the on-chip RAM at address 0 and all transfers go through, and has then sent every byte to its own offset |
| EzusbFx3.LoadRam | ezusb/ezusb.cpp:590-726 | result and log are those of header check, version read, sections, memory for them, checksum and jump, against any device and allocator |
| EzusbFx3.LoadSections | ezusb/ezusb.cpp:649-721 | reading, summing and writing section by section comes to parsing all of them first |
| EzusbFx3.WriteSection | ezusb/ezusb.cpp:682-706 | writes, reads back and compares the chunks of a section until one fails |
| EzusbFx3.AddWords | ezusb/ezusb.cpp:677-678 | the running sum is taken modulo 2^32 |
| EzusbFx3.SentMeansVerified | ezusb/ezusb.cpp:682-701 | no failure means that every chunk was read back equal |
| EzusbFx3.ChunksTile | ezusb/ezusb.cpp:682-706 | the chunks hold the bytes of a section at their addresses, at most 4096 each |
| EzusbFx3.SectionSentWhole | ezusb/ezusb.cpp:679-706 | a section is sent whole if and only if its byte count fits 32 bits |
| EzusbFx3.JumpOnlyAfterVerifying | ezusb/ezusb.cpp:649-721 | a jump, or success, implies that all sections were sent and read back equal and the word behind the last of them is the sum of all their words modulo 2^32; the jump is last and goes to the entry in the empty section |
| EzusbFx3.FileLoads | ezusb/ezusb.cpp:606-721 | a whole file, on any device: the result is 0 if and only if every chunk is written and read back equal, the trailer is the sum of all words of the sections modulo 2^32, and the jump is taken; the jump is made if and only if the first two hold, and a wrong trailer gives -7 |
| EzusbFx3.FileBreaksOff | ezusb/ezusb.cpp:651-675 | a file that ends inside a section, or a section without memory: what lies before is sent, then -3 or -4 and no jump |
| EzusbFx3.SendingFails | ezusb/ezusb.cpp:686-701 | the first chunk that does not go through gives -5 for a failed transfer and -6 for other bytes read back |
| EzusbFx3.ChecksumMeans | ezusb/ezusb.cpp:677-716 | for any file, the check is that the word behind the entry is the sum of all words, low bytes first, modulo 2^32 |
| EzusbFx3.ChunkAt | ezusb/ezusb.cpp:682-706 | chunk i has the 4096 bytes from 4096 i on, or what is left of them, and a 32-bit address |
| EzusbFx3.VersionFirst | ezusb/ezusb.cpp:639-646 | asked for, the version is read first, four bytes at 0xFFFF0020; a failure gives -8 |
| EzusbFx3.OtherHeader | ezusb/ezusb.cpp:606-637 | a file that is not CY with type 0xB0 gives -3 and no transfer |
| EzusbFx3.SectionsRoundTrip | ezusb/ezusb.cpp:652-675 | any list of sections, encoded with an entry, is read back, whatever follows, if there is memory for each |
| EzusbFx3.SectionBytes | ezusb/ezusb.cpp:652-672 | the bytes of a section: number of words and address, low byte first, then the data |
| Getopt.OptionParser.Fetch | xgetopt/XGetopt.cpp:161-195 | keeps what is still to be found, or ends with optind and optarg at the first unconsumed word |
| Getopt.OptionParser.Next | xgetopt/XGetopt.cpp:158-223 | returns the first option still to be found and leaves the others, one step nearer the end; EOF exactly when there is none |
| Getopt.OptionParser.Run | xgetopt/XGetopt.cpp:106-223 | calls up to EOF terminate and see the recursive parse of the words; optind and optarg are then at the first operand, or NULL |
| Getopt.LetterWithColon | xgetopt/XGetopt.cpp:197-220 | a letter with a colon behind its first place in the option string takes the rest of its word, or the next word, as its argument, and gives ? if there is neither |
| Getopt.LetterWithoutColon | xgetopt/XGetopt.cpp:197-222 | a letter without one takes none, and the letters behind it follow |
| Getopt.UnknownLetter | xgetopt/XGetopt.cpp:200-201 | a letter that is not in the option string, or a colon, gives ?, and the letters behind it follow |
| Getopt.EndOfOptions | xgetopt/XGetopt.cpp:175-190 | two dashes end the options and are taken; a single dash, an empty word or one without a dash ends them and is not |
| Getopt.ClusterLaw | xgetopt/XGetopt.cpp:74-75 | "-xR" and "-x" "-R", anywhere behind complete options, give the same results, one word apart, if and only if x is no dash and takes no argument and R is neither empty nor a dash |
| Getopt.SplitCluster | xgetopt/XGetopt.cpp:74-75 | the same at the front of the arguments |
| Getopt.ParseConcat | xgetopt/XGetopt.cpp:168-222 | behind complete options the parse starts afresh |
| Getopt.SplitArgument | xgetopt/XGetopt.cpp:68-72 | an argument may follow its letter in the same word or in the next |
| LinkKeys.LinkKeyDatabase.Add | windows/visual_studio/hci_test/hci_test/hci/link_key_database.cpp:8-11 | adds a pair, never replaces one |
| LinkKeys.LinkKeyDatabase.Retrieve | windows/visual_studio/hci_test/hci_test/hci/link_key_database.cpp:18-21 | the stored key; an absent address is added with the zero key |
| LinkKeys.LinkKeyDatabase.LoadFromFile | windows/visual_studio/hci_test/hci_test/hci/link_key_database.cpp:23-52 | forgets the old contents, then holds the pairs of the file, if it could be opened; pairs that are announced but missing come from whatever the variables held |
| LinkKeys.LinkKeyDatabase.StoreToFile | windows/visual_studio/hci_test/hci_test/hci/link_key_database.cpp:54-79 | the file is determined by the map: a count and 22 bytes for each pair, in address order |
| LinkKeys.RoundTrip | windows/visual_studio/hci_test/hci_test/hci/link_key_database.cpp:23-79 | store, then load gives the database back if and only if it has fewer than 65536 entries, whatever the variables held |
| LinkKeys.LoadStored | windows/visual_studio/hci_test/hci_test/hci/link_key_database.cpp:23-79 | for any size, loading gives the pairs the 16-bit count still counts, the first in address order |
| LinkKeys.InOrderSorted | windows/visual_studio/hci_test/hci_test/hci/link_key_database.cpp:71-75 | the addresses are written in ascending order |
| LinkKeys.FirstDifferenceDecides | windows/visual_studio/hci_test/hci_test/hci/link_key_database.cpp:71-75 | this order is that of byte arrays: the first byte that differs decides |
| LinkKeys.StoredBytes | windows/visual_studio/hci_test/hci_test/hci/link_key_database.cpp:67-75 | the bytes of a stored file: two for the number of pairs, low byte first, then 6 of address and 16 of key for each pair |
| LinkKeys.FirstEntryCounts | windows/visual_studio/hci_test/hci_test/hci/link_key_database.cpp:40-49 | of pairs with the same address the first one counts |
| LinkKeys.LinkKeyDatabase.RunAll | windows/visual_studio/hci_test/hci_test/hci/link_key_database.cpp:3-21 | calls in any order leave the database that the operations, performed on a map, leave |
| LinkKeys.KeyAfterRun | windows/visual_studio/hci_test/hci_test/hci/link_key_database.cpp:8-21 | over any run, an address holds the key of its first add since its last removal, looking up an absent one being an add of zeros |
| LinkKeys.WithoutRemove | windows/visual_studio/hci_test/hci_test/hci/link_key_database.cpp:8-21 | without a removal a key never changes |
| PacketLog.WritePacket | apple_pklg/pklg.cpp:106-165 | appends one record and nothing else |
| PacketLog.WrittenBytes | apple_pklg/pklg.cpp:106-134 | the bytes of a record: length and time stamp, high byte first, type, payload |
| PacketLog.ReadHeader | apple_pklg/pklg.cpp:9-51 | three big-endian fields from wherever the stream is, short ones filled with zeros; accepted by length and type |
| PacketLog.ReadPacket | apple_pklg/pklg.cpp:69-103 | one record is read or refused, with the length its header declares, and the stream moves on accordingly |
| PacketLog.AnyRecord | apple_pklg/pklg.cpp:9-103 | any record, from whichever writer: refused if and only if its length is not 8 to 65535 or its type neither below 4 nor 0xFB, 0xFC, 0xFE or 0xFF; otherwise its own time stamp and type, and the payload its length says, as far as it is there |
| PacketLog.TruncatedHeader | apple_pklg/pklg.cpp:9-103 | a stream that ends inside a header gives a packet without payload if the bytes that are there, with zeros for the others, make a length of 8 to 65535 |
| PacketLog.FirstPacket | apple_pklg/pklg.cpp:9-134 | a written packet is read back if and only if its time stamp is zero, its type one the reader knows and its payload within the buffer |
| PacketLog.StreamRoundTrip | apple_pklg/pklg.cpp:67-134 | a stream of written packets is read back as the same list if and only if each of them survives, and the next read finds the end of the stream |
| PacketLog.EndOfStream | apple_pklg/pklg.cpp:9-46 | at the end of the stream a read reports no packet and marks the stream as failed |
| PacketLog.ReadAll | apple_pklg/pklg.cpp:67-68 | reading until nothing comes terminates on any stream |

## Left out

- SdpPrinter.SerializeSimple: of a text copied past the array, and of a dummy shifted by 32 bits or more, only that the run is `Undefined`.
- SdpPrinter.SerializeSequence: the queue holds references; the code holds copies, whose children are the same objects.
- SdpParser.Deserialize: the data has a length here, and a count or index that would wrap ends the run; the code has neither test. `root` is a fresh element, as with all callers, and its parent is null, which `reset` intends but does not write.
- SdpReference.Decode: size descriptor 7, for which the standard has four length bytes and the code three; `SdpParser.ReadHeader` has the code's reading.
- Dumping and printing of elements, and the fields for booleans and URLs, which neither parser nor printer uses.
- EzusbText.LineOf: what a line without proper digits is taken for is a parameter. In the code it depends on what the buffer held and on signs and prefixes that `strtoul` accepts; a length beyond 255 that a sign would give is not modelled. The code checks no check sum, and neither does the model.
- EzusbRam.RamPokeContext.RamPoke: one attempt. The retry loop never repeats, because a write returns only 0 or -1, and never a time-out code.
- EzusbRam.Device.EzusbWrite: here and in `EzusbFx3` a transfer is done in full or fails; short transfers that report no error are not modelled.
- EzusbLoad.LoadRam: a line without proper digits is taken for the same in both passes. Opening, rewinding and closing the file is left out.
- EzusbRam.Device.EzusbCpucs: the byte that is sent, 1 to stop and 0 to reset, is a flag of the transfer.
- EzusbLoad.TwoStageLoad: HEX images. `EzusbLoad.TwoStageOther` has the others, except BIX images that begin as Intel HEX.
- Getopt.OptionParser.Run: calls after the first `EOF`.
- LinkKeys.LinkKeyDatabase.LoadFromFile: uninitialised bytes are a parameter, one for each position in the file. The count is little-endian, as on the machines the code is built for.
- LinkKeys.LinkKeyDatabase.StoreToFile: a file that cannot be opened for writing.
- PacketLog.ReadPacket: the packet is returned where the code calls a callback; of a payload that ends early the packet holds the bytes that are there, not the uninitialised rest of the buffer. Reading more bytes than the buffer holds is `Overrun`.
- The variant of `ezusb.cpp` under `windows/`, `main.c`, the USB device files, the tables of `hci.cpp`, `usb-human-name.cpp` and the L2CAP and SPP files: foreign calls, constants and copies.
- All logging and console output.
