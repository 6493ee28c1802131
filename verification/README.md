# Verified model of the JSON engine, queue, buffer, channel and address code

A Dafny model of six parts of the switch, with proofs over all their inputs, runs
and reachable states.

- **JSON diff, patch and merge** (`src/cJSON_Utils.c`): JSON Pointer, JSON Patch and
  JSON Merge Patch, their generators, and the merge sort on a doubly linked list.
  Modules `Keys`, `Trees`, `Sorting`, `ItemLists`, `Pointers`, `Unescaping`,
  `Comparing`, `Patching`, `PatchLaws`, `Generating`, `Diffing`, `DiffLimits`,
  `Merging`, `MergePatches`, `MergeDiffing`, `MergeWalks`.
- **JSON parser, printer and minifier** (`src/cJSON.c`): `JsonStrings`, `StringForms`,
  `StringReading`, `Rendering`, `Parsing`, `JsonForms`, `JsonTexts`, `ParseBuffers`,
  `RoundTrips`, `Reparsing`, `PrintBuffers`, `Printing`, `Minifying`, `MinifyLaws`,
  `MinifyPieces`, `MinifyTrees`. `StringForms` and `JsonTexts` describe the accepted
  texts by how they are written, without the parser.
- **Blocking queue** (`src/switch_apr_queue.c`, with the retry loops of
  `src/switch_apr.c`): `Rings`, `BlockingQueue`, `QueueSafety`, `QueueHistory`,
  `QueueClosing`, `QueueRuns`, `QueueOutcomes`. A step system: each section under the mutex is one
  step, and so is each look at the terminated flag outside it. Threads run, sleep,
  are woken (also spuriously) or time out, in any order.
- **Media byte buffer** (`src/switch_buffer.c`): `MediaBuffers`, `Tapes`.
- **Channel lifecycle and device records** (`src/switch_channel.c`): `Channels`,
  `ChannelStory`, `ChannelRaces`, `Devices`, `DeviceTables`.
- **Address parser** (`src/inet_pton.c`): `Fields`, `Addresses`, `InetPton`,
  `AddressForms`, `AddressTexts`.
- `Bytes` and `Digits` hold what several parts need.

Code that changes memory step by step is modelled that way: classes with fields,
methods with loops, arrays written in place. Each such method is proved against a
specification function, and the theorems are about those functions. The step systems
(queue, device table, channel) are state functions with theorems over all runs.

`dafny verify dfyconfig.toml` checks everything.

## Where the code and its description differ

- `inet_pton6`: the comment says a `::` in a full address is silently ignored. The shift
  loop then moves every byte onto itself and zeroes it, so all bytes after the `::` are
  lost (`AddressForms.GapInFullAddress`).
- `inet_pton6` accepts more than section 2.2 of RFC 4291 allows: a single colon behind the
  last group, and groups of more than four digits. `AddressForms.AcceptedExactly` gives the
  texts it accepts, `AddressForms.StandardExactly` which of them are forms of the standard.
- `cJSON_Minify` looks for a backslash before a quote, not for an escaped backslash.
  `MinifyTrees.MinifyFormatted` says for exactly which trees this does no harm.
- `encode_string_as_pointer` and `decode_pointer_inplace` do not do what sections 3 and 4
  of RFC 6901 ask for keys with a tilde or slash. `Pointers.EncodeFindsKey` and
  `Unescaping.UnescapeExactly` say for exactly which keys and tokens they do;
  `DiffLimits.TildeKeyFails` is a patch that does not apply because of it. The comparison
  with member names does what the standard asks (`Pointers.TokenNames`).
- `decode_array_index_from_pointer` tests only the lower bound of the digits, so some tokens
  that are no index in section 4 of RFC 6901 are read as one (`Pointers.IndexExactly`).
- `apply_patch` takes the item out before it knows whether the rest succeeds. Section 5 of
  RFC 6902 asks for nothing to change; `PatchLaws.FailedOperation` says exactly when that
  is so.
- `parse_hex4` answers zero both for `0000` and for characters that are no digits, so `\u`
  in front of anything but a surrogate half is accepted, and a NUL ends the string
  (`StringForms.DecodeExactly`). Blanks are all characters up to the space
  (`JsonTexts.ParseExactly`), more than section 2 of RFC 8259 names.
- Raw items are never compared (`DiffLimits.RawUnseen`).
- `detach_path` looks members up ignoring case whatever it is told
  (`DiffLimits.DetachExactly`, `DiffLimits.CaseClashFails`).
- `generate_merge_patch` walks with `strcmp` over a list that may be sorted ignoring case
  and recurses into the case-insensitive form. `MergeWalks.MergeDiffExactly` says for which
  trees the patch still leads to the wanted tree; `MergeDiffing.MixedCaseFails` is one
  where it does not.
- `switch_channel_perform_hangup` looks at the state outside the mutex, and
  `switch_channel_perform_mark_answered` looks at cause and state without one. When each
  call is one step the end of life is final (`Channels.EndOfLife`); between the sections a
  channel can move back (`ChannelRaces.MovesBackExactly`) and an answer can be recorded
  after the end (`ChannelRaces.AnsweredAfterEnd`).
- `process_device_hup` called twice for one leg takes a reference that is not there
  (`DeviceTables.HangupOnce`), and takes the record of a later call on the same device out
  of the table (`DeviceTables.SecondHangupHides`).

## Parameters of the model

- `NumberIo` is the C library's conversion between numbers and text. `Rendering.ReadsBack`
  is the property the 15- and 17-digit forms are chosen for; the round trip asks it of the
  numbers in the tree.
- `Pointers.Memory` is what a fresh block of memory holds, byte by byte, where
  `encode_string_as_pointer` does not write. The generator finds the same in every block.
- The thread a signal wakes, spurious wakeups and timeouts are choices of the run.
- What an endpoint answers to a request is a parameter of `Channels.Answer`.
- Characters are Dafny characters, which include all bytes; comparisons are by code.

## Model

| member | source | states |
|---|---|---|
| `Keys.CompareStrings` | src/cJSON_Utils.c:77-103 | the loop returns the sign of the lexicographic order of the two keys, folded to lower case unless case matters |
| `Keys.LexZero` | src/cJSON_Utils.c:77-103 | the comparison is zero exactly on equal (folded) keys |
| `Keys.LexAntisymmetric` | src/cJSON_Utils.c:77-103 | swapping the keys swaps the sign |
| `Keys.LexTransitive` | src/cJSON_Utils.c:77-103 | the order on keys is transitive, so sorting by it makes sense |
| `Keys.LexOrders` | src/cJSON_Utils.c:77-103 | it is dictionary order: a common beginning does not matter, the first difference decides, and a word comes before its continuations |
| `Keys.LowerLetters` | src/cJSON_Utils.c:90-100 | folding turns each capital into its small letter and leaves every other character |
| `Sorting.MergePermutes` | src/cJSON_Utils.c:514-572 | merging keeps exactly the elements of both lists |
| `Sorting.MergeAscends` | src/cJSON_Utils.c:514-572 | merging two ascending lists gives an ascending one |
| `Sorting.StrictAscends` | src/cJSON_Utils.c:478-487 | a list accepted by the early exit is ascending |
| `Sorting.SortPermutes` | src/cJSON_Utils.c:464-573 | sorting keeps exactly the elements |
| `Sorting.SortAscends` | src/cJSON_Utils.c:464-573 | sorting gives non-decreasing keys, for every list |
| `ItemLists.IsStrict` | src/cJSON_Utils.c:478-487 | the scan of the linked list finds out whether the keys strictly increase |
| `ItemLists.FindMiddle` | src/cJSON_Utils.c:489-501 | the two walking pointers stop at the node in the middle |
| `ItemLists.Cut` | src/cJSON_Utils.c:502-507 | splitting leaves two well-formed doubly linked lists |
| `ItemLists.MergeLists` | src/cJSON_Utils.c:514-572 | relinking merges two lists into the merged list: next and prev inverse, head without prev, no other node touched |
| `ItemLists.SortList` | src/cJSON_Utils.c:464-573 | on every well-formed list the in-place sort ends with a well-formed list of the same nodes in sorted order; a strictly sorted list is left alone |
| `ItemLists.Parent.AddItem` | src/cJSON.c:1855-1882 | appending puts the item last; the list stays well formed exactly when the links of the item that the code does not write were clear |
| `ItemLists.Parent.Unlink` | src/cJSON.c:2082-2110 | unlinking a node removes exactly that node and clears its links |
| `ItemLists.Parent.DetachItem` | src/cJSON_Utils.c:377-407 | detaches the item at the index, or nothing when the list is too short |
| `ItemLists.Parent.InsertItem` | src/cJSON_Utils.c:673-708 | inserts in front of the index, appends at the end, refuses beyond it; only an append depends on the links the item had |
| `Pointers.ComparePointers` | src/cJSON_Utils.c:106-140 | a name matches a pointer token, with the escapes the loop knows, as the token matcher says |
| `Pointers.PointerEncodedLength` | src/cJSON_Utils.c:143-156 | the length computed first is the length of the encoding |
| `Pointers.EncodeStringAsPointer` | src/cJSON_Utils.c:159-181 | what the encoder leaves in the buffer over any old contents, including the bytes it does not write, and the NUL behind it |
| `Pointers.EncodeFindsKey` | src/cJSON_Utils.c:159-181 | over any old contents of the buffer, the encoded key leads back to the key exactly when it has no tilde and each byte skipped in front of a slash was a tilde |
| `Pointers.ComposedFindsKey` | src/cJSON_Utils.c:1096-1101 | in a composed path, where the encoder begins on the NUL of the text in front, the same but for keys that begin with a slash, which are always lost |
| `Pointers.TokenNames` | src/cJSON_Utils.c:106-140 | a token with valid escapes matches exactly the name that sections 3 and 4 of RFC 6901 make of it |
| `Pointers.DecodeArrayIndex` | src/cJSON_Utils.c:258-283 | the loop reads a decimal index without leading zero that fills the token, wrapping like size_t |
| `Pointers.IndexRoundTrip` | src/cJSON_Utils.c:258-283 | the text of an index reads back as that index |
| `Pointers.IndexExactly` | src/cJSON_Utils.c:258-283 | a token is read as an index exactly when it is one in section 4 of RFC 6901, or empty, or a digit from 1 to 9 followed by characters from 0 upwards of which one is above 9 |
| `Pointers.IndexValue` | src/cJSON_Utils.c:258-283 | an index text stands for its number, modulo the size of size_t |
| `Pointers.GetItemFromPointer` | src/cJSON_Utils.c:285-330 | the loop follows the path token by token, in arrays and objects |
| `Pointers.GetAfterPut` | src/cJSON_Utils.c:285-330 | looking up a path after replacing what is there finds the replacement |
| `Pointers.PutAfterPut` | src/cJSON_Utils.c:285-330 | the later of two replacements at a path wins and changes nothing else |
| `Pointers.WalkConcat` | src/cJSON_Utils.c:285-330 | following a longer path is following its parts one after the other |
| `Pointers.DecodePointerInplace` | src/cJSON_Utils.c:343-374 | the in-place loop leaves the string the specification says |
| `Unescaping.UnescapeExactly` | src/cJSON_Utils.c:343-374 | a token with valid escapes is decoded as section 4 of RFC 6901 asks exactly when it has no ~1 and every ordinary character is the same as the one as many places before it as there were escapes so far |
| `Comparing.SortMembers` | src/cJSON_Utils.c:575-582 | sorting an object keeps its members |
| `Comparing.SortedFields` | src/cJSON_Utils.c:575-582 | sorting an object does not change its meaning, and puts distinct keys in order |
| `Comparing.CompareTrees` | src/cJSON_Utils.c:584-670 | the recursive comparison with its loops decides as the comparison function |
| `Comparing.CompareDenotes` | src/cJSON_Utils.c:584-670 | two trees compare equal exactly when they mean the same JSON value, member order aside; ignoring case, for all keys that stay distinct |
| `Patching.Document.DetachPath` | src/cJSON_Utils.c:410-461 | takes the item at a path out of the document, or leaves the document alone |
| `Patching.Document.Apply` | src/cJSON_Utils.c:787-1014 | one patch: its status and the new document, for every operation and every error |
| `Patching.Document.Operate` | src/cJSON_Utils.c:811-1002 | the operations themselves, with all status codes |
| `Patching.Document.ApplyPatches` | src/cJSON_Utils.c:1016-1072 | patches are applied in order up to the first that fails |
| `Patching.ApplyAllConcat` | src/cJSON_Utils.c:1016-1072 | applying two lists of patches after each other is applying their concatenation |
| `Patching.TestDecides` | src/cJSON_Utils.c:811-816 | a test succeeds exactly when the item is there and means the value given, and never changes the document, for either case mode |
| `PatchLaws.AddToArray` | src/cJSON_Utils.c:966-981 | section 4.1 of RFC 6902: adding at an index inserts exactly up to the end of the array, everything else in place; beyond it the status is 10 and nothing changes |
| `PatchLaws.AppendToArray` | src/cJSON_Utils.c:959-965 | adding at "-" appends |
| `PatchLaws.RemoveFromArray` | src/cJSON_Utils.c:866-883 | removing at an index takes exactly that element, and fails with status 13 when there is none |
| `PatchLaws.ReplaceInArray` | src/cJSON_Utils.c:866-883 | replacing at an index sets that element and no other, and fails with status 13 when there is none |
| `PatchLaws.AddToObject` | src/cJSON_Utils.c:983-995 | adding under a name sets the value of that name and of no other, whether or not it was there |
| `PatchLaws.RemoveFromObject` | src/cJSON_Utils.c:410-461 | removing under a name that clashes with no other takes it out, and fails with status 13 when it is not there |
| `PatchLaws.AddRefused` | src/cJSON_Utils.c:940-1002 | the status of every addition below the root, from what the parent is and what the last token says; a refused one changes nothing |
| `PatchLaws.MovesFromArray` | src/cJSON_Utils.c:885-921 | a move from an index fails with status 5 when there is none, and otherwise adds that element to the document without it |
| `PatchLaws.CopiesFromArray` | src/cJSON_Utils.c:885-921 | a copy from an index fails with status 5 when there is none, and otherwise adds that element |
| `PatchLaws.FailedOperation` | src/cJSON_Utils.c:787-1014 | a failing operation leaves the document as it was exactly when it had detached nothing; a failed move and a replacement without a value lose the item |
| `Generating.WritePath` | src/cJSON_Utils.c:1096-1101 | the path of a child as it comes out of fresh memory; a key that needs no escape is one more token |
| `Generating.PatchArray.ComposePatch` | src/cJSON_Utils.c:1074-1112 | the operation appended is read back by the interpreter as that operation, on every document and in either case mode, and its path leads to the child of that key |
| `Generating.PatchArray.CreatePatches` | src/cJSON_Utils.c:1119-1257 | the loops append exactly the operations of the difference |
| `Generating.PatchArray.ComparePairs` | src/cJSON_Utils.c:1148-1191 | the three loops over two arrays |
| `Generating.PatchArray.MergeWalk` | src/cJSON_Utils.c:1193-1252 | the merge walk over two sorted objects |
| `Diffing.ComposeApplies` | src/cJSON_Utils.c:1074-1112 | a composed operation is read back as the operation it was made from |
| `Diffing.DiffApplies` | src/cJSON_Utils.c:1119-1257 | at any path inside a document, the difference of two trees applied there turns the first into the second and leaves the rest |
| `Diffing.ItemsApply` | src/cJSON_Utils.c:1148-1191 | the operations for two arrays turn one into the other |
| `Diffing.MembersApply` | src/cJSON_Utils.c:1193-1252 | the operations for two objects turn one into the other, as maps |
| `Diffing.DiffOfEqual` | src/cJSON_Utils.c:1119-1257 | documents of the same value give no operations, whatever their member order, in either case mode |
| `Diffing.DiffThenApply` | src/cJSON_Utils.c:1119-1287 | diff then apply, with and without case: status 0 and the wanted document up to member order, for all trees whose keys stay distinct in that mode, in which the keys that operations name can stand in a path and the keys that are taken out clash with no other in case |
| `Diffing.EmptyDiff` | src/cJSON_Utils.c:1119-1287 | no operations are generated exactly when the two documents mean the same, with and without case |
| `DiffLimits.TildeKeyFails` | src/cJSON_Utils.c:159-181 | a key with a tilde: the generated patch does not apply |
| `DiffLimits.CaseClashFails` | src/cJSON_Utils.c:410-461 | two keys equal but for case: the patch applies and removes the wrong one |
| `DiffLimits.DetachExactly` | src/cJSON_Utils.c:446-450 | detaching a member takes exactly that member out if and only if no earlier key equals it when case is ignored |
| `DiffLimits.RawUnseen` | src/cJSON_Utils.c:584-670 | two raw items compare equal and give no operation, whatever their texts |
| `Merging.MergeTwice` | src/cJSON_Utils.c:1299-1356 | the merge function of section 2 of RFC 7396: merging the same patch twice is merging it once |
| `Merging.MergeDifference` | src/cJSON_Utils.c:1368-1444 | the difference of two values merges back exactly when a merge patch can get there at all |
| `Merging.MergedIsReachable` | src/cJSON_Utils.c:1299-1356 | whatever merging produces is reachable |
| `Merging.DifferenceIsComplete` | src/cJSON_Utils.c:1368-1444 | if any patch leads from one value to another, the difference does |
| `MergePatches.ApplyMergePatch` | src/cJSON_Utils.c:1299-1356 | the recursive method with its loop over the patch |
| `MergePatches.MergePatchDenotes` | src/cJSON_Utils.c:1299-1356 | on trees with distinct keys merge_patch is the MergePatch function of section 2 of RFC 7396, objects read as maps |
| `MergePatches.MergePatchTwice` | src/cJSON_Utils.c:1299-1356 | applying a merge patch twice is applying it once |
| `MergeDiffing.GenerateMergePatch` | src/cJSON_Utils.c:1368-1444 | the generator with its merge walk |
| `MergeDiffing.WalkChildren` | src/cJSON_Utils.c:1389-1435 | the loop over two sorted objects |
| `MergeDiffing.GenerateDenotes` | src/cJSON_Utils.c:1368-1454 | a generated patch means the difference of the two values; none is generated only for equal ones |
| `MergeWalks.WalkMerges` | src/cJSON_Utils.c:1389-1435 | every key ends up as the walk over the two key lists says: patched in place, removed, written whole, or lost |
| `MergeWalks.MergeDiffExactly` | src/cJSON_Utils.c:1299-1454 | for all keys that stay distinct when case is ignored: NULL only when the trees are equal; otherwise the patch leads to the wanted tree exactly when no common key is added before it is deleted and no null has to be written |
| `MergeWalks.MergeDiffThenMerge` | src/cJSON_Utils.c:1299-1454 | where the walk stays in step, the patch leads to the wanted tree exactly when some merge patch does |
| `MergeWalks.UniformInStep` | src/cJSON_Utils.c:1396-1428 | the walk stays in step on keys whose order does not depend on case |
| `MergeDiffing.LowerCaseUniform` | src/cJSON_Utils.c:1396-1428 | such are all keys without upper-case letters |
| `MergeDiffing.MixedCaseFails` | src/cJSON_Utils.c:1396-1428 | with mixed case the strcmp walk and the case-insensitive order disagree: a patch that deletes what it should keep |
| `JsonStrings.Utf8ReadsBack` | src/cJSON.c:647-696 | the UTF-8 form of every code point reads back as it, section 3 of RFC 3629 |
| `StringForms.Hex4Reads` | src/cJSON.c:547-580 | the four digits of a number, each in either case, read as it |
| `StringForms.CoversDecode` | src/cJSON.c:751-809 | every sequence of units decodes to their meanings: a character by itself, a backslash and a letter of the table of section 7 of RFC 8259, a code point as one or two \u escapes in digits of either case |
| `StringForms.DecodeExactly` | src/cJSON.c:751-809 | the second pass succeeds exactly on what is made of units, counting the one lenient unit the code adds: \u in front of four characters that are no digits, read as NUL |
| `StringForms.BadLetter` | src/cJSON.c:786-806 | any other letter behind a backslash is an error |
| `StringForms.LoneSurrogate` | src/cJSON.c:584-645 | a low surrogate by itself is an error, and so is a high one without a low one behind it |
| `StringForms.StringReads` | src/cJSON.c:705-831 | every string form of section 7 of RFC 8259, wherever it stands, reads as the characters its units mean, up to the first NUL, and the offset ends behind it |
| `StringForms.UnitsPrinted` | src/cJSON.c:834-953 | what escaping writes for any string is such a form, and means that string |
| `StringForms.QuoteReadsBack` | src/cJSON.c:705-953 | a printed string reads back wherever it stands |
| `StringForms.ReadsStringText` | src/cJSON.c:705-831 | whether and as what a string is read depends on nothing outside its quotes |
| `StringForms.StringTextExactly` | src/cJSON.c:705-831 | the texts read as a string are exactly those between quotes in which the first pass sees no quote and units make up the whole, lenient ones included |
| `StringReading.ParseHex4` | src/cJSON.c:547-580 | four hexadecimal digits, or zero |
| `StringReading.ReadUtf16` | src/cJSON.c:584-645 | one or two sequences to a code point, with every failure |
| `StringReading.WriteUtf8` | src/cJSON.c:647-698 | the bytes written last to first are the UTF-8 form |
| `StringReading.ScanString` | src/cJSON.c:718-741 | the first pass finds the closing quote and counts the escapes |
| `StringReading.FitsReserved` | src/cJSON.c:742-806 | wherever the second pass stands, what it has written is within what the first pass reserved, even when a bad escape makes them disagree |
| `StringReading.LiteralFits` | src/cJSON.c:791-804 | six characters leave room for three bytes and twelve for four, whatever the first pass saw in them |
| `StringReading.DecodeTurn` | src/cJSON.c:753-806 | one turn of the second pass on any text: it stays inside the array and decodes one unit |
| `StringReading.DecodeString` | src/cJSON.c:751-809 | on every text the second pass stays inside the reserved array; it succeeds exactly when the string decodes, and leaves it with a NUL |
| `Rendering.RenderFirst` | src/cJSON.c:1274-1345 | rendered text begins with a visible character that is no separator |
| `Rendering.ArrayLayout` | src/cJSON.c:1442-1501 | an array is its elements between brackets, joined by a comma, and a space when formatted |
| `Rendering.ObjectLayout` | src/cJSON.c:1613-1724 | a formatted object is one line per member, indented once more than its braces, a comma behind each but the last |
| `Rendering.CompactLayout` | src/cJSON.c:1613-1724 | an unformatted one is its members joined by commas, with no blanks of its own |
| `Rendering.TabsOnly` | src/cJSON.c:1642-1655 | the indentation is that many tabs |
| `Parsing.ParseValue` | src/cJSON.c:1219-1271 | a value read ends before the terminator, and something was read |
| `Parsing.ParseItems` | src/cJSON.c:1380-1420 | elements read end before the terminator |
| `Parsing.ParseMembers` | src/cJSON.c:1534-1592 | members read end before the terminator |
| `ParseBuffers.ParseBuffer.SkipWhitespace` | src/cJSON.c:970-988 | the loop and its step back never leave the text |
| `ParseBuffers.ParseBuffer.ReadNumber` | src/cJSON.c:273-347 | the copy loop takes the longest run of number characters, at most 63 |
| `ParseBuffers.ParseBuffer.ReadString` | src/cJSON.c:705-831 | the two passes on the buffer |
| `ParseBuffers.ParseBuffer.ReadValue` | src/cJSON.c:1219-1271 | dispatch on the first character; depth is restored on success |
| `ParseBuffers.ParseBuffer.ReadArray` | src/cJSON.c:1348-1439 | the nesting limit, the empty array, the elements |
| `ParseBuffers.ParseBuffer.ReadItems` | src/cJSON.c:1380-1420 | the loop over comma-separated elements |
| `ParseBuffers.ParseBuffer.ReadObject` | src/cJSON.c:1504-1610 | the nesting limit, the empty object, the members |
| `ParseBuffers.ParseBuffer.ReadMembers` | src/cJSON.c:1534-1592 | the loop over comma-separated members |
| `ParseBuffers.ParseText` | src/cJSON.c:1007-1083 | byte order mark, value, and the demand that nothing follows |
| `JsonForms.FormReads` | src/cJSON.c:1219-1592 | every spelling of a value, with any blanks where section 2 of RFC 8259 allows them and any spelling of its strings and numbers, at any place and depth, reads as the value exactly when the nesting fits |
| `JsonTexts.DocumentReads` | src/cJSON.c:1007-1083 | the same for a whole text with an optional byte order mark and blanks around the value |
| `JsonTexts.ParseHasDocument` | src/cJSON.c:1007-1083 | every accepted text is such a document |
| `JsonTexts.ParseExactly` | src/cJSON.c:1007-1083 | so the accepted texts are exactly the documents nested at most 1000 deep |
| `RoundTrips.Printed` | src/cJSON.c:1274-1345 | printed text is a spelling of its tree, formatted or not |
| `RoundTrips.PrintThenParse` | src/cJSON.c:1007-1083 | print then parse: formatted or not, the tree comes back exactly when it is nested at most 1000 deep, and the offset ends on the terminator |
| `Reparsing.ValuePrintable` | src/cJSON.c:1219-1271 | whatever is read from any text has no NUL in its strings and is nested within the limit |
| `Reparsing.ParsePrintParse` | src/cJSON.c:1007-1083 | every accepted text: its tree, printed in either form, is read again as the same tree, if its numbers are printed so that they read back |
| `PrintBuffers.PrintBuffer.Ensure` | src/cJSON.c:380-465 | room is made exactly when the limit allows it, to twice what is needed or INT_MAX; what was written stays, on both growth paths, and nothing is written behind the length |
| `PrintBuffers.PrintBuffer.UpdateOffset` | src/cJSON.c:468-478 | the offset moves to the NUL behind the text |
| `PrintBuffers.CountEscapes` | src/cJSON.c:861-885 | the count made first is exactly what escaping adds |
| `PrintBuffers.EscapeText` | src/cJSON.c:909-947 | the branches write the escape of the character |
| `PrintBuffers.PrintBuffer.PrintString` | src/cJSON.c:834-953 | the quoted string is there, or there was no room |
| `PrintBuffers.PrintBuffer.PrintNumber` | src/cJSON.c:520-543 | the number text is there and the offset behind it |
| `PrintBuffers.PrintBuffer.PrintValue` | src/cJSON.c:1274-1345 | succeeds exactly when the tree is typed and its text and two characters fit; then the rendered text is there |
| `PrintBuffers.PrintBuffer.PrintArray` | src/cJSON.c:1442-1501 | the same for arrays |
| `PrintBuffers.PrintBuffer.PrintItems` | src/cJSON.c:1465-1489 | the loop over the elements |
| `PrintBuffers.PrintBuffer.PrintObject` | src/cJSON.c:1613-1724 | the same for objects |
| `PrintBuffers.PrintBuffer.PrintMembers` | src/cJSON.c:1640-1704 | the loop over the members |
| `PrintBuffers.RenderNulFree` | src/cJSON.c:1274-1345 | rendered text holds no NUL, so its end can be found |
| `Printing.Print` | src/cJSON.c:1094-1156 | the text of the renderer and a NUL, in an array of that size, for every tree whose text fits an int |
| `Printing.PrintBuffered` | src/cJSON.c:1169-1197 | the same text from any starting size |
| `Printing.PrintPreallocated` | src/cJSON.c:1199-1216 | succeeds exactly when the length given leaves two characters more than the text, and writes nothing behind that length whatever the outcome |
| `Minifying.SkipLine` | src/cJSON.c:2640-2651 | passes a line comment |
| `Minifying.SkipBlock` | src/cJSON.c:2653-2665 | passes a block comment |
| `Minifying.MinifyString` | src/cJSON.c:2667-2687 | carries a string over, up to a quote without a backslash before it |
| `Minifying.Minify` | src/cJSON.c:2689-2735 | the in-place rewriting leaves the minified text and a NUL |
| `MinifyLaws.MinifyTwice` | src/cJSON.c:2689-2735 | minifying twice is minifying once, on any text |
| `MinifyLaws.QuotePasses` | src/cJSON.c:2667-2687 | a printed string passes unchanged, and its closing quote is seen exactly when it does not end in a backslash |
| `MinifyTrees.MinifyFormatted` | src/cJSON.c:2667-2735 | the minified formatted text is the plain text exactly when no key or string ends in a backslash, but for a string with only closing brackets behind it |
| `MinifyTrees.CleanIsHarmless` | src/cJSON.c:2667-2735 | in particular it is for every tree in which no key or string ends in a backslash |
| `MinifyTrees.BackslashThenItem` | src/cJSON.c:2681-2685 | a string ending in a backslash with another item behind it: the two texts differ |
| `MinifyPieces.PiecesMinify` | src/cJSON.c:2640-2735 | in every text made of strings, other characters, blanks and comments, exactly the blanks and comments between the others go |
| `MinifyPieces.LooseEnds` | src/cJSON.c:2640-2720 | a slash by itself goes, and a comment without an end takes the rest |
| `Rings.WrapIsModulo` | src/switch_apr_queue.c:175 | stepping round the array is counting modulo its size |
| `Rings.PutAppends` | src/switch_apr_queue.c:174-176 | storing appends to the contents of the ring |
| `Rings.DropRemoves` | src/switch_apr_queue.c:284-287 | fetching takes the oldest item |
| `Rings.RingQueue.Store` | src/switch_apr_queue.c:174-176 | the array, the index and the count after storing |
| `Rings.RingQueue.Fetch` | src/switch_apr_queue.c:284-287 | the array, the index and the count after fetching |
| `QueueSafety.StoreWaits` | src/switch_apr_queue.c:174-188 | storing keeps the balance of items, sleepers and wakeups |
| `QueueSafety.FetchWaits` | src/switch_apr_queue.c:284-298 | fetching keeps it too |
| `QueueSafety.WaitStep` | src/switch_apr_queue.c:135-440 | every step of every thread keeps it, spurious wakeups and timeouts included |
| `QueueHistory.StoreLedger` | src/switch_apr_queue.c:174-188 | an item stored is reported stored once |
| `QueueHistory.FetchLedger` | src/switch_apr_queue.c:284-298 | an item fetched is the oldest and is reported fetched once |
| `QueueHistory.LedgerStep` | src/switch_apr_queue.c:135-404 | every step keeps stored items equal to fetched items followed by the ring, and reports exact |
| `QueueClosing.BroadcastClosed` | src/switch_apr_queue.c:406-421 | a broadcast leaves nobody asleep |
| `QueueClosing.ClosedStep` | src/switch_apr_queue.c:406-440 | every step keeps what closing promises |
| `QueueRuns.RunHolds` | src/switch_apr_queue.c:135-440 | all of this holds in every state of every run |
| `QueueRuns.RunNeverStuck` | src/switch_apr_queue.c:135-440 | no section ever finds the ring out of bounds |
| `QueueRuns.NoLostWakeup` | src/switch_apr_queue.c:135-363 | while a popper sleeps the queued items are at most the poppers woken, likewise free slots and pushers; the waiter counts are exact |
| `QueueRuns.NoStandstill` | src/switch_apr_queue.c:135-363 | a push and a pop never both sleep with nobody woken |
| `QueueRuns.FirstInFirstOut` | src/switch_apr_queue.c:135-404 | items fetched are a prefix of items stored, the rest is in the ring |
| `QueueRuns.PushExactlyOnce` | src/switch_apr.c:1231-1240 | a push that reported success stored its item once, any other stored nothing, however often it was retried |
| `QueueRuns.PopExactlyOnce` | src/switch_apr_queue.c:244-404 | a pop that reported success took one item, any other none |
| `QueueRuns.UnfinishedStoredNothing` | src/switch_apr.c:1231-1240 | a call still being retried has stored nothing |
| `QueueRuns.NobodySleepsAfterClose` | src/switch_apr_queue.c:423-440 | once term has returned nobody is asleep in that or any later state |
| `QueueRuns.LateCallRefused` | src/switch_apr_queue.c:139-141 | a call that starts after the queue was closed is refused and moves no item |
| `QueueRuns.LateCallStep` | src/switch_apr_queue.c:139-171 | its first step returns EOF and leaves the queue as it was |
| `QueueOutcomes.RunDoes` | src/switch_apr_queue.c:135-440 | over every run: what each step of each kind does to the queue read as a bounded sequence, and what it reports |
| `QueueOutcomes.TryPushExactly` | src/switch_apr_queue.c:196-232 | a trypush answers EAGAIN exactly when the queue is full; otherwise it stores its item last and succeeds |
| `QueueOutcomes.TryPopExactly` | src/switch_apr_queue.c:371-404 | a trypop answers EAGAIN exactly when the queue is empty; otherwise it gives the first item and succeeds |
| `QueueOutcomes.NoNeedToWait` | src/switch_apr_queue.c:135-363 | a push that enters or wakes with room stores and succeeds, a pop that does so with items takes the first and succeeds; neither sleeps |
| `QueueOutcomes.InterruptWakes` | src/switch_apr_queue.c:406-421 | when interrupt_all returns, everybody who slept has been woken |
| `QueueOutcomes.ReportMeans` | src/switch_apr_queue.c:135-440 | what every reported status means for the queue at that step; EINTR is reported only while the queue is not closed |
| `MediaBuffers.Buffer.Fixed` | src/switch_buffer.c:99-111 | an empty buffer of that size |
| `MediaBuffers.Buffer.Dynamic` | src/switch_buffer.c:113-149 | an empty buffer with the default sizes |
| `MediaBuffers.Buffer.Partition` | src/switch_buffer.c:85-97 | a buffer that reads foreign bytes |
| `MediaBuffers.Buffer.ResetPartition` | src/switch_buffer.c:62-72 | all bytes of a partition again |
| `MediaBuffers.Buffer.SetPartition` | src/switch_buffer.c:74-83 | other bytes for a partition |
| `MediaBuffers.Buffer.Toss` | src/switch_buffer.c:200-217 | drops bytes from the front |
| `MediaBuffers.Buffer.Peek` | src/switch_buffer.c:261-277 | copies bytes from the front and changes nothing |
| `MediaBuffers.Buffer.Read` | src/switch_buffer.c:241-259 | takes bytes from the front |
| `MediaBuffers.Buffer.Zero` | src/switch_buffer.c:358-365 | drops everything |
| `MediaBuffers.Buffer.Compact` | src/switch_buffer.c:310-316 | moving the content to the front is invisible |
| `MediaBuffers.Buffer.Grow` | src/switch_buffer.c:318-339 | growing is invisible |
| `MediaBuffers.Buffer.Write` | src/switch_buffer.c:296-356 | all or nothing: exactly when all, and how large the block then is |
| `MediaBuffers.Buffer.ZeroWrite` | src/switch_buffer.c:367-381 | starts over with the new bytes when they do not fit behind the old |
| `MediaBuffers.Buffer.SlideWrite` | src/switch_buffer.c:383-397 | keeps a suffix of the old content followed by all of the new; never fails for a write no larger than a fixed buffer |
| `MediaBuffers.Buffer.ReadLoop` | src/switch_buffer.c:224-239 | one looped read of the content |
| `MediaBuffers.Buffer.Rewind` | src/switch_buffer.c:234-235 | puts back every byte taken since the last compaction |
| `MediaBuffers.TakingKeeps` | src/switch_buffer.c:254-256 | accepted bytes stay taken bytes followed by bytes left |
| `Tapes.LoopReadTakes` | src/switch_buffer.c:224-239 | a looped read gives the next part of what remains, and nothing only at the end |
| `Tapes.LoopedReading` | src/switch_buffer.c:219-239 | from a full rewind the bytes before the first empty read are exactly as many copies as loops, one without loops |
| `Tapes.SessionEnds` | src/switch_buffer.c:224-239 | the first empty read comes |
| `Tapes.EmptyStaysEmpty` | src/switch_buffer.c:224-239 | after an empty read all reads are empty |
| `Tapes.EndlessReading` | src/switch_buffer.c:224-239 | with negative loops no read of a non-empty content is empty, and the content goes round |
| `Channels.InTable` | src/switch_channel.c:2440-2593 | the table of allowed moves, state by state |
| `Channels.LiveChannel.PerformSetState` | src/switch_channel.c:2400-2619 | the new state, the default cause, and when the program stops |
| `Channels.LiveChannel.PerformHangup` | src/switch_channel.c:3363-3439 | only the first hangup of a live channel ends it, with the cause given |
| `Channels.LiveChannel.PerformMarkAnswered` | src/switch_channel.c:3796-3821 | answers a live channel only |
| `Channels.LiveChannel.PerformAnswer` | src/switch_channel.c:3908-3940 | answers, or hangs up when the endpoint refuses |
| `Channels.StepKeeps` | src/switch_channel.c:2400-2619 | one call keeps the invariant and undoes nothing of the end |
| `Channels.EndOfLife` | src/switch_channel.c:3363-3439 | over every run: from the end on the state only moves up, the cause stays, no answer is recorded, and the hangup event fires at most once |
| `ChannelRaces.SharedStep` | src/switch_channel.c:3371-3436 | with other sections between those of a hangup and of an answer: the end is never left, nobody begins to answer after it, the event fires at most once, and after it the state only moves up and the cause stays |
| `ChannelRaces.EndIsFinal` | src/switch_channel.c:3363-3436 | the same between any two states of every interleaving |
| `ChannelRaces.AnsweredAfterEnd` | src/switch_channel.c:3805-3821 | an answer is recorded after the end exactly when a thread that looked before the end records after it |
| `ChannelRaces.AnswerBehindEvent` | src/switch_channel.c:3805-3821 | an interleaving where it comes even after the hangup event |
| `ChannelRaces.MovesBackExactly` | src/switch_channel.c:3389-3404 | over every interleaving, an ended channel moves back exactly when a hangup that had found it alive writes its state after the channel went past it |
| `ChannelRaces.CauseChangesExactly` | src/switch_channel.c:3371-3406 | and its cause changes exactly when the one hangup that began was called with another and finishes |
| `ChannelRaces.MovesBackHappens` | src/switch_channel.c:3371-3436 | an interleaving where both happen |
| `ChannelStory.TableByRank` | src/switch_channel.c:2440-2593 | which moves are allowed, as a condition on the positions of the two states in the life of a channel |
| `ChannelStory.HangupFlags` | src/switch_channel.c:3363-3439 | what a hangup leaves of the hold and the blocked state |
| `ChannelStory.HowItEnded` | src/switch_channel.c:2400-3439 | over every run: the channel has ended exactly when an earlier call ended it, its cause is the one of that call, and the event fired once exactly when that was a hangup |
| `ChannelStory.EndedOnce` | src/switch_channel.c:3363-3439 | it is ended by one call only |
| `ChannelStory.HowItWasAnswered` | src/switch_channel.c:3796-3821 | it counts as answered exactly when a call answered it while it lived |
| `Devices.FetchStats` | src/switch_channel.c:5014-5096 | the loop counts every leg in the categories it belongs to |
| `Devices.CountLeg` | src/switch_channel.c:5022-5093 | the nested branches for one leg |
| `Devices.StatsPartition` | src/switch_channel.c:5014-5096 | the categories partition the legs; legs that are down are in none, and legs that are over count as hung up early |
| `Devices.StatsTally` | src/switch_channel.c:5014-5096 | each number is the count of the legs of that direction and condition, by a count that knows nothing of the branches |
| `DeviceTables.Table.AddUuid` | src/switch_channel.c:5390-5415 | a leg joins a record |
| `DeviceTables.Table.AssignDevice` | src/switch_channel.c:5436-5462 | a channel without a node joins the record of its device, made if need be |
| `DeviceTables.Table.ProcessHangup` | src/switch_channel.c:5163-5217 | a leg hangs up; the table stays in order exactly when it had not before |
| `DeviceTables.Table.ChangeCallState` | src/switch_channel.c:282-293 | a leg follows the call state of its channel |
| `DeviceTables.StepKeeps` | src/switch_channel.c:5163-5217 | every call keeps the table in order |
| `DeviceTables.DeviceRecords` | src/switch_channel.c:5163-5217 | over every run: references are the legs without a hangup profile, a record can be found exactly while there is one, and exactly one leg is final from then on |
| `DeviceTables.LeavesWithLastLeg` | src/switch_channel.c:5203-5213 | a record leaves the table exactly when its last open leg hangs up, and that leg is the final one |
| `DeviceTables.LegStory` | src/switch_channel.c:5390-5462 | over every run: a channel with a node joined that device once, its leg has the opposite direction, and the call state the channel was last given, nothing after a hangup |
| `DeviceTables.HangupOnce` | src/switch_channel.c:5163-5217 | hanging up keeps the table in order exactly for a leg that has not hung up |
| `DeviceTables.SecondHangupHides` | src/switch_channel.c:5203-5213 | a second hangup of a leg takes a record out of the table exactly when it belongs to the same device |
| `DeviceTables.SecondHangupHidesRecord` | src/switch_channel.c:5203-5213 | a run from the empty table on which the record of a later call is lost that way |
| `Fields.SplitJoin` | src/inet_pton.c:103-235 | splitting a joined text gives the fields back |
| `Fields.JoinSplit` | src/inet_pton.c:103-235 | joining the fields of a text gives it back |
| `InetPton.InetPton4` | src/inet_pton.c:103-140 | accepts exactly four dot-separated groups of digits up to 255, writes their values, and nothing otherwise |
| `InetPton.ShiftTail` | src/inet_pton.c:216-229 | the overlapping shift moves the tail to the end and zeroes the gap |
| `InetPton.ScanChar` | src/inet_pton.c:174-209 | one character of the scan |
| `InetPton.InetPton6` | src/inet_pton.c:156-235 | accepts exactly the texts of the specification, writes their sixteen bytes, and nothing otherwise |
| `AddressForms.QuadForm` | src/inet_pton.c:103-140 | every dotted quad is accepted with its four values |
| `AddressForms.QuadParts` | src/inet_pton.c:103-140 | and nothing else is |
| `AddressForms.AcceptableRead` | src/inet_pton.c:156-235 | every spelling described by the model is accepted with its bytes: groups of any number of digits, an optional dotted quad last, at most one double colon, and perhaps one colon behind a last group |
| `AddressForms.AcceptedParts` | src/inet_pton.c:156-235 | every accepted text is such a spelling |
| `AddressForms.AcceptedExactly` | src/inet_pton.c:156-235 | so these are exactly the texts that are accepted |
| `AddressForms.StandardRead` | src/inet_pton.c:156-235 | every text form of section 2.2 of RFC 4291 is accepted with its bytes, a double colon standing for all missing groups |
| `AddressForms.StandardExactly` | src/inet_pton.c:156-235 | an accepted text is a form of section 2.2 exactly when no group has more than four digits, no single colon ends it, and a double colon leaves room for a group |
| `AddressForms.GapInFullAddress` | src/inet_pton.c:216-229 | in a full address what follows a double colon is read as zeros |
| `AddressTexts.HexTextValue` | src/inet_pton.c:174-190 | hexadecimal digits, each in either case, have the value of the number they were written for |
| `AddressTexts.EightGroups` | src/inet_pton.c:156-235 | any eight numbers written in hexadecimal are read as their sixteen bytes |
| `AddressTexts.SixteenBytes` | src/inet_pton.c:156-235 | every sixteen bytes, written as eight groups in either case, are read as those bytes |
| `AddressTexts.GapGroups` | src/inet_pton.c:216-229 | groups around a double colon are read as their bytes with zeros between |
| `AddressTexts.FourBytes` | src/inet_pton.c:103-140 | every four bytes written in decimal are read as those bytes |
| `AddressTexts.SixGroupsAndQuad` | src/inet_pton.c:191-205 | six groups and four bytes in decimal are read as their sixteen bytes |

## Left out

- The linked structure of whole JSON trees: lists of siblings are modelled on the heap
  (sort, attach, detach, insert), trees as values, so aliasing between trees and the
  reordering of members that comparing and diffing leave behind are not modelled.
- `cJSON_Duplicate`, `cJSON_Delete` and the reference flags: who owns which node is not
  modelled, and on values a copy is the value itself.
- `cJSONUtils_FindPointerFromObjectTo`, `cJSON_Compare` and the create and add helpers of
  `src/cJSON.c` are not modelled.
- Patching.Document.Operate: a move whose `from` is not a string has status 5 here; in the
  code `cJSONUtils_strdup` then takes the length of a null pointer, which is not defined.
- Null keys, null arguments and failing allocations, except the two growth paths of
  `ensure`.
- The text of numbers, locale, NaN and infinity, and the error position after a failed
  parse.
- Printing.PrintBuffered: a suggested size of zero is not modelled, because what
  `malloc(0)` returns and what the copy of one byte then reads is not defined.
- PrintBuffers.PrintBuffer.PrintString: the shortcut for strings without escapes is not a
  branch of its own, because it writes the same characters.
- Unescaping.UnescapeExactly: says nothing about tokens with an invalid escape, which the
  standard gives no meaning; `Pointers.DecodePointerInplace` says what the loop leaves.
- Failing mutex and condition primitives and clock values in the queue.
- The mutex and the zero-copy peek of the media buffer, allocation failure in its growth,
  and sizes near the top of `size_t`.
- DeviceTables.Table.ProcessHangup: does not model the call record, the hold records and
  the later freeing of the record's memory.
- Device states and the timing of rings, talk and hold in `switch_channel_check_device_state`.
- Channel variables, presence, events other than a count of hangup events, the media checks
  around answering, and everything else in `src/switch_channel.c`.
- `switch_channel_expand_variables_check`, the user interface under `fscomm`, start-up,
  database, certificate and file code: they depend on code outside the repository's core.
