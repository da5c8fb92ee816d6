# Verified models of the fram modules

This project models, in Dafny, the data structures and protocols at the heart of the `fram` modules and
proves what they are meant to guarantee. One module follows one component:

- **`Bytes`, `ShmRecords`, `ShmSort`, `ShmSelect`, `ShmStore`**: the record store in shared memory. Blocks
  grow up from the header and descriptors down from the end; a block is sorted in place by a quicksort with
  an explicit stack that, on short ranges, selection-sorts the *whole* block; sorted blocks are searched by
  bisection and a walk over neighbours.
- **`Json*`**: the JSON library. `JsonText` defines the text of a value, `JsonParse` the parser as functions
  on the remaining text; `JsonAlloc` and `JsonBuffer` are the two printers, `JsonParser` the parser with its
  loops, `JsonMinify` the minifier in place, `JsonMinified` the proof that
  what it leaves still parses to the same value, `JsonUnicode` the escapes against section 3 of RFC 3629 and
  section 7 of RFC 8259, `JsonRoundTrip` the proof that parsing undoes printing. `JsonGrammar` states the grammar of
  RFC 8259 on its own and proves that the parser reads every document as what it says, `JsonLayout` that the
  printers write one, and how it is laid out.
- **`HashTable`**: the logger's chained hash table on a heap of doubly linked nodes, refined to a map.
- **`EventList`, `PoolLoad`, `PoolWorkers`**: the thread pool. A circular priority list on the heap, the load
  controller, and the counters as a state machine whose steps lie between the lock operations of workers and
  monitor.
- **`LogBuf`**: the bounded message buffer with its marked cut.
- **`LogRule`, `LogCategory`**: the level bitmap that short-cuts a category's rules, and update, commit and
  rollback of a whole table of categories.
- **`ArrayList`, `Glob`, `ArchiveNames`, `Rotater`**: archive rotation over a file system seen as a map; `Glob` is
  the pattern match by which the rotater finds its archives.
- **`Decimal`, `Options`**: numerals and optional values shared by the others.

Code that changes state is a class or a method with loops, proved against a specification function or
predicate; what the component promises is then proved about these for all inputs and all runs. Class
invariants (`Valid`, `Layout`) are kept by every operation, so they hold after every run; `Perform`, `PerformAll`,
`PrintAll` and `RotateAll` are such runs. `dafny verify dfyconfig.toml` checks everything.

## What the code does that its comments do not say

- `shm_select` on a sorted block copies the record hit by the bisection once for every neighbour that matches;
  it also walks on into the windows beside the block. `ShmSelect.SortedSelect` says when number and records
  are nevertheless right, `ShmSelect.PayloadsMayDiffer` and `ShmSelect.CountsMayDiffer` that they need not be.
- `print_object` with a buffer reuses the variable that holds the start of the object for its indentation
  loop, so for a formatted object with members it returns the depth instead of the start. That is right exactly
  when the two are equal (`JsonBuffer.PrintBuffer.PrintObject`): at the outermost level, and for the first item
  of an outermost array, but never for the value of a member (`JsonBuffer.MemberStartIsWrong`). The callers
  inside the library do not use it. An empty formatted object is closed with one tab less than its depth.
- The rotater hands the user's path to glob as it is. Archives are found, and nothing else taken for one, exactly
  when the path is inert for glob (`ArchiveNames.GlobsLiterallyExactly`); the results on rotations ask for that
  (`ArchiveNames.Sensible`). A log `a[1].log` loses a log with its second rotation (`Rotater.BracketsLoseLogs`).
- In sequence mode the rotater unlinks down to `max_count` and then adds one (`Rotater.OldestFirst`).
- `Tpool_loadcal` tests for the largest size twice and never for the smallest; the clamp in the monitor still
  keeps the pool within both (`PoolLoad.ResizedAfterSix`), but a pool that reaches its largest size never shrinks
  by itself again (`PoolLoad.StaysAtLargest`).
- `cursize - available` is not the number of busy workers at every release of `pool->rwlock`: a cancel counts a
  busy worker out, releases the lock, and only then marks it (`PoolWorkers.OrderlyRunUnbalances`). Over orderly
  runs this is the only deviation, and it is by one (`PoolWorkers.OrderlyCounters`). Besides, a worker that takes
  an event before the monitor looks at its registration counts as failed, and a worker that ends its event after
  its cancel has marked it frees itself again (`PoolWorkers.EarlyEventUnbalances`,
  `PoolWorkers.LateStepUnbalances`).

## Model

| member | source | states |
|---|---|---|
| Bytes.MemcmpIsNumericOrder | fram/module/ipc/src/blockshm.c:1699-1702 | memcmp on two index slices of equal length is the order of the numbers they spell, most significant byte first: negative, positive and zero exactly when less, greater and equal |
| ShmRecords.Compare | fram/module/ipc/src/blockshm.c:1743 | comparing two records by their index slices is a total preorder that is zero only for equal slices |
| ShmRecords.AscendingIsMemcmpOrder | fram/module/ipc/src/blockshm.c:1699-1702 | a block is ascending exactly when memcmp of any two of its slices in order is not positive |
| ShmSort.Swap | fram/module/ipc/src/blockshm.c:1668-1680 | two records change places, every other stays, also when both are the same |
| ShmSort.SelectionSort | fram/module/ipc/src/blockshm.c:1688-1707 | any block ends ascending and is a permutation of what it was; it is always the whole block that is sorted |
| ShmSort.MedianOfThree | fram/module/ipc/src/blockshm.c:1742-1754 | first, middle and last record of a range end in order; no other record moves |
| ShmSort.ScanUp | fram/module/ipc/src/blockshm.c:1759-1772 | the upward scan stops at the first record above the pivot or past the range |
| ShmSort.ScanDown | fram/module/ipc/src/blockshm.c:1773-1776 | the downward scan stops at the pivot or the first record not above it |
| ShmSort.Scan | fram/module/ipc/src/blockshm.c:1757-1782 | the exchange loop splits the range around the pivot although the pivot record itself is moved by exchanges |
| ShmSort.SkipEqual | fram/module/ipc/src/blockshm.c:1783-1797 | every record dropped between the two parts equals the pivot |
| ShmSort.Partition | fram/module/ipc/src/blockshm.c:1741-1797 | after one partition all of the lower part is at most, all of the upper part at least, what lies between, and what lies between is in its final place |
| ShmSort.SplitKeepsInvariant | fram/module/ipc/src/blockshm.c:1798-1826 | replacing a pending range by the parts of its partition keeps the invariant: pending ranges are disjoint, and every pair of records that is not in one pending range together is in order |
| ShmSort.SortTop | fram/module/ipc/src/blockshm.c:1736-1739 | sorting the whole block while ranges are still pending keeps that invariant for all of them |
| ShmSort.PartitionTop | fram/module/ipc/src/blockshm.c:1741-1826 | one partition replaces the current range by its parts and keeps the invariant for the rest of the stack |
| ShmSort.StackParts | fram/module/ipc/src/blockshm.c:1798-1826 | the larger part goes on the stack, the smaller becomes current, a part of fewer than two records is dropped, and the stack arrays hold exactly the pending ranges |
| ShmSort.FitsIsPower | fram/module/ipc/src/blockshm.c:1798-1832 | the stack bound says that the size of the current range times 2 to the stack height is at most the record count |
| ShmSort.ShallowStack | fram/module/ipc/src/blockshm.c:1721-1735 | with an int-sized block a range above the cutoff is never met with 28 or more stacked ranges, so the stack of 62 never overflows |
| ShmSort.QuickSort | fram/module/ipc/src/blockshm.c:1715-1836 | for every block, and all stack states it meets, the quicksort terminates, leaves the records ascending and is a permutation |
| ShmSelect.LinearSelect | fram/module/ipc/src/blockshm.c:1419-1434 | the unsorted path returns exactly the records that carry the key, in block order |
| ShmSelect.MatchingMeans | fram/module/ipc/src/blockshm.c:1419-1434 | these are the records at strictly increasing places that include every place with the key and no other |
| ShmSelect.BinarySearch | fram/module/ipc/src/blockshm.c:1645-1666 | on an ascending block the binary search hits a record of the block that carries the key, and misses exactly when the linear scan finds none |
| ShmSelect.CollectNeighbours | fram/module/ipc/src/blockshm.c:1438-1468 | the walk from the hit counts exactly the run of windows around it that carry the key, and copies the hit itself for each |
| ShmSelect.RunIsBlockMatches | fram/module/ipc/src/blockshm.c:1438-1468 | the part of that run that lies in the block is what the linear scan returns |
| ShmSelect.EdgesCleanMeansInside | fram/module/ipc/src/blockshm.c:1450-1468 | the run stays in the block exactly when no match at an end of the block is continued by the window outside |
| ShmSelect.SortedSelect | fram/module/ipc/src/blockshm.c:1436-1469 | the sorted path finds something exactly when the linear path does, never returns fewer, returns copies of one matching record, returns the same number exactly when the windows just outside do not continue a match, and the same records exactly when all matching records are alike besides |
| ShmSelect.PayloadsMayDiffer | fram/module/ipc/src/blockshm.c:1448-1468 | a block with two records of one key and different payloads, edges clean: the linear path returns both, the sorted path one of them twice |
| ShmSelect.CountsMayDiffer | fram/module/ipc/src/blockshm.c:1450-1468 | a block whose last record has its key continued by the window behind it: the sorted path counts that window too |
| ShmStore.Segment.constructor | fram/module/ipc/src/blockshm.c:46-50 | a new segment is a valid store without blocks, all of it but the header free |
| ShmStore.DataDisjoint | fram/module/ipc/src/blockshm.c:803-804 | data ranges of different blocks never overlap and lie between the header and pin_head |
| ShmStore.Segment.NothingOverlaps | fram/module/ipc/src/blockshm.c:798-821 | pin_head + fsize == pin_tail; data, free space and descriptors never overlap, and the descriptors fill exactly pin_tail to the end |
| ShmStore.Segment.FindFromEnd | fram/module/ipc/src/blockshm.c:362-374 | the search down from the end of the segment finds the descriptor with the name, or there is none |
| ShmStore.Segment.FindFromTail | fram/module/ipc/src/blockshm.c:1369-1384 | the search up from pin_tail finds the descriptor with the name, or there is none |
| ShmStore.Segment.FindsOne | fram/module/ipc/src/blockshm.c:362-374 | names are unique, so both searches give the same address |
| ShmStore.Segment.Upload | fram/module/ipc/src/blockshm.c:744-839 | an upload succeeds exactly when it is not empty, fits and its name is new; then it adds one unsorted block with these records at the end; otherwise nothing changes; the store stays valid |
| ShmStore.Segment.Sort | fram/module/ipc/src/blockshm.c:1845-1891 | the named block becomes an ascending permutation and is marked sorted, every other block keeps its records and flag; it fails exactly when no block has the name; the store stays valid |
| ShmStore.Segment.Searchable | fram/module/ipc/src/blockshm.c:1419-1436 | a block marked sorted is ascending over equally long slices, which is what the binary search needs |
| ShmStore.Segment.Select | fram/module/ipc/src/blockshm.c:1369-1472 | the block found by name from pin_tail is selected from by its sort flag: unmarked, exactly the matching records; marked, copies of one, never fewer, as many exactly when the edges are clean and the very records when these are alike besides; not found exactly when no block has the name |
| ShmStore.SortKeepsMatches | fram/module/ipc/src/blockshm.c:1845-1891 | sorting a block changes neither which records match a key nor how many |
| ShmStore.CountSurvivesSort | fram/module/ipc/src/blockshm.c:1417-1472 | selecting before and after a sort returns equally many records exactly when the edges are clean |
| ShmStore.Perform | fram/module/ipc/src/blockshm.c:744-1891 | any run of uploads and sorts keeps the store valid, and loses, renames or changes no block but by sorting it |
| Decimal.NumeralScans | fram/module/json/src/cJSON.c:97-115 | reading back the digits of a printed number gives the number, and only zero starts with a zero |
| Decimal.NumeralMeans | fram/module/json/src/cJSON.c:148-176 | in any base from 2 to 16 the characters of a numeral are the digits whose value is the number, the letters in lower case, without leading zeros |
| Decimal.PaddedMeans | fram/module/log/src/buf.c:286-295 | a padded numeral is as wide as asked or as the numeral, zeros in front of it and nothing else |
| JsonGrammar.NumberMeans | fram/module/json/src/cJSON.c:97-115 | a sign and digits without leading zeros are read as the number they denote with the rest untouched; a fraction, an exponent or more than 32 bits, and only these, are reported as not represented |
| JsonGrammar.LiteralParses | fram/module/json/src/cJSON.c:193-250 | a literal spelled with any pieces is read as the one string that these mean |
| JsonGrammar.DocParses | fram/module/json/src/cJSON.c:358-548 | every JSON document with 32-bit integers, spelled with the tokens of RFC 8259 and any blanks between them, is read as the value it says, up to its last character |
| JsonGrammar.ReadsDocuments | fram/module/json/src/cJSON.c:321-340 | so is the whole text, blanks in front and any rest included |
| JsonLayout.PrintsDocument | fram/module/json/src/cJSON.c:253-659 | what is printed of any value at any depth is such a document that says the value, with the shortest escapes, no sign on zero, no blanks when unformatted, and otherwise: a space after the comma of an item, each member on a line one tab deeper than its object, a tab after its colon, the closing brace on a line as deep as the object, or one less when it is empty |
| JsonRoundTrip.NumberBack | fram/module/json/src/cJSON.c:97-176 | a printed 32-bit integer is read back as itself with the text behind it untouched |
| JsonRoundTrip.EscapeBack | fram/module/json/src/cJSON.c:193-307 | a printed string body is read back character by character up to its quote, control characters by their \u form |
| JsonRoundTrip.ParsesBack | fram/module/json/src/cJSON.c:358-659 | the text of every printable value, at any depth and in both formats, is read back as the value, leaving exactly what follows it |
| JsonRoundTrip.RoundTrip | fram/module/json/src/cJSON.c:324-340 | parsing the print of any tree of null, booleans, 32-bit integers, NUL-free strings, arrays and objects, formatted or not, gives the tree and consumes exactly the text |
| JsonParser.SkipBlanks | fram/module/json/src/cJSON.c:321 | the loop skips exactly the blanks and control characters in front |
| JsonParser.ReadNumber | fram/module/json/src/cJSON.c:97-115 | the digit loop reads what the number grammar says; a fraction, an exponent or a number beyond 32 bits is reported as not represented |
| JsonParser.ReadString | fram/module/json/src/cJSON.c:193-250 | the two-pass reader returns the unescaped text, and never writes more than its first pass allocated when every escape has four hex digits |
| JsonParser.ReadValue | fram/module/json/src/cJSON.c:358-370 | the dispatcher reads any value as the grammar functions say, on every text, failures and numbers that are not represented included |
| JsonParser.ReadArray | fram/module/json/src/cJSON.c:407-432 | the item loop reads arrays as the grammar functions say, on every text |
| JsonParser.ReadObject | fram/module/json/src/cJSON.c:515-548 | the member loop reads objects as the grammar functions say, on every text |
| JsonAlloc.PrintValue | fram/module/json/src/cJSON.c:373-404 | the allocate-per-node printer returns the text of the value, which with its NUL fits in what it allocated |
| JsonAlloc.PrintNumber | fram/module/json/src/cJSON.c:148-176 | so do numbers |
| JsonAlloc.PrintString | fram/module/json/src/cJSON.c:253-307 | so do strings: the counted length is that of the escaped text |
| JsonAlloc.PrintArray | fram/module/json/src/cJSON.c:467-512 | so do arrays, formatted or not |
| JsonAlloc.PrintObject | fram/module/json/src/cJSON.c:593-659 | so do objects, formatted or not |
| JsonBuffer.Pow2gtIsLeast | fram/module/json/src/cJSON.c:118 | the new size is a power of two, and less than twice what is needed |
| JsonBuffer.Pow2gtWordIsLeast | fram/module/json/src/cJSON.c:118 | the shift-and-or form on 32-bit words is the least power of two that is not below its argument, up to 2^30 |
| JsonBuffer.PrintBuffer.Ensure | fram/module/json/src/cJSON.c:122-137 | there is room at the offset afterwards, and a moved buffer keeps everything |
| JsonBuffer.PrintBuffer.Update | fram/module/json/src/cJSON.c:139-145 | the offset to go on from is that of the first NUL at or after the old one |
| JsonBuffer.PrintBuffer.PrintString | fram/module/json/src/cJSON.c:253-307 | the quoted, escaped text and a NUL are written behind what was there, within the length |
| JsonBuffer.PrintBuffer.PrintNumber | fram/module/json/src/cJSON.c:148-176 | the numeral and a NUL are written behind what was there, within the length |
| JsonBuffer.PrintBuffer.PrintValue | fram/module/json/src/cJSON.c:373-404 | nested calls append the text of the value to what was there and end it with a NUL, within the length |
| JsonBuffer.PrintBuffer.PrintArray | fram/module/json/src/cJSON.c:443-466 | the text of an array is appended, whatever earlier growth moved the buffer |
| JsonBuffer.PrintBuffer.PrintObject | fram/module/json/src/cJSON.c:551-609 | the text of an object is appended; the returned start is right exactly for an unformatted or empty object, or when its offset happens to equal its depth, as at the outermost level |
| JsonBuffer.MemberStartIsWrong | fram/module/json/src/cJSON.c:574-609 | the returned start is wrong for every formatted object with members that is the value of a member |
| JsonBuffer.NestedStarts | fram/module/json/src/cJSON.c:574-609 | for instance for the inner object of {"a": {"b": 1}}, which begins at offset 8; it is right for that of [{"b": 1}] |
| JsonBuffer.PrintBuffered | fram/module/json/src/cJSON.c:346-354 | for every tree, format and positive first size the buffer holds the very text of the allocating printer, and the pointer returned is its start |
| JsonMinify.PrintedIsMinified | fram/module/json/src/cJSON.c:736-751 | minifying the formatted or unformatted text of a value, at any depth and before any rest, leaves the unformatted text and then the minified rest |
| JsonMinify.MinifyFormatted | fram/module/json/src/cJSON.c:343-344 | minifying a formatted print gives byte for byte the unformatted print |
| JsonMinify.MinifyInPlace | fram/module/json/src/cJSON.c:736-751 | for every NUL-terminated text the in-place loop leaves the minified text and a NUL, never writing past where it reads; this is what the one-pass scanner keeps; it reports exactly the texts on which the loop would read behind the NUL, those that end inside a string literal or a block comment |
| JsonMinify.MinifyFilters | fram/module/json/src/cJSON.c:736-751 | what is left of any text is what a scanner that reads one character after the other keeps: string literals whole, of the rest all but space, tab, return, newline and comments |
| JsonMinify.LineCommentGoes | fram/module/json/src/cJSON.c:745 | a line comment is dropped with its line end |
| JsonMinify.BlockCommentGoes | fram/module/json/src/cJSON.c:746 | a block comment is dropped up to its first end mark, whose star may be the one that opens it |
| JsonMinified.MinifiedParsesSame | fram/module/json/src/cJSON.c:736-751 | every text with well-formed escapes that the minifier gets to the end of, and that parses with nothing but blanks behind the value, still parses to that value once minified, whatever its layout |
| JsonMinified.MalformedMayDiffer | fram/module/json/src/cJSON.c:193-250 | with a malformed escape it need not: for any two plain characters a text is given that parses to another value once minified |
| JsonMinify.OverrunExactly | fram/module/json/src/cJSON.c:739-748 | the minified text is undefined, the loop reading behind the NUL, exactly when a one-pass scanner ends inside a string literal or a block comment |
| JsonMinify.CopyLiteral | fram/module/json/src/cJSON.c:747 | a string literal is copied whole, escaped quotes and backslashes included |
| JsonUnicode.TranscodeDecodes | fram/module/json/src/cJSON.c:224-238 | the bytes written for a scalar value decode, by the table of section 3 of RFC 3629, to that value |
| JsonUnicode.OnlyTranscode | fram/module/json/src/cJSON.c:224-238 | and no other byte sequence decodes to it |
| JsonUnicode.HexDigitValue | fram/module/json/src/cJSON.c:178-188 | the comparisons of parse_hex4 give each of the sixteen hex digits, in either case, its value |
| JsonUnicode.OnlyHexDigits | fram/module/json/src/cJSON.c:178-188 | and they take nothing else for a digit |
| JsonUnicode.HexUnitIs | fram/module/json/src/cJSON.c:178-188 | four digits in either case are read as the number they denote in base 16 |
| JsonUnicode.OneEscape | fram/module/json/src/cJSON.c:206-240 | a \u escape of a scalar value, or a surrogate pair, is passed whole and gives its UTF-8 bytes |
| JsonUnicode.EscapesDecode | fram/module/json/src/cJSON.c:193-250 | every literal made of \u escapes of nonzero scalar values, pairs included, is decoded to exactly the UTF-8 form of these values, whatever the case of its digits |
| JsonUnicode.LiteralMeans | fram/module/json/src/cJSON.c:193-250 | every literal of plain characters, short escapes, backslashes before other characters, \u escapes, lone units and surrogates before a wrong unit is read as what these stand for one after the other: themselves, the control characters of RFC 8259, UTF-8 bytes, or nothing |
| JsonUnicode.WritesFit | fram/module/json/src/cJSON.c:193-250 | with four hex digits in every \u escape no more bytes are written than the first pass counted |
| HashTable.SlotIsRemainder | fram/module/log/src/zc_hashtable.c:131 | the bucket number that the model computes by subtraction is the remainder of the hash by the table size |
| HashTable.LinkFront | fram/module/log/src/zc_hashtable.c:208-221 | a node linked in front of a bucket gives the well-formed chain with it first |
| HashTable.UnlinkIn | fram/module/log/src/zc_hashtable.c:246-266 | unlinking a node leaves the well-formed chain without it |
| HashTable.MoveBucket | fram/module/log/src/zc_hashtable.c:128-140 | every node of an old bucket is relinked into the bucket of its hash in the new table, none lost or doubled |
| HashTable.MoveAll | fram/module/log/src/zc_hashtable.c:114-149 | relinking all buckets gives well-formed chains of exactly the same entries |
| HashTable.FlatOnce | fram/module/log/src/zc_hashtable.c:280-312 | the entries in walking order contain every entry exactly once |
| HashTable.Bijection | fram/module/log/src/zc_hashtable.c:179-232 | there are as many entries as keys |
| HashTable.Table.constructor | fram/module/log/src/zc_hashtable.c:28-58 | a new table is valid and stands for the empty map |
| HashTable.Table.Find | fram/module/log/src/zc_hashtable.c:151-163 | the bucket walk finds the entry of the key, or none when the map lacks it |
| HashTable.Table.Get | fram/module/log/src/zc_hashtable.c:165-176 | get returns the value under the key in the map, or that there is none |
| HashTable.Table.Put | fram/module/log/src/zc_hashtable.c:179-232 | put is the map with the key set, for a new key and an old one, with or without a rehash; all invariants stay |
| HashTable.Table.Remove | fram/module/log/src/zc_hashtable.c:234-278 | remove is the map without the key, nothing when it is not there; all invariants stay |
| HashTable.Table.Clean | fram/module/log/src/zc_hashtable.c:91-111 | clean leaves the empty map and a valid table of the same size |
| HashTable.Table.Rehash | fram/module/log/src/zc_hashtable.c:114-149 | a rehash doubles the buckets and keeps the map |
| HashTable.Table.Load | fram/module/log/src/zc_hashtable.c:179-232 | nelem is the number of keys and at most 1.3 times the buckets plus one |
| HashTable.Table.Begin | fram/module/log/src/zc_hashtable.c:280-293 | begin gives the first entry in walking order, none for an empty table |
| HashTable.Table.Next | fram/module/log/src/zc_hashtable.c:295-312 | next gives the entry after one in walking order, none after the last |
| HashTable.Table.Foreach | fram/module/log/src/zc_hashtable.c:280-312 | begin and next together visit the entries in walking order, and thereby every key of the map once |
| HashTable.Table.VisitedKeys | fram/module/log/src/zc_hashtable.c:280-312 | so a walk visits every key of the map exactly once |
| HashTable.Perform | fram/module/log/src/zc_hashtable.c:91-278 | over any run of put, remove and clean, rehashes included, the table stands for the map that the operations make, and stays valid |
| EventList.Position | fram/module/threadpool/src/eventlist.c:52-64 | a new task goes behind all tasks of its own priority and before those of a greater number |
| EventList.PositionIsUnique | fram/module/threadpool/src/eventlist.c:52-64 | the list is sorted and there is one such place |
| EventList.WalkBack | fram/module/threadpool/src/eventlist.c:52-64 | the backward walk ends at the place, or at the head when the event comes first |
| EventList.EventQueue.Add | fram/module/threadpool/src/eventlist.c:38-75 | the ring stays one circular list with inverse next and prev, sorted by priority, and holds the new event at its place |
| EventList.EventQueue.Pop | fram/module/threadpool/src/eventlist.c:77-97 | the head comes out, the rest stay in their order, an empty list gives none |
| EventList.EventQueue.Destroy | fram/module/threadpool/src/eventlist.c:14-36 | every task of the ring is released once, and their number returned |
| EventList.DoRefinesQueue | fram/module/threadpool/src/eventlist.c:38-97 | the run model takes the same steps as the list |
| EventList.AfterIsSound | fram/module/threadpool/src/eventlist.c:38-97 | after any run the waiting tasks are in order of priority, then of adding, and waiting and popped tasks are together the added ones |
| EventList.PopTakesFirst | fram/module/threadpool/src/eventlist.c:77-97 | after any run a pop gives the earliest added task among those of least priority number |
| EventList.EachTaskOnce | fram/module/threadpool/src/eventlist.c:38-97 | over any run every added task is either waiting or was popped, exactly once |
| EventList.PerformAll | fram/module/threadpool/src/eventlist.c:38-97 | any list of additions and pops on an empty ring leaves in it, and hands out, what the run model says |
| LogBuf.Buf.constructor | fram/module/log/src/buf.c:87-138 | a new buffer is valid and empty, with its first size |
| LogBuf.Buf.Truncate | fram/module/log/src/buf.c:141-152 | index by index: the last characters of the content, as many as the mark has or all of them when it is longer, become the front of the mark, and those before stay |
| LogBuf.Buf.Resize | fram/module/log/src/buf.c:160-205 | the content stays, the size grows by the increment or up to the limit, which is reported |
| LogBuf.Buf.Append | fram/module/log/src/buf.c:505-545 | the content is what it was and the text, cut to the limit and marked; 0 exactly when it was not cut |
| LogBuf.CutMeans | fram/module/log/src/buf.c:141-205 | a text of the limit or more becomes limit - 1 characters: the last are the front of the mark, as much of it as there is room for, all before are those of the text; a shorter one stays; and nothing else is such a cut |
| LogBuf.Buf.PrintNumber | fram/module/log/src/buf.c:268-502 | the same for a zero-padded decimal or hexadecimal number, up to its width |
| LogBuf.ScratchSuffices | fram/module/log/src/buf.c:272 | every 32-bit number fits in 11 digits, decimal or hexadecimal, every 64-bit one in 20 decimal digits, the sizes of the scratch arrays |
| LogBuf.Buf.PrintDec32 | fram/module/log/src/buf.c:268-330 | any 32-bit number is appended in decimal |
| LogBuf.Buf.PrintDec64 | fram/module/log/src/buf.c:333-421 | any 64-bit number is appended in decimal |
| LogBuf.Buf.PrintHex | fram/module/log/src/buf.c:424-502 | any 32-bit number is appended in hexadecimal |
| LogBuf.Convert | fram/module/log/src/buf.c:284-301 | the digit loop gives the numeral of the number |
| LogBuf.Buf.AdjustAppend | fram/module/log/src/buf.c:548-635 | the same for a text cut to one width and filled with blanks to another, left or right |
| LogBuf.AdjustedIs | fram/module/log/src/buf.c:566-580 | the widths computed there give the adjusted text |
| LogBuf.AdjustedMeans | fram/module/log/src/buf.c:566-635 | the adjusted text is as long as the wider of the two, begins with the cut text and ends in blanks with left, and otherwise the other way round |
| LogBuf.CutMore | fram/module/log/src/buf.c:141-205 | cutting after each piece is cutting once at the end |
| LogBuf.RenderedIsCut | fram/module/log/src/buf.c:141-635 | after any run of appends and prints the content is the concatenation of the padded pieces, cut to the limit less one and marked |
| LogBuf.FirstCut | fram/module/log/src/buf.c:141-635 | up to the first call that returns 1 it is the plain concatenation, from then on the marked cut |
| LogBuf.FullStaysFull | fram/module/log/src/buf.c:167-171 | once cut, later calls do not change it |
| LogBuf.PrintAll | fram/module/log/src/buf.c:141-635 | any run of appends, number prints and adjusted appends on an empty buffer leaves the concatenation of the pieces when it is shorter than the limit, else its first characters and the mark at the end of limit - 1 characters, index by index; and a call that adds something returns 0 exactly when all pieces so far fit |
| LogRule.NewBitmap | fram/module/log/src/rule.c:681-699 | for every comparison and level, an unknown one included, bit lv of the bitmap is set exactly when the rule would put out an event of level lv: at the level, above it, everywhere but there, or everywhere |
| LogRule.MatchMeans | fram/module/log/src/rule.c:1016-1044 | a pattern matches everything when it is a star, its own name, and, ending in an underscore, every name that starts with it and the name without the underscore; nothing else |
| LogCategory.FittedComeFromRules | fram/module/log/src/category.c:57-109 | the matching rules are those of the list that match; there is a wastebin rule exactly when the list has one |
| LogCategory.WastebinIsLast | fram/module/log/src/category.c:85-87 | the wastebin rule used is the last of the list |
| LogCategory.FittedMeans | fram/module/log/src/category.c:57-109 | from the rule list alone: when some rule matches the name, those that match fit, at strictly increasing places of the list and with their repetitions, and no wastebin; when none does, the last wastebin rule alone, and nothing without one |
| LogCategory.NeedlessLevels | fram/module/log/inc/category.h:34-35 | for every rule list, name and level 0 to 255 the bit is clear exactly when no fitted rule would put the event out |
| LogCategory.Category.ObtainRules | fram/module/log/src/category.c:57-112 | the fitted rules are the matching ones in order, or the last wastebin rule when none match, and the bitmap is the union of theirs; when memory runs out there are none |
| LogCategory.Category.OverlapBitmap | fram/module/log/src/category.c:49-55 | the levels of a rule are added to those of the category |
| LogCategory.Category.Update | fram/module/log/src/category.c:148-170 | rules and bitmap are backed up whatever happens; on success the new ones are fitted, on failure there are none |
| LogCategory.Category.Commit | fram/module/log/src/category.c:174-187 | the backups go, rules and bitmap stay |
| LogCategory.Category.Rollback | fram/module/log/src/category.c:192-217 | rules and bitmap come back from the backups if there are any |
| LogCategory.RollbackUndoes | fram/module/log/src/category.c:189-217 | rolling back undoes every update, successful or not, exactly when the category had rules and no backups |
| LogCategory.UpdateTable | fram/module/log/src/category_table.c:57-71 | categories are updated in turn up to the first failure, the rest untouched; success exactly when no category fails |
| LogCategory.CommitTable | fram/module/log/src/category_table.c:73-84 | every category is committed |
| LogCategory.RollbackTable | fram/module/log/src/category_table.c:86-97 | every category is rolled back |
| LogCategory.TableRollbackUndoes | fram/module/log/src/category_table.c:57-97 | a table-wide update stopped anywhere or not at all, then rolled back, leaves every category as it was |
| LogCategory.TableCommitMakes | fram/module/log/src/category_table.c:57-84 | a whole update, committed, leaves every category as newly made from the new rules |
| LogCategory.Table.Fetch | fram/module/log/src/category_table.c:100-127 | fetching gives the category of that name, made from the rules and entered if there was none; when it cannot be made the table stays as it is |
| LogCategory.WalkUpdatesTable | fram/module/log/src/category_table.c:57-71 | a table-wide update in any walking order is an update of the map: some categories updated, at most one failed, the rest untouched |
| LogCategory.RunsKeepTheTable | fram/module/log/src/category_table.c:57-127 | after any run of reloads, each committed or rolled back, and of fetches between them, every category is as newly made from the rules committed last, and none is lost |
| LogCategory.RunsKeepTheShortCut | fram/module/log/inc/category.h:34-35 | so after any run the bitmap of every category agrees with its rules on every level |
| ArrayList.List.Expand | fram/module/log/src/zc_arraylist.c:58-76 | the capacity grows to twice, or to what is asked for, and the contents stay |
| ArrayList.List.Set | fram/module/log/src/zc_arraylist.c:78-91 | the slot is set, the list grows to it with empty slots between, for an index below twice the capacity |
| ArrayList.List.InsertInner | fram/module/log/src/zc_arraylist.c:99-117 | an empty slot is filled, otherwise everything from the index on moves up by one |
| ArrayList.List.SortAdd | fram/module/log/src/zc_arraylist.c:119-133 | the item goes before the first greater one |
| ArrayList.InsertKeepsOrder | fram/module/log/src/zc_arraylist.c:119-133 | so a sorted list stays sorted, the item stands behind its equals, and nothing else is lost or added |
| Glob.InertMatches | fram/module/log/src/rotater.c:196 | a pattern a*b whose other characters are matched by themselves alone matches exactly the paths that start with a and end with b, without a slash or leading dot between them |
| Glob.MatchesLiterallyExactly | fram/module/log/src/rotater.c:196 | and only such a pattern does: with a quoted character, a bracket expression or a further wildcard it matches other paths, or misses some of these |
| ArchiveNames.GlobsLiterallyExactly | fram/module/log/src/rotater.c:396-403 | the rotater takes exactly the paths of the form prefix, anything, suffix if and only if every character of these two is inert for glob |
| ArchiveNames.DefaultIsSensible | fram/module/log/src/rotater.c:353-364 | without an archive path the naming is sensible exactly when the name of the log file is inert for glob, for instance when it has none of the special characters |
| ArchiveNames.BracketsHideArchives | fram/module/log/src/rotater.c:353-358 | a log file with a character in brackets in its name, such as a[1].log: the rotater finds none of its archives |
| ArchiveNames.QuestionTakesForeign | fram/module/log/src/rotater.c:353-358 | a log file with a question mark in its name, such as a?.log: the rotater takes the archives of ab.log for its own |
| ArchiveNames.PaddedScans | fram/module/log/src/rotater.c:157 | a zero-padded number is read back as itself, with at least its width in characters |
| ArchiveNames.NumberedIs | fram/module/log/src/rotater.c:131-173 | a path with a number behind a front as long as the prefix, signed or not, is an archive of that number exactly when it is not the log file, no directory, not too long, and the number as wide as asked |
| ArchiveNames.UnnumberedIs | fram/module/log/src/rotater.c:131-173 | one without a number there counts as archive 0 when no width is asked for, and else as none |
| ArchiveNames.ArchiveIsRead | fram/module/log/src/rotater.c:131-173 | with a sensible naming every archive that the rotater names is found by the glob pattern and read with its number |
| ArchiveNames.PathsDiffer | fram/module/log/src/rotater.c:302-306 | different numbers give different names |
| ArchiveNames.SchemeIsSound | fram/module/log/src/rotater.c:131-173 | all a rotation relies on, with a sensible naming: names differ from each other and from the log file, archives are recognised, later ones have larger numbers |
| Rotater.FileSystem.Rename | fram/module/log/src/rotater.c:312-315 | a rename moves the contents and counts when it replaces a file |
| Rotater.AddArchiveFiles | fram/module/log/src/rotater.c:181-229 | whatever the order of the glob, the list holds exactly the archives on disk, once each, by number |
| Rotater.ListIsContiguous | fram/module/log/src/rotater.c:290-295 | archives 0 to n - 1 are listed in that order |
| Rotater.RollFiles | fram/module/log/src/rotater.c:285-345 | the loop moves the listed archives from the last to the first, then the log file |
| Rotater.RollMovesUp | fram/module/log/src/rotater.c:285-345 | from archives 0 to n - 1 a rotation always succeeds: the log becomes archive 0, the others move up by one, those beyond max_count are gone, no rename replaces a file and no other file is touched |
| Rotater.UnlistedArchiveIsLost | fram/module/log/src/rotater.c:327-342 | an archive 0 that the list lacks is replaced by the log, and what it held is lost |
| Rotater.BracketsLoseLogs | fram/module/log/src/rotater.c:285-345 | so the second rotation of a log file with a character in brackets in its name loses the log of the first |
| Rotater.RollRunKeepsNewest | fram/module/log/src/rotater.c:285-345 | after any run of rotations the archives are contiguous and hold the newest logs, and no rename has replaced a file |
| Rotater.NewestFirst | fram/module/log/src/rotater.c:285-345 | archive i is the i-th newest log, and at most max_count remain when it is positive |
| Rotater.SeqFiles | fram/module/log/src/rotater.c:232-282 | the loop unlinks the first archives of the list, then names the log file |
| Rotater.NextIsLargest | fram/module/log/src/rotater.c:251-261 | the new number exceeds every existing one and its name is free |
| Rotater.SeqAppends | fram/module/log/src/rotater.c:232-282 | the log becomes that archive, the last max_count others keep names and contents, the ones before are gone, nothing is replaced and no other file touched |
| Rotater.SeqKeepsList | fram/module/log/src/rotater.c:232-282 | the sorted list grows at its end |
| Rotater.SeqRunKeepsLatest | fram/module/log/src/rotater.c:232-282 | after any run in sequence mode the archives hold the latest logs in the order of their numbers |
| Rotater.OldestFirst | fram/module/log/src/rotater.c:241-250 | these are all logs, or the last max_count + 1 of them: sequence mode keeps one more than max_count |
| Rotater.Rotate | fram/module/log/src/rotater.c:427-466 | on the files themselves, for a sensible naming and a log that is there: rolling, from archives 0 to n - 1, the log becomes archive 0, the others move up by one and max_count stay; in sequence mode the log goes to the least number above all others and not below their count, the last max_count keep path and contents, the ones before go, and it fails exactly when the new path is too long; nothing is replaced and no other file is touched in either |
| Rotater.FileSystem.List | fram/module/log/src/rotater.c:195-206 | the paths of the files that match the pattern, once each, in any order |
| Rotater.RotateAll | fram/module/log/src/rotater.c:427-466 | any run of logs written and rotated replaces no file; rolling always succeeds while the paths are short, and leaves the newest logs as archives 0 to n - 1; in sequence mode the archives are the latest logs in the order of their numbers |
| PoolLoad.Pool.LoadCal | fram/module/threadpool/src/Tpoolcore.c:388-436 | the sample, the counter of like samples and the resize wanted, with the division of C and the test for the largest size only; LoadMeans says what the sample is |
| PoolLoad.Pool.SizeCtl | fram/module/threadpool/src/Tpoolcore.c:327-386 | cursize and available change together by what could be done, cursize never goes above maxsize, creation stops at the first failure, and the walk over the list cancels the ready workers it meets up to the number asked for |
| PoolLoad.Pool.Tick | fram/module/threadpool/src/Tpoolcore.c:487-512 | one timeout of the monitor: sample, clamp, resize, reset |
| PoolLoad.LoadMeans | fram/module/threadpool/src/Tpoolcore.c:390-409 | a pool below its largest size is sampled high exactly when at least hload percent of its workers are busy, low exactly when it is not and less than lload + 1 percent are |
| PoolLoad.SilverCounts | fram/module/threadpool/src/Tpoolcore.c:388-436 | over any run loadsilver is the number of high samples less that of low ones since the last opposite sample or resize, one of the two being 0 |
| PoolLoad.SinceCovers | fram/module/threadpool/src/Tpoolcore.c:396-419 | that count is over the longest stretch of ticks without opposite sample and resize |
| PoolLoad.ResizedAfterSix | fram/module/threadpool/src/Tpoolcore.c:487-512 | over any run the pool grows only after at least six samples of high load since the last low one and the last resize, shrinks only after six low ones, and stays between minsize and maxsize |
| PoolLoad.SixAreEnough | fram/module/threadpool/src/Tpoolcore.c:424-435 | six samples do call for a resize, exactly when the pool has five workers or more and is not at its limit |
| PoolLoad.ResizesExactly | fram/module/threadpool/src/Tpoolcore.c:388-436 | in terms of the busy workers alone: over any run a tick asks for more workers exactly when the pool has five or more, is below its largest size, and at six ticks or more since the last resize, none between with a low share, the share of busy workers was high; and for fewer likewise |
| PoolLoad.ResizeAmount | fram/module/threadpool/src/Tpoolcore.c:327-386 | a fifth of the pool is asked for, cut to the limits; the pool grows by the creations before the first failure, and shrinks by the ready workers, up to that number, unless fewer are available |
| PoolLoad.StaysAtLargest | fram/module/threadpool/src/Tpoolcore.c:391-395 | over any run of ticks a pool at its largest size stays there, whatever the load: it is not measured |
| PoolWorkers.StepKeepsExact | fram/module/threadpool/src/Tpoolcore.c:82-96 | any step of worker or monitor keeps cursize - available equal to what the workers owe it (1 for a busy one, corrected while it is between two locks) exactly when it is none of the listed cases, such as giving up a busy worker |
| PoolWorkers.OffByStanding | fram/module/threadpool/src/Tpoolcore.c:226-233 | whenever pool->rwlock is free such a pool is off by the busy workers that stand between the counting and the marking step of their cancel, and balanced exactly when there are none |
| PoolWorkers.ExactExactly | fram/module/threadpool/src/Tpoolcore.c:190-233 | any run at all is exact after every step exactly when none of its steps is such a case |
| PoolWorkers.OrderlyStepKeeps | fram/module/threadpool/src/Tpoolcore.c:206-234 | a step in which no registration fails and no cancelled worker takes part keeps the pool sound: exact, cursize the number of workers in service, statuses in accord, one worker at most being created or cancelled |
| PoolWorkers.OrderlyRunsAreSound | fram/module/threadpool/src/Tpoolcore.c:82-96 | so over every such interleaving |
| PoolWorkers.OrderlyCounters | fram/module/threadpool/src/Tpoolcore.c:190-194 | after every such run, whenever pool->rwlock is free, cursize counts the workers in service and cursize - available the busy ones, less one exactly while a busy worker stands between the two steps of its cancel |
| PoolWorkers.BalancedExactly | fram/module/threadpool/src/Tpoolcore.c:226-233 | an orderly run is balanced whenever pool->rwlock is free exactly when it cancels no busy worker |
| PoolWorkers.EmptyIsSound | fram/module/threadpool/src/Tpoolcore.c:111-118 | the pool without workers, from which runs start, is sound |
| PoolWorkers.OrderlyRunUnbalances | fram/module/threadpool/src/Tpoolcore.c:226-233 | a run from the empty pool, without failed registration or late step, at whose last release of pool->rwlock, by another worker, the counters are off: a busy worker has been counted out and not yet marked |
| PoolWorkers.EarlyEventUnbalances | fram/module/threadpool/src/Tpoolcore.c:162-184 | a run from the empty pool: a worker takes an event before the monitor checks its registration, is given up, and the counters are off |
| PoolWorkers.LateStepUnbalances | fram/module/threadpool/src/Tpoolcore.c:222-233 | a run from the empty pool: a worker ends its event after its cancel has marked it, and the counters are off |

## Left out

- System V calls, semaphores, the `_safe` variants and all locking of the shared store: one call is one step.
- shm_select with wildcard conditions (`cmp`, `cmpnull`), shm_download and block lists: linear scans only.
- ShmSelect.SortedSelect: needs a window on each side of the mapped memory that does not carry the key; without one the walk of the source does not end inside the memory.
- Segments smaller than their header, block names of 20 characters or more, lengths that are no multiple of the record length, and negative lengths.
- Records of the store are kept as values by address, not as raw bytes of one array; a block sorted is an array sorted in place.
- cJSON nodes as linked lists: trees are values, so parser and allocating printer build and read values and not nodes.
- JsonParser.ReadNumber: numbers with fraction or exponent and integers beyond 32 bits are reported as inexact and end the parse, since the model has no floating-point values; the source keeps a double.
- JsonParser.ReadValue: a text that contains such a number is not read; all other texts are, failures included.
- JsonAlloc.PrintNumber: 32-bit integers only, not the third branch that prints other doubles.
- JsonBuffer.PrintBuffer.PrintNumber: 32-bit integers only, not the third branch that prints other doubles.
- JsonBuffer.Pow2gt: is stated on unbounded integers; that it equals the word form up to 2^30 is shown by both being least powers of two, not by conversion.
- Failed allocation in cJSON, the hash table, the event list and the message buffer.
- JsonGrammar.DocParses: texts that are no documents of RFC 8259 but that the parser reads, such as an unclosed literal, have no grammar of their own.
- PoolLoad.ResizesExactly: with a threshold of zero or below, ticks that find more workers available than there are are left out.
- JsonUnicode.LiteralMeans: malformed `\u` escapes, and a high surrogate that nothing of the form `\u` follows.
- JsonUnicode.WritesFit: only for literals whose escapes are well formed; malformed `\u` escapes and texts ending in a backslash are not studied.
- HashTable: the load test `tab_size * 1.3` is modelled exactly as 13/10 and not as a double; key and value destructors, and hash and equality functions that disagree.
- LogBuf: negative widths; growth by `1.5 * increment` is modelled with the whole part; `zlog_buf_vprintf` is a call into the C library.
- LogCategory: allocation is a number of list operations that succeed; the failure branch of `zlog_reload`.
- Glob: named character classes, collating elements, the locale's order of characters, and a slash that is quoted or in brackets.
- Rotater: directories in the way, failing system calls other than missing files, the size test and the lock before a rotation, and the overflow of `%d`.
- Rotater.RollMovesUp: needs names that fit in MAXLEN_PATH and a log file that is not itself named like an archive.
- ArrayList.List.Set: an index at or beyond twice the capacity is excluded; the source then writes behind its new array.
- PoolLoad.Pool.SizeCtl: whether each creation succeeds, and which workers of the list are ready when the walk comes to them, is an input.
- PoolLoad: resizing by command is not part of the runs.
- PoolWorkers: the list of workers and the memory of cancelled ones, the queue's condition variable, and deadlock between the two lock orders: a lock that is waited for while another is held is modelled as taken together with it.
- The reader-writer lock, the memory pool, the ini lists, the other containers, the process pool, sockets and user interfaces, and the C++ copy of the logger: not part of this model.
