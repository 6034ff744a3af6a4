# Verification of tle

`tle` is a programming-task grader: a web process accepts submissions, grader
processes lease them from a queue, run them case by case and store a verdict.
This project models six parts of it in Dafny and proves what they are for.

* **The JSON codec** (`cJSON.c`). Parser and printer are modelled twice: as
  functions of bytes (`JsonGrammar`, `JsonText`) and as the imperative code over a
  cursor and a growing buffer (`JsonParser`, `JsonPrinter`), which is proved to
  compute them. The parser takes exactly the texts of an explicit language, written
  without any of its functions (`JsonLiterals`, `JsonNumbers`, `JsonLanguage`); RFC 8259
  is a part of it, and the printer writes texts of that part, so the round trip with its
  exact depth limit follows (`JsonRoundTrip`). The two-pass string decoder is safe on
  arbitrary bytes (`JsonStrings`). The parser builds nodes on the heap, a tree with
  child lists well formed at every level (`JsonNodes`), and the printer walks them.
  Child lists are pointer code (`ChildList`), their operations are lifted to whole trees
  (`JsonLists`), the recursive duplicate is a heap-to-heap copy (`JsonDuplicate`), and
  `cJSON_Compare` is characterised by a meaning that forgets member order
  (`JsonCompare`, on nodes `JsonNodeCompare`).
* **The grading queue** (`task.c`, driven by `grader.c`). Each transaction is an
  atomic step on two tables; `requeue_submission` is two of them. A run is any
  sequence of steps by any number of processes, and every state is tied to a log of
  what was committed. Safety and progress are statements about that log.
* **Scoring** (`grader.c`, `task.c`). The case loop is a fold over what the sandbox
  reports; which failure a case gets, the stored verdict, the marker string with its
  brackets, the failed groups and the score are stated case by case and group by group.
  The token comparison finds no difference exactly between layouts of the same words.
* **sds strings** (`sds.c`, `sds.h`). Five header layouts behave as one byte
  sequence; the tokenizer takes exactly the lines of an explicit grammar and reads back
  what the quoting printer writes.
* **Statements in HTML** (`html.c`). The line loop with its five flags writes tags
  whose nesting is judged by a reader that sees nothing but the characters; what that
  reader shows, and inside which elements, is what the lines say.
* **MD5 and the rate limiter** (`md5.c`, `web.c`). The streaming digest equals the
  one-shot digest of RFC 1321, which gives the alphabet the digest the standard lists;
  the 256-slot table stands in for an unbounded map.

## What the proofs found

Where the code does less than one would expect, the model keeps the code, states the
exact condition for all inputs, and gives an input that shows the difference.

* A requeue is two separately committed updates. A finished job is without a result
  exactly when its last completion was committed between the two halves of a requeue
  and a second half came after it (`ResultLostExactlyBetweenHalves`; the run is
  `RequeueCanLoseResult`).
* The second update does not clear `subtask_results`. A submission without a verdict
  shows subtask results exactly when its last completion wrote some and was cleared
  since (`SubtasksOutliveVerdict`, `RequeueKeepsSubtasks`).
* A text of RFC 8259 is parsed to the tree it denotes exactly when it nests at most
  1000 deep and has no number longer than 63 bytes (`StandardTextDenotes`, `FitsMeans`); a
  longer one is cut (`LongNumberIsCut`), and deeper trees are printed all the same
  (`PrintedTextParses`, `DeepTextFails`). A byte order mark in front is skipped, except
  before a single byte without a NUL (`MarkedTextDenotes`, `MarkFails`).
* Beyond RFC 8259 the parser takes control bytes in strings, blanks of any byte up to 32,
  numbers as `strtod` does, and `\u` with bytes that are no hexadecimal digits, which
  count as 0. Where those four bytes hold a backslash, the second pass over a literal may
  take the closing quote for an escaped one and still accept (`ExactlyLiterals` says when,
  `RunOverIsTaken` shows nine such bytes).
* `\u0000` in a text puts a NUL into a string, and printing, comparing and duplicating
  see nothing behind it. They treat a tree as it is exactly when no string and no name
  holds a NUL (`PrintParseCompare`, `CutKeeps`, `NulIsCut`).
* `cJSON_Compare` of one node with itself is always true. A tree compares equal to a
  copy at other addresses exactly when in each of its objects the members of one name
  mean the same (`CompareNodes`, `CompareIsEquivalence`); two different values under one
  name break it (`RepeatedNameBreaksReflexivity`).
* `add_item_to_array` keeps the `next` of the item it appends. The list stays well
  formed exactly when that was null or the list was empty (`AddItem`, `AddItemToArray`,
  `DanglingItemBreaksList`).
* A jury that answers `#` and a digit is scanned as a case number, so the wrong group
  can fail. `GroupMarkIsRight` says exactly when a mark is right,
  `OddJuryFailsAnotherGroup` shows a wrong one.
* With two or more groups the brackets of `subtask_results` do not balance: n groups write
  2n - 1 opening and n closing ones (`OneGroupBalances`, `MarksOfGroups`).
* `safe_tkcmp` returns -1 on a file it cannot open, which the loop takes for a match;
  the memory limit is tested only when the sandbox reports a status. `CasePasses` says
  exactly when a case passes, `UncheckedCasePasses` shows one that should not.
* `sdsIncrLen` asserts the free room for every header but the smallest, which keeps no
  record of it, and casts a 64-bit argument to 32 bits on the way. The assertion says
  what it means exactly for increments of less than 32 bits, for the widest header, and
  where it fails anyway (`CastsMatter`, `WideIncrementsPass`); the byte written lies
  inside the allocation exactly when the header is not the smallest, or the increment is
  above -2^32 and the room is there (`IncrLen`, `SmallHeaderOverruns`).
* A math block opened inside a code fence and left open is closed in the wrong order;
  all other markup is well nested (`NestsExactly`, `MathInFenceMisnests`).
* Hashes in front of a line that is no heading are not shown, and behind them an item is
  still an item (`MarkupShows`).
* The loop meant to strip carriage returns tests the terminator and never runs. A line
  is taken for a row exactly when it is one and ends in none, so a text with CR LF line ends has no table
  (`ReturnEndsNoRow`, `CrLfHasNoTable`, `ReturnsUndoTable`). Blank lines and math marks
  are missed in the same way (`ReturnEndsNoBlank`, `ReturnEndsNoMark`), fences are not.
* The rate limiter's table agrees with a map of last grants exactly on requests whose
  address has a slot, or that find an empty one, or that come five seconds after the
  grant in slot 0, whoever holds it (`TableDecidesAsMap`, `FullTableRefuses`).

## Reading the files

`Bytes` and `Decimal` hold bytes and decimal text. `JsonText`, `JsonGrammar`,
`JsonStrings`, `JsonLiterals`, `JsonNumbers`, `JsonLanguage`, `JsonRoundTrip` and
`JsonCompare` are the functional side of the codec, `ChildList`, `JsonNodes`,
`JsonParser`, `JsonPrinter`, `JsonLists`, `JsonDuplicate`, `JsonNodeCompare` and
`JsonHeapTrip` the imperative one. `GradingQueue` and `GradingQueueSafety`; `Verdict`,
`TokenCompare`, `Scoring`, `ScoringTheorems` and `ScoringMarks`; `SdsString`, `SdsArgs`
and `SdsLine`; `Html`, `Markdown` and `MarkdownShown`; `Md5Rounds`, `Md5` and
`Md5Suite`; and `RateLimit` follow the other parts. Shifts and masks of the C code on
bytes are written as the arithmetic they stand for; the words of MD5 are 32-bit vectors.
`dafny verify dfyconfig.toml` checks everything.

## Model

| member | source | states |
|---|---|---|
| Decimal.DigitsRoundTrip | cJSON.c:584-587 | the decimal digits printed for a natural number are all digits, begin with a zero only for zero itself, and their value is that number |
| Decimal.IntTextLength | cJSON.c:564-632 | the text of a 32-bit integer has 1 to 11 bytes, digits behind at most a minus sign, so it fits the printer's 26-byte and the parser's 63-byte buffer |
| Decimal.IntTextRoundTrip | cJSON.c:377-383 | `strtod` on the text of a 32-bit integer reads the whole text and yields that integer exactly |
| JsonGrammar.BlankRun | cJSON.c:1058-1081 | the run of bytes up to 32 is maximal: it holds only blanks and the byte behind it is none |
| JsonGrammar.SkipBlanks | cJSON.c:1058-1081 | skipping blanks never moves the cursor back past where it began, and a cursor inside the buffer stays inside it in spite of the final step back |
| JsonGrammar.FindClose | cJSON.c:805-836 | the first pass over a literal stops at a quote at or behind its start, inside the buffer |
| JsonGrammar.ParseNumber | cJSON.c:307-404 | a number that is read strictly advances the cursor and stays within the buffer |
| JsonGrammar.ParseString | cJSON.c:792-901 | a string that is read strictly advances the cursor and stays within the buffer |
| JsonGrammar.ParseValue | cJSON.c:1336-1388 | for every byte sequence, cursor and depth the mutually recursive parser terminates; a successful value strictly advances the cursor and never passes the end of the buffer |
| JsonGrammar.ParseArray | cJSON.c:1465-1560 | the same for an array: termination, strict progress, no index at or behind the length |
| JsonGrammar.ParseObject | cJSON.c:1625-1740 | the same for an object |
| JsonLanguage.ExactlyThese | cJSON.c:1084-1198 | `ParseText` yields a tree and an end if and only if the bytes are a byte order mark where one is skipped, blanks up to 32, a value of the explicit language that denotes the tree, and what the two ways of ending ask for; the language is written without any function of the parser: literal bytes, the eight escapes as a table, four nibbles for `\u`, pairs of halves, nesting at most 1000, numbers of at most 63 bytes |
| JsonLanguage.DocReads | cJSON.c:1336-1388 | every value of the language, wherever it stands in a buffer and whatever its layout, is read to the tree it denotes if there is room; if not, the parse fails or stops inside a number |
| JsonLanguage.DocAt | cJSON.c:1336-1388 | and whatever `parse_value` reads is a value of the language standing there, with room for it, its numbers the longest ones |
| JsonLanguage.ElementsRead | cJSON.c:1497-1533 | the element loop reads any list of values with any layout |
| JsonLanguage.ElementsAt | cJSON.c:1497-1533 | and reads nothing else: what it took is a list of values with blanks and commas |
| JsonLanguage.FieldsRead | cJSON.c:1656-1710 | the member loop reads any list of names and values with any layout |
| JsonLanguage.FieldsAt | cJSON.c:1656-1710 | and reads nothing else |
| JsonLanguage.StandardTextDenotes | cJSON.c:1115-1198 | every text of RFC 8259 with its surrogates paired is of the language; it is parsed to the tree it denotes, with and without a NUL demanded, if and only if it nests at most 1000 deep and has no number longer than 63 bytes |
| JsonLanguage.TextDenotes | cJSON.c:1115-1198 | the same for every text of the lenient language, in terms of the room the parser has |
| JsonLanguage.FitsMeans | cJSON.c:1465-1474 | there is room for a value exactly when it nests at most 1000 deep and none of its numbers is longer than 63 bytes |
| JsonLanguage.MarkedTextDenotes | cJSON.c:1084-1097 | behind a byte order mark a text is parsed as without it, and a single byte without a NUL is refused |
| JsonLanguage.NulDemanded | cJSON.c:1146-1153 | demanding a NUL skips the blanks behind the value and fails exactly when no NUL stands there |
| JsonLanguage.LongNumberIsCut | cJSON.c:318-356 | a standard number of 64 digits is not read as what it denotes |
| JsonNumbers.NumberReads | cJSON.c:307-404 | `strtod` on the text of a number, with fraction and exponent, reads all of it and yields what it denotes |
| JsonNumbers.NumberAt | cJSON.c:307-404 | what `parse_number` takes is the longest number standing in the first 63 bytes, with its value |
| JsonNumbers.LongestIsTaken | cJSON.c:307-404 | and the longest number there is taken |
| JsonNumbers.SaturatedIs | cJSON.c:366-399 | `valueint` is the integral part of the number, clamped to 32 bits |
| JsonLiterals.ExactlyLiterals | cJSON.c:792-918 | `parse_string` yields bytes and a cursor if and only if a literal of the explicit grammar stands there with that meaning and end: raw bytes, the eight escapes, `\u` with four bytes of which bad ones make 0, pairs of halves, and the one way the second pass takes the closing quote along |
| JsonLiterals.LiteralReads | cJSON.c:792-901 | every literal of that grammar is read wherever it stands |
| JsonLiterals.LiteralAt | cJSON.c:792-901 | and whatever is read is such a literal |
| JsonLiterals.LiteralDenotes | cJSON.c:792-901 | every literal well formed under section 7 of RFC 8259 with surrogates paired is read as the UTF-8 encoding of the code points it denotes; a code point beyond 0xFFFF is written as the halves that 0xD800 and 0xDC00 get by division by 0x400 |
| JsonLiterals.HalvesJoin | cJSON.c:700-732 | the code point of two halves is the one that splits into them |
| JsonLiterals.RunOverIsTaken | cJSON.c:805-889 | the nine bytes on which the two passes disagree about the closing quote and all is accepted |
| JsonStrings.UnescapeIsWritten | cJSON.c:838-896 | what a successful second pass returns is what it had written byte by byte |
| JsonStrings.RoundFits | cJSON.c:805-896 | one round of the second pass writes no more bytes than the first pass had counted between the two cursors, also when the two passes disagree about which backslash starts an escape |
| JsonStrings.SecondPassFits | cJSON.c:805-896 | for arbitrary bytes, bad hex digits included, the second pass never writes more bytes than the first pass allocated |
| JsonStrings.SecondPassReadsNoFurther | cJSON.c:838-896 | for arbitrary bytes the second pass depends on nothing behind the closing quote: with the buffer cut there it writes the same bytes, succeeds alike and stops at the same place |
| JsonStrings.Utf8Decodes | cJSON.c:671-789 | the bytes written for a scalar value decode, by section 3 of RFC 3629, to that value and no other length |
| JsonRoundTrip.PrintedIsLaid | cJSON.c:1391-1853 | the printed text is an explicit layout of the tree, formatted or not, byte by byte: tabs, newlines, colons, commas and the escaped literals |
| JsonRoundTrip.LaidIsStandard | cJSON.c:1391-1853 | which is a text of RFC 8259 |
| JsonRoundTrip.LaidDenotes | cJSON.c:1391-1853 | and denotes the printed tree |
| JsonRoundTrip.ValueReadsBack | cJSON.c:1336-1462 | the printed text of any printable tree, at any offset, indentation and depth that leaves room for its nesting, parses to that tree and the cursor ends right behind it |
| JsonRoundTrip.PrintedTextParses | cJSON.c:1207-1281 | for every printable tree, formatted or not, with or without a NUL behind the text, the outcome of parsing is exact: the tree itself and the end of the text if it nests at most 1000 deep, failure otherwise |
| JsonRoundTrip.TerminatedTextParses | cJSON.c:1115-1198 | the same when a NUL is demanded |
| JsonRoundTrip.DeepTextFails | cJSON.c:1465-1474 | a thousand arrays one inside the other are printed and read back; one more is printed and refused |
| JsonParser.Hex4Literal | cJSON.c:634-668 | the digit loop computes the 16-bit value of four hex digits and 0 when one of them is none |
| JsonParser.EncodeUtf8 | cJSON.c:737-784 | the byte loop writes exactly the UTF-8 form of the code point, at the given place and nowhere else |
| JsonParser.Utf16LiteralToUtf8 | cJSON.c:671-789 | reads one or two `\u` escapes, reports how many bytes of input they took, and writes their UTF-8 form |
| JsonParser.ParseBuffer.SkipWhitespace | cJSON.c:1058-1081 | the loop with its step back moves `offset` to where the grammar says, and leaves content and depth alone |
| JsonParser.ParseBuffer.MeasureString | cJSON.c:805-836 | the first pass finds the closing quote and the number of skipped backslashes |
| JsonParser.ParseBuffer.UnescapeString | cJSON.c:838-896 | the second pass fills an array of exactly the allocated size without an index out of bounds, and yields the grammar's string |
| JsonParser.ParseBuffer.ParseString | cJSON.c:792-918 | result and new `offset` are those of the grammar; on failure `offset` is where the second pass stopped, or the byte behind the one it began at |
| JsonParser.ParseBuffer.ParseNumber | cJSON.c:307-404 | copies at most 63 bytes, hands them to `strtod`, and advances by what it read |
| JsonParser.ParseBuffer.ParseValue | cJSON.c:1336-1388 | fills a new item: the tree of nodes below it is fresh, well formed at every level and stands for the grammar's value; cursor and depth are the grammar's; the item's links and name are left alone |
| JsonParser.ParseBuffer.ParseArray | cJSON.c:1465-1560 | as `ParseValue`, with the children linked both ways and `head->prev` naming the last one, the empty list included; the depth limit and the step back in front of the first element are the grammar's |
| JsonParser.ParseBuffer.ParseElements | cJSON.c:1497-1528 | the do-while loop hangs one new node per element into the list, each a well-formed tree, and the list holds the elements the grammar lists |
| JsonParser.ParseBuffer.ParseObject | cJSON.c:1625-1740 | as for arrays, with keys and colons |
| JsonParser.ParseBuffer.ParseMembers | cJSON.c:1656-1707 | the do-while loop hangs one new node per member into the list, named and filled as the grammar lists them |
| JsonParser.ParseBuffer.ParseOneMember | cJSON.c:1681-1707 | the key is parsed as the node's own text and moved to its name before colon and value are read into the same node |
| JsonParser.NewItem | cJSON.c:1499-1521 | a new node becomes the head of the list or hangs behind the last one; trees hung before keep their values |
| JsonParser.Adopt | cJSON.c:1537-1555 | the head's `prev` is set to the last node, and the item becomes a well-formed tree with exactly those children |
| JsonParser.ParseWithLengthOpts | cJSON.c:1115-1198 | BOM, leading blanks, value and the optional terminator: the result is a fresh tree, well formed at every level, whose value and end are those of the grammar, and null exactly when the grammar fails |
| JsonPrinter.PrintBuffer.Ensure | cJSON.c:458-541 | gives room for `needed` bytes and a terminator at `offset`, keeping what is written; a buffer that is too small is replaced by one of twice the need, or of `INT_MAX`; it fails exactly when the room lies beyond what may be allocated or the buffer must not grow |
| JsonPrinter.PrintBuffer.UpdateOffset | cJSON.c:544-554 | `offset` advances by the length of the NUL-terminated text just written |
| JsonPrinter.PrintBuffer.CountEscapes | cJSON.c:941-974 | the escape count is the difference between the literal's length and the string's |
| JsonPrinter.PrintBuffer.PrintString | cJSON.c:922-1041 | writes the escaped literal, no byte beyond `length` |
| JsonPrinter.PrintBuffer.PrintNumber | cJSON.c:564-632 | writes the decimal text of a 32-bit integer, no byte beyond `length` |
| JsonPrinter.PrintBuffer.PrintValue | cJSON.c:1391-1462 | appends the text of a tree of nodes, its strings up to their first NUL, to what the buffer holds whatever its size and growth path; it succeeds exactly when the item is not null and the room can be had |
| JsonPrinter.PrintBuffer.PrintArray | cJSON.c:1563-1622 | walks along `next` and writes brackets, elements and separators, through growing or fixed buffers |
| JsonPrinter.PrintBuffer.PrintObject | cJSON.c:1743-1853 | walks along `next` and writes braces, indentation, keys and values, through growing or fixed buffers |
| JsonPrinter.ValueHasNoNul | cJSON.c:1391-1462 | the text of a printable tree contains no NUL, so `strlen` in `update_offset` measures it |
| JsonPrinter.NothingEscaped | cJSON.c:976-985 | a literal only two bytes longer than its string is the string between quotes, so copying it unescaped is right |
| JsonPrinter.Print | cJSON.c:1207-1281 | returns the text of the tree, for every tree of nodes whose text is within `INT_MAX`, and nothing for a null item |
| JsonPrinter.PrintBuffered | cJSON.c:1285-1314 | returns the same text whatever the starting size and however the buffer had to grow |
| JsonPrinter.PrintPreallocated | cJSON.c:1316-1333 | succeeds exactly when the buffer has at least two bytes more than the text, and then holds the text as a C string |
| JsonHeapTrip.PrintParseCompare | cJSON.c:1207-1281 | print, parse and compare on the heap: the parsed tree is fresh and stands for the printed one, exists exactly when the tree nests at most 1000 deep and its text fits, and compares equal to the original exactly when the members of one name agree |
| ChildList.LinkedWithout | cJSON.c:2216-2250 | pointers that route around one node form the list without it, with `head->prev` naming the last node |
| ChildList.LinkedWith | cJSON.c:2292-2324 | pointers that route through a new node form the list with it inserted |
| ChildList.LinkedReplaced | cJSON.c:2326-2373 | pointers in which a new node stands for an old one form the list with that element replaced |
| ChildList.LinksDetermine | cJSON.c:1880-1897 | `next` and `prev` leave no choice: two sequences linked from one head are equal |
| ChildList.EndIsNull | cJSON.c:1880-1897 | in a well-formed list the head's `prev` has no `next` |
| ChildList.Node.GetItem | cJSON.c:1880-1897 | the walk along `next` finds the indexed element, or null past the end |
| ChildList.Node.AddItem | cJSON.c:1985-2016 | appends to the sequence and touches no field but links; the list stays well formed exactly when the item's own `next` was null or the list was empty, and otherwise no sequence of nodes whatever is a well-formed list from that head |
| ChildList.DanglingItemBreaksList | cJSON.c:1985-2016 | a list of one item from whose head no well-formed list starts once an item with a `next` is appended |
| ChildList.Node.DetachItem | cJSON.c:2216-2250 | removes exactly that element and clears its links; of the siblings only links change |
| ChildList.Node.InsertItem | cJSON.c:2292-2324 | inserts at the index, or appends when there is no such index, changing only links, with the exact condition under which a well-formed list starts at the head |
| ChildList.Node.ReplaceItem | cJSON.c:2326-2373 | replaces exactly that element, alone in its list or not, changing only links |
| JsonLists.CreateIntArray | cJSON.c:2580-2616 | the chaining loop builds a fresh well-formed tree whose value is the array of the numbers in order |
| JsonLists.CreateNumber | cJSON.c:2463-2490 | a new number node with kind, `valuedouble` and `valueint` set |
| JsonLists.AddItemToArray | cJSON.c:1985-2022 | on whole trees: the list stays a tree, well formed at every level, and its value gains the item's at the end; exactly when the item still had a `next` and the list was not empty no well-formed list starts at its head any more |
| JsonLists.InsertItemInArray | cJSON.c:2292-2324 | on whole trees: the value gains the item's at the index, or at the end; a negative index changes nothing |
| JsonLists.DetachItemFromArray | cJSON.c:2216-2260 | on whole trees: the value loses exactly that element, which comes out as a tree that shares no node with the list; any other index gives null and changes nothing |
| JsonLists.ReplaceItemInArray | cJSON.c:2326-2383 | on whole trees: the value has the new item's in that place and is otherwise the same; any other index changes nothing |
| JsonNodes.LinksAside | cJSON.c:2801-2813 | hanging a tree into a list changes no value and no list inside it |
| JsonNodes.HangBehind | cJSON.c:1516-1521 | the two pointer writes of one round put a node behind the last one and keep every tree of the list with its value |
| JsonNodes.CloseChain | cJSON.c:1542-1544 | the one write at the end makes `next` and `prev` mutually inverse with `head->prev` the last node, and keeps every tree with its value |
| JsonNodes.GroveStays | cJSON.c:1497-1545 | trees that share no node keep their lists and values while only the links of their roots change |
| JsonDuplicate.DuplicateRec | cJSON.c:2747-2831 | on the heap: the copy is fresh, well formed at every level, shares no node with the original and has its value, texts cut at their first NUL; it is refused exactly when the pure copy is |
| JsonDuplicate.LimitIs | cJSON.c:2791-2801 | a tree is copied exactly when, at each child, the depth limit is not reached and the child is copied |
| JsonCompare.IntegersCompareExactly | cJSON.c:557-562 | the relative tolerance of `compare_double` separates any two different 32-bit integers |
| JsonCompare.ToleranceIsOneUnit | cJSON.c:557-562 | it lets one unit in the last place at 1 pass, and not two |
| JsonCompare.NamesMatch | cJSON.c:133-155 | names match exactly when they are the same bytes up to the first NUL, or the same up to the case of ASCII letters |
| JsonCompare.LookupMeans | cJSON.c:1909-1939 | looking a name up finds its member exactly when the name is there, with and without case |
| JsonCompare.CompareMeans | cJSON.c:3030-3153 | for all trees with 32-bit integers, repeated names included: comparison of two nodes at different addresses is true if and only if in every object of both the members of one name mean the same, and the trees are equal up to member order (and up to case of names when it does not count) |
| JsonCompare.DistinctAgrees | cJSON.c:1909-1939 | where no object repeats a name the members of one name agree |
| JsonCompare.CompareMeansWhenDistinct | cJSON.c:3030-3153 | so between trees without repeated names it is equality up to member order |
| JsonCompare.CompareIsEquivalence | cJSON.c:3030-3153 | between nodes at different addresses it is symmetric and transitive on all such trees, and holds between a tree and a copy of it exactly when the members of one name mean the same in each of its objects |
| JsonCompare.RepeatedNameBreaksReflexivity | cJSON.c:3112-3148 | the object with `null` and `true` under one name does not compare equal to its copy |
| JsonNodeCompare.GetObjectItem | cJSON.c:1909-1939 | the walk along `next` finds the first member of the name, or null |
| JsonNodeCompare.CompareNodes | cJSON.c:3030-3153 | on nodes: true if and only if both are there and they are one and the same node or their trees compare equal |
| JsonNodeCompare.CompareArrays | cJSON.c:3088-3110 | the two cursors over the elements compute the comparison of the lists, lengths included |
| JsonNodeCompare.EachIsFound | cJSON.c:3112-3130 | every member of one object is looked up in the other and compared |
| JsonText.CutKeeps | cJSON.c:188-208 | cutting every string and name at its first NUL changes nothing exactly when none holds a NUL |
| JsonText.NulIsCut | cJSON.c:737-784 | the string of one NUL, which `\u0000` stands for, is cut to nothing |
| JsonCompare.CutMeans | cJSON.c:3070-3086 | what stands behind a NUL in a string or a name changes neither the meaning of a tree nor whether its names agree |
| JsonCompare.DuplicateCopies | cJSON.c:2747-2831 | a recursive duplicate equals the original, texts cut at their first NUL, and exists exactly when the chain of child links stays within 10000 |
| JsonCompare.DuplicateComparesEqual | cJSON.c:2742-2831 | `cJSON_Compare` holds between a tree and its recursive duplicate if and only if the members of one name agree in it |
| GradingQueue.FirstClaimable | task.c:560-566 | the query picks the smallest queued submission with code, and none exactly when there is none |
| GradingQueue.Tables.EnqueueSubmission | task.c:526-546 | one new submission and its waiting job, ids never reused |
| GradingQueue.Tables.ClaimSubmission | task.c:548-586 | expired leases are released and the candidate is leased to the token, or nothing changes |
| GradingQueue.Tables.CompleteSubmission | task.c:601-635 | commits the result and finishes the job when status and token match, otherwise changes nothing |
| GradingQueue.Tables.RequeueJob | task.c:285-299 | the first UPDATE of a requeue: the job is queued again and the lease dropped |
| GradingQueue.Tables.ClearOutcome | task.c:300-312 | the second UPDATE of a requeue: the result columns are cleared, `subtask_results` is not |
| GradingQueue.RecordedNext | task.c:526-635 | every step of every process keeps every row of both tables, subtask results and code included, equal to what the log of past events says |
| GradingQueue.ReachableIsRecorded | task.c:526-635 | in every reachable state each submission has exactly one job, every column of both rows is determined by the log, `attempts` counts the committed claims, and a job is `grading` exactly when it has a token and a claim time |
| GradingQueueSafety.HolderStands | task.c:601-613 | the log names a token as holder exactly when some claim with that token stands: nothing but cleared results came after it |
| GradingQueueSafety.CompletionCommits | task.c:601-613 | in every interleaving a completion commits if and only if its token is the latest claim's and no requeue, expiry or completion came since |
| GradingQueueSafety.OneResultPerClaim | task.c:601-635 | with distinct tokens no claim ever yields two committed results |
| GradingQueueSafety.SupersededIsRefused | task.c:601-613 | a worker whose claim was superseded changes nothing when it completes |
| GradingQueueSafety.RequeueCanLoseResult | task.c:289-306 | a run of six steps in which a claim and a completion fall between the two UPDATEs of a requeue, and a finished job is left without a result |
| GradingQueueSafety.BalancedNext | task.c:285-312 | every step keeps: first halves of requeues outnumber second halves by those under way, and each second half follows a first |
| GradingQueueSafety.ResultLostExactlyBetweenHalves | task.c:285-312 | in every reachable state a finished job lacks its result if and only if its last completion was committed while a requeue of it stood between its two updates, and a second update came after it |
| GradingQueueSafety.UndisturbedKeepsResults | task.c:285-312 | as long as no completion of a submission commits while a requeue of it is between its halves, it has its result whenever it is finished, whatever else falls between them |
| GradingQueueSafety.LastWord | task.c:300-312 | the result columns go back to the last completion: the subtask results are those it wrote, the verdict is gone exactly when a second half of a requeue came behind it |
| GradingQueueSafety.SubtasksOutliveVerdict | task.c:300-312 | in every reachable state a submission has no verdict and yet shows subtask results if and only if its last completion wrote some and a second half of a requeue came behind it |
| GradingQueueSafety.RequeueKeepsSubtasks | task.c:285-312 | a run of five steps: a graded submission that is requeued waits without a verdict and still shows its subtask results |
| GradingQueueSafety.ClaimedInTurn | task.c:560-580 | as long as a waiting submission is passed by and no smaller one is requeued or expires, it keeps waiting and every committed claim uses up one of the smaller waiting ids |
| GradingQueueSafety.ClaimedWithinBound | task.c:548-586 | so on a run with one more committed claim than there were smaller waiting ids, none of which came back, it has been claimed |
| GradingQueueSafety.NothingExpiresWithoutCandidate | task.c:553-565 | in every reachable state, when a claim finds no candidate no lease had expired, so its rollback undoes nothing |
| GradingQueueSafety.LeaseEnds | task.c:553-580 | a lease in a reachable state lasts exactly until a claim is made more than ten minutes after it was taken: then the row is released or leased to the new token, before that it is untouched |
| Verdict.MarkerReads | grader.c:451-460 | the marker of every failure text `grade` can write is the letter of its class |
| Verdict.VerdictReads | task.c:588-599 | `parse_verdict` agrees with the marker on every failure text and finds the case number of wrong answers and both limits |
| Verdict.CaseReads | grader.c:1104-1119 | the number the group bookkeeping scans behind `#` is the case of the failure, for every failure; a jury answering `#` and a digit supplies its own |
| Verdict.CodesRead | grader.c:961-971 | the signal and the exit code in the text, negative ones included, are those of the run |
| Scoring.StoreSubtaskGroups | task.c:38-88 | the loop over the JSON entries stores the groups the specification lists, or nothing when an entry is malformed |
| Scoring.GroupRows | task.c:38-88 | row k has the number in the first item of entry k as its score, the integer in the second as its count, and starts behind the counts before it, modulo 2^32; there are rows exactly when every entry is a pair of numbers |
| Scoring.GroupsAreContiguous | task.c:59-88 | stored groups are non-empty, start at case 1 and follow each other without gap |
| Scoring.OneGroupPerCase | task.c:59-88 | every case up to the total lies in exactly one stored group |
| Scoring.CasePasses | grader.c:943-1073 | a case passes if and only if it comes as far as the comparison (run, none of the sandbox's failures, exit code 0, time kept up to it, memory kept or no status) and the token comparison does not return 0 or the jury says ok |
| Scoring.CaseFails | grader.c:943-978 | for each class that ends a case before the comparison, exactly which cases get it: missing status, crash, time, signal, exit code, memory |
| Scoring.ComparisonFails | grader.c:979-1073 | for each class the comparison gives, exactly which cases get it: wrong answer, no jury, jury not compiled, jury crashed, any other answer of the jury |
| TokenCompare.File.GetNextToken | grader.c:1200-1227 | returns the first word from the cursor on and moves behind it, or null exactly when there is none |
| TokenCompare.SafeTkcmp | grader.c:1229-1275 | -1 if a file cannot be opened, 1 if both hold the same words, 0 otherwise |
| TokenCompare.SameWords | grader.c:1229-1275 | the comparison finds no difference if and only if both texts are layouts of the same words |
| TokenCompare.WordsOf | grader.c:1200-1227 | the words read are those a text was laid out from, whatever stands between them |
| TokenCompare.LayoutOf | grader.c:1200-1227 | every text is a layout of its words |
| TokenCompare.WhatPartsWords | grader.c:1198-1222 | tab, newline, return, blank and, since `strchr` finds the terminator, NUL part words; no other byte does |
| Scoring.UncheckedCasePasses | grader.c:971-1073 | the input that passes though it should not: over the memory limit, without a status, its output not to be opened by `safe_tkcmp` |
| Scoring.MaximaWithin | grader.c:943-945 | the accumulated maxima are within a limit exactly when every case that ran is |
| Scoring.OutcomeNamesItself | grader.c:946-1078 | a failure that names a case names the one that failed, in the text and in the verdict |
| Scoring.RawReads | grader.c:1077-1106 | marker and scanned case of the raw text are those of the outcome |
| Scoring.MarkGroups | grader.c:1100-1119 | marks the groups the text hits and keeps the marks already there |
| Scoring.GradeCases | grader.c:782-1133 | the case loop with its running maxima, counters, brackets and marks computes the specified totals over the outcomes of all cases |
| ScoringTheorems.Grade | grader.c:782-1174 | score, result text, marker string and maxima of a whole run |
| ScoringTheorems.FirstFailureIsSmallest | grader.c:1120-1138 | the kept failure is that of the smallest failing case, and there is none exactly when no case failed |
| ScoringTheorems.StoredVerdict | grader.c:1120-1144 | the stored verdict is accepted exactly when no case failed; otherwise its class is that of the smallest failing case's letter and its number is that case for wrong answers and both limits |
| ScoringTheorems.MarkerString | grader.c:1077-1088 | erasing the brackets of `subtask_results` leaves one letter per case, the one of its class, `A` exactly on the passed ones, as many as `passed_cases` |
| ScoringMarks.MarksOfGroups | grader.c:815-825 | with groups that tile the cases every group is written as `[` and its letters, closed by `][`, the last one by `]` |
| ScoringMarks.OwnLetters | grader.c:1077-1088 | the letters written for a group are those of its cases, first to last |
| ScoringMarks.MarksWithoutGroups | grader.c:815-825 | without groups all letters stand between one pair of brackets |
| ScoringMarks.OneGroupBalances | grader.c:1077-1088 | n groups write 2n - 1 opening and n closing brackets, so they balance exactly when there is one group |
| ScoringTheorems.GroupFailsWhenHit | grader.c:1100-1119 | for every outcome sequence a group is marked failed exactly when some failure reports a case in it or none at all |
| ScoringTheorems.GroupFails | grader.c:1100-1119 | a group is marked failed exactly when a failing case lies in it or some failure carried no case, as long as no jury answers `#` and a digit |
| ScoringTheorems.GroupMarkIsRight | grader.c:1100-1119 | on every run, odd juries included: the mark of a group is right if and only if a failure that is no odd answer settles it, or odd answers name a case of the group exactly when one of its cases got such an answer |
| ScoringTheorems.OddJuryFailsAnotherGroup | grader.c:1047-1061 | the input on which that goes wrong: a jury answering `#1` on case 2 fails the group of case 1, which passed, and not its own |
| ScoringTheorems.ScoreIs | grader.c:1140-1155 | the maximum if no case failed; without groups score times number of cases is the maximum times the number of passed cases, and the maximum is reached only if none failed; with groups it is the sum of the scores of exactly the groups no failure names, where one that names no case names all |
| ScoringTheorems.ScoreInRange | grader.c:1140-1155 | with non-negative group scores summing to at most `max_score` the built-in score stays within 0 and `max_score` |
| ScoringTheorems.PassingNeverHurts | grader.c:1140-1155 | turning any failure into a pass never lowers the score |
| SdsString.HeaderHolds | sds.c:60-87 | the header type chosen for a length can represent it, and no type with a smaller header can |
| SdsString.FieldsFill | sds.h:47-74 | a header is as long as its two fields and the type byte make it, and its capacity is what such a field can hold; the smallest has five bits |
| SdsString.Sds.constructor | sds.c:89-145 | the string is the given bytes (or room for them when there are none), NUL-terminated, in a header that can hold its fields |
| SdsString.Sds.MakeRoomFor | sds.c:204-249 | the string is unchanged and at least `addlen` bytes are free, whatever the header change; with the room at hand nothing moves, otherwise the allocation is twice the need, or the need and a mebibyte |
| SdsString.Sds.CatLen | sds.c:398-411 | appends exactly the given bytes |
| SdsString.Sds.CpyLen | sds.c:427-438 | the string becomes exactly the given bytes |
| SdsString.Sds.GrowZero | sds.c:380-396 | extends with zero bytes to the length asked for, and leaves a longer string alone |
| SdsString.Sds.RemoveFreeSpace | sds.c:256-291 | the string is unchanged and no free byte is left, across header changes |
| SdsString.Sds.IncrLen | sds.c:334-377 | for every increment the source asserts, casts included: the terminator lands inside the allocation if and only if the header is not the smallest, or the increment is above -2^32 and the room is there; the string stays well formed with its length moved by `incr` if and only if, unless the header is the widest, the increment has less than 32 bits and for the smallest header the room is there |
| SdsString.Sds.LengthMoves | sds.c:334-377 | the truncated length is the old one plus `incr` exactly for increments of less than 32 bits or the widest header, and never exceeds the allocation where the header records it |
| SdsString.CastsMatter | sds.c:341-372 | the assertion with its casts says what it means for all increments of less than 32 bits and for the widest header; for others it passes by the low 32 bits alone |
| SdsString.WideIncrementsPass | sds.c:341-366 | 2^32 less passes for every string but those of the widest header, 2^32 more for those of the 32-bit one |
| SdsString.SmallHeaderOverruns | sds.c:334-345 | a new one-byte string satisfies the assertion for one byte more and has no room for it |
| SdsString.Sds.Clear | sds.c:193-196 | the string is empty and keeps its allocation |
| SdsArgs.CatRepr | sds.c:898-923 | appends the quoted representation, escapes as in the source, byte by byte |
| SdsArgs.SplitArgs | sds.c:973-1081 | the tokenizer with its pointer, quote flags and vector returns what the specification scans, and null exactly on the malformed lines |
| SdsArgs.TailReads | sds.c:984-1030 | inside double quotes the tokenizer collects exactly the bytes a representation stands for |
| SdsArgs.SplitUndoesRepr | sds.c:954-1081 | for every list of byte strings, NULs, quotes, backslashes and empty strings included, splitting the space-joined representations returns exactly that list |
| SdsLine.ExactlyLines | sds.c:954-1081 | on every line: the tokenizer returns a list of arguments if and only if the line is one of the explicit grammar standing for it (blanks; bare bytes; double quotes with escapes and `\x`; single quotes; a closing quote with a blank or nothing behind it), and null on all others |
| SdsLine.LineReads | sds.c:973-1081 | every line of the grammar is split into its arguments |
| SdsLine.LineAt | sds.c:973-1081 | and every line that is split is one of the grammar |
| SdsLine.ReprIsShortest | sds.c:898-923 | what `sdscatrepr` writes is the shortest printable text between double quotes that reads as the bytes, and the only one of its length without capital hexadecimal digits |
| SdsLine.ReprIsPrintable | sds.c:898-923 | it is printable ASCII throughout |
| Html.EscapeText | html.c:94-113 | the loop appends the escaped text |
| Html.EscapedIsInert | html.c:86-113 | escaped text contains no angle bracket |
| Html.EscapeReadsBack | html.c:94-113 | reading the five character references back yields the text: escaping loses nothing |
| Html.TagsOfRendered | html.c:179-295 | a reader that looks only at the characters finds exactly the tags that were meant, never one out of the user's text |
| Markdown.LineIsBlank | html.c:10-15 | true exactly for lines of blanks and tabs |
| Markdown.TableRow | html.c:17-25 | true exactly for lines that begin with a bar and, trailing blanks aside, end with another one |
| Markdown.TableSeparator | html.c:27-38 | true exactly for rows of bars, colons, blanks and at least one dash |
| Markdown.NextLineIsTableSeparator | html.c:40-57 | looks at the next line only, its carriage returns stripped |
| Markdown.ReturnEndsNoRow | html.c:17-25 | a line is taken for a table row if and only if it would be one once its carriage returns are stripped and it ends in none |
| Markdown.ReturnEndsNoBlank | html.c:10-15 | a line counts as blank if and only if it does once its carriage returns are stripped and it ends in none |
| Markdown.ReturnEndsNoMark | html.c:204-225 | a line opens or closes a math block if and only if it does once stripped and it ends in no carriage return |
| Markdown.ReturnKeepsFence | html.c:226-233 | a code fence is seen with or without carriage returns behind it |
| Markdown.CrLfHasNoTable | html.c:189-256 | the HTML of a text in which every newline follows a carriage return has no table |
| Markdown.ReturnsUndoTable | html.c:194-247 | two lines that become a table with LF between them and none with CR LF |
| Markdown.AppendTableRow | html.c:59-84 | one cell for every part between bars, blanks trimmed, text escaped |
| Markdown.AppendTextLine | html.c:252-285 | headings, list items and paragraphs with the flags they set and clear |
| Markdown.MarkdownLine | html.c:202-285 | every branch of the line loop, on flags of which only code and math are ever on together |
| Markdown.HtmlMarkdown | html.c:179-295 | the whole loop appends the specified HTML of the text |
| Markdown.LineNests | html.c:202-285 | whatever is open before a line, the tags it writes lead from that stack of open elements to the one the flags stand for |
| Markdown.PiecesNest | html.c:189-294 | for every text the tags nest up to the closing tags at the end |
| Markdown.MarkupNests | html.c:189-294 | the characters written are well-nested HTML if and only if the text does not end with a math block open inside a code fence |
| Markdown.MarkupBalances | html.c:189-294 | for every text every element is closed as often as it is opened |
| Markdown.MathInFenceMisnests | html.c:289-293 | a two-line text whose closing tags come in the wrong order |
| MarkdownShown.MarkupShows | html.c:179-295 | for every text a reader of the characters written sees exactly what its lines say, in order, each character inside the elements its line calls for: headings of one to three hashes, items, prose with breaks, formulas, code, table cells; what a line says is written down without any function of the writer |
| MarkdownShown.StepTells | html.c:202-285 | so does each line, in every place a line can stand |
| MarkdownShown.NestsExactly | html.c:189-294 | and the elements nest if and only if the lines do not end in a formula opened in a code block |
| MarkdownShown.HeadingIs | html.c:257-264 | a heading is one, two or three hashes and a blank |
| Md5Rounds.OneLine | md5.c:61-82 | a line of the unrolled code is the step of the round structure in section 3.4 of RFC 1321 that its word, turn and constant belong to |
| Md5Rounds.Transform | md5.c:180-288 | the sixty-four unrolled lines compute the four rounds and add the old registers |
| Md5.Padding | md5.c:156-158 | padding is a one bit and zeros, 1 to 64 bytes, up to 56 modulo 64, as in section 3.1 of RFC 1321 |
| Md5.BitLength | md5.c:149-151 | the two length words together are the bit length modulo 2^64 |
| Md5.PaddedFormIsUnambiguous | md5.c:149-166 | messages below 2^61 bytes with equal padded forms are equal |
| Md5.Output | md5.c:168-177 | the four digest bytes of a word give the word back, low-order byte first |
| Md5.CountersAdvance | md5.c:118-122 | the carry test and the shifted length advance the 64-bit counter by the bits added, modulo 2^64 |
| Md5.FoldOfLonger | md5.c:124-138 | bytes that follow do not change the blocks folded so far |
| Md5.Context.constructor | md5.c:93-104 | an empty message |
| Md5.Context.Update | md5.c:106-139 | whatever was fed before, the context stands for the old message followed by the data: counters, registers and input buffer |
| Md5.Context.Final | md5.c:141-178 | the digest is that of the whole message however it was cut into updates |
| Md5Suite.Suite | md5.c:141-288 | the digest of the alphabet is the one section A.5 of RFC 1321 lists: tables, basic functions, turns, padding and byte order together |
| RateLimit.SlotIs | web.c:155-165 | the scan picks the address's own slot, else the last empty one, else the first |
| RateLimit.Limiter.SubmissionAllowed | web.c:147-174 | the table after the call is that of the longer run, and the answer is the one that run grants |
| RateLimit.TableIsFaithful | web.c:154-171 | on every run with a clock that does not go back the table agrees with the unbounded map of last grants, save for addresses whose five seconds are over |
| RateLimit.OneSlotPerAddress | web.c:156-170 | no address ever occupies two slots |
| RateLimit.TableStandsForMap | web.c:166-171 | a request is granted exactly as the unbounded map would until the table is full; then one from an address without a slot is granted exactly when the holder of slot 0 has waited |
| RateLimit.TableDecidesAsMap | web.c:154-171 | on every run with a clock that does not go back: table and map agree on a request if and only if its address has a slot, or there is an empty one, or five seconds have passed since the grant in slot 0 |
| RateLimit.FullTableRefuses | web.c:155-167 | after one request from each of 256 addresses, in the same second, an address never seen before is refused, which the map would grant |
| RateLimit.GrantsAreSpaced | web.c:147-174 | two submissions granted to the same address are at least five seconds apart, also when slot 0 is reused |

## Left out

* JSON numbers off the `%d` path: `%1.15g`, `%1.17g`, NaN and infinities when printing. `strtod` reads exact reals, without binary rounding, and only the decimal syntax. Comparison and duplication of trees with other numbers are modelled; that comparison is equality of meaning is stated for 32-bit integers.
- JsonLanguage.StandardTextDenotes: excludes texts with unpaired surrogate escapes, to which section 7 of RFC 8259 gives no code point; by `JsonLanguage.ExactlyThese` the parser refuses them.
- JsonNodeCompare.CompareNodes: excludes two trees that share some nodes but not their roots, which reference items would produce.
- SdsString.Sds.IncrLen: takes the sums and the negation of a 64-bit `incr` as they are, where C leaves an overflow at the ends of that range undefined.
* Raw items, references and constant keys, null strings and null keys, allocator hooks and allocation failure, `cJSON_Minify`, and the object-level wrappers around the child-list operations.
* The error position `cJSON_GetErrorPtr` reports, and `cJSON_Duplicate` without recursion.
* Detaching or replacing an item that is not in the list, and appending an item to a list it is already in: the callers' duty in the source. Nodes the replaced item leaves behind are not freed.
- JsonPrinter.Print: the final copy to an exactly sized block is not modelled; the text returned is.
* SQLite itself, schema migration, failing commits and statement errors: every transaction is one atomic step. Rows are never deleted. Columns that no modelled operation reads (user, task, public flag) are not kept.
* How claim tokens are made from process id, clock and a static counter: they are inputs, taken to be distinct where a theorem says so. The queue's clock is a number of seconds.
* fork, exec, isolate, pipes and the jury process: what they report is the input of the case loop. Custom check and score scripts, `output_only` tasks and compilation errors bypass or override that loop.
- ScoringTheorems.GroupFails: excludes runs in which a jury answers `#` and a digit, where the statement is false (`ScoringTheorems.OddJuryFailsAnotherGroup`); `ScoringTheorems.GroupMarkIsRight` says for all runs when it holds.
* Rounding in scores: they are reals. Overflow of case numbers and of `sscanf` conversions.
* sds formatting, splitting by separator, joining, trimming and ranges; `isprint` and `isspace` are those of the C locale. Appends whose size would overflow `size_t`.
* `html_page_header` and `html_page_footer`, and what a browser or KaTeX makes of the result. A text is a C string, so it contains no NUL.
* `UINT4` is the 32-bit type its comment says; where `unsigned long` is wider the digest differs and nothing is claimed. That the tabulated constants are the sines RFC 1321 defines is not proved; one line of its test suite is. `MD5String` only prints hexadecimal.
* HTTP, TLS, sessions, accounts and views; the rate limiter takes address and clock as inputs and every call as atomic under its mutex.
