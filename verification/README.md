# A verified model of the Tinox runtime, package manager and front end

Tinox is a compiled language with a C runtime, a package manager and a front end. This project
models the parts of it whose behaviour is hardest to see from the code, and proves what they are
for. Everything is written in Dafny 4.11; `dafny verify dfyconfig.toml` verifies all of it.

How the files follow the program:

- `Wrappers`, `Powers`: optional values, powers of two and bytes, for the rest.
- `Sort`: the hybrid sort of the runtime's arrays.
- `CText`, `Decimal`, `JsonParser`, `JsonPrinter`, `JsonSpacing`, `JsonLeniency`, `JsonGrammar`,
  `JsonOutput`, `JsonBuilder`, `JsonBuilderKeys`: the JSON engine.
  A C string is the characters before its terminator, and the place behind the last one reads as
  NUL. The engine reads a subset of RFC 8259 (no `\u` escapes, malformed bytes skipped), and that
  subset is what is modelled.
- `StringMap`, `StringMapRuns`, `StringTable`: the open-addressing string map, as functions over a
  table of slots, over runs of sets and removes, and as loops over an array. The hash is an
  arbitrary function.
- `Channel`: the queue behind channels, as a linked list and as a protocol of critical sections
  with sleeping, woken and spuriously woken receivers.
- `Crc32`, `CrcRemainder`, `Zip`, `ZipStore`, `ZipBytes`: the zip store, byte for byte as in sections 4.3.7, 4.3.12 and 4.3.16
  of PKWARE's APPNOTE, and the checksum of section 8 of RFC 1952.
- `Strings`, `Base64`, `Base64Text`: splitting, joining, replacing, and section 4 of RFC 4648.
- `Packages`, `DependencyWalk`, `Install`, `Checksums`, `InstalledDependencies`, `TomlLines`,
  `Manifests`, `ManifestLaws`, `ManifestSurvivors`, `ManifestRewrites`, `ManifestReruns`,
  `ManifestBytes`, `ManifestText`: the package manager. The file system is a finite map from directories to manifests, and what a download gives is an
  arbitrary function.
- `Lexemes`, `LexemeText`, `LexemeWritten`, `Lexer`: what the tokens are, and the lexer that finds them. Positions are offsets in
  characters.
- `Ast`, `Places`, `SameTrees`, `NodeIds`: the syntax tree, the places in it, and the numbering of
  its expressions.

Loops are methods proved against functions, objects are classes, and the laws are lemmas about the
functions. What the functions take as given, characters, constants, byte layouts and tables, is said
a second time, from the outside and without them: `JsonSpacing` and `JsonGrammar` for the reader,
`CrcRemainder` for the checksum, `ZipBytes`, `Base64Text`, `ManifestText`, `Checksums`, `LexemeText` and
`LexemeWritten` for the texts, `Places` and `SameTrees` for the tree. Where the code does not keep a property that one would expect of it, there is a lemma
with an input that shows it, and a lemma that says exactly when the property holds:

| property | holds exactly when | fails at |
|---|---|---|
| a lookup in the string map ends | `StringMap.LoopsIff` | `StringMap.LookupCanLoop` |
| a removed key is gone | `StringMapRuns.RemoveForgetsIff`, `StringMapRuns.AlwaysForgetsIff` | `StringMap.RemoveCanResurrect` |
| what was added to a JSON object is read back | `JsonBuilderKeys.BuiltTextParsesIff` | `JsonBuilder.DirtyKeyMisread` |
| a written archive is read back | `Zip.RoundTripIff` | `Zip.LongNameLost` |
| joined parts are split again | `Strings.SplitJoinIff` | `Strings.PartCutInTwo` |
| the walk reports all that is reachable | `DependencyWalk.ReportsAllIff`, `DependencyWalk.CompleteIff` | `DependencyWalk.SecondRepositoryIgnored` |
| what was installed is not missing | `InstalledDependencies.NothingMissingIff`, `InstalledDependencies.FreshInstallIff` | `InstalledDependencies.UrlHidesCache` |
| a written manifest is read back | `ManifestLaws.RoundTripIff` | `ManifestLaws.OuterQuoteLost`, `ManifestLaws.HeaderStays` |
| writing again changes nothing | `ManifestReruns.WriteAgainIff` | `ManifestReruns.BlankLinesShrink`, `ManifestReruns.NewlineGrows` |
| lines that the writer does not own survive byte for byte | `ManifestBytes.StandsIff`, `ManifestBytes.AllStandIff` | `ManifestBytes.CrLfLost` |

Where the code and its documentation differ the model follows the code. The comment on
`write_manifest` promises that every other line survives byte for byte. A line that ends in a
carriage return and a newline loses the first, and an empty line behind which nothing survives is
lost unless a table comes next; all other lines do survive (`ManifestBytes.StandsIff`). The comment
on `global_dep_dirs` says that it mirrors the installer's walk; it does exactly where nothing that the
installer meets has a url (`InstalledDependencies.WalkIsInstallIff`). And `/**/` opens a doc comment
instead of being an empty comment (`Lexemes.IsBlockComment`).

## Model

| member | source | states |
|---|---|---|
| Sort.SortRange | runtime/runtime.c:633-664 | every range of every array ends up sorted, as a permutation that leaves the rest alone; recursion goes at most log2 of the length deep |
| Sort.Round | runtime/runtime.c:645-662 | one turn of the loop sorts the smaller side and leaves a strictly smaller range, with everything outside it in its final place |
| Sort.Partition | runtime/runtime.c:652-659 | the pivot ends between elements not above it and elements not below it |
| Sort.Scan | runtime/runtime.c:653-658 | the two scans without bounds tests stop inside the range, because of the values the median step left at its ends |
| Sort.MedianOfThree | runtime/runtime.c:645-651 | the ends of the range bracket the pivot, which is parked next to the upper end |
| Sort.InsertionSort | runtime/runtime.c:635-644 | a short range is sorted in place |
| Sort.ArraySort | runtime/runtime.c:666-675 | the result is a sorted permutation in a new array; the argument is unchanged |
| Sort.WindowMultiset | runtime/runtime.c:633-664 | a rearrangement of a window keeps the multiset of the window |
| Sort.SortedOutsideKept | runtime/runtime.c:660-663 | work inside a window does not disturb the order around it |
| Decimal.AccumulateDec | runtime/runtime.c:5420-5428 | the parser's digit loop inverts the canonical decimal of every number |
| Decimal.AccumulatorFits | runtime/runtime.c:5420-5428 | the accumulator stays in 64 bits on a printed integer exactly when it is not INT64_MIN |
| Decimal.Int64Length | runtime/runtime.c:5660-5687 | no 64-bit integer needs more than twenty characters |
| Decimal.NoLeadingZero | runtime/runtime.c:5660-5687 | the decimal of a positive number starts with another digit than zero |
| Decimal.WritePairs | runtime/runtime.c:5660-5687 | the digit-pair loop leaves the decimal, reversed, in its scratch buffer |
| Decimal.FastWrite | runtime/runtime.c:5660-5687 | the canonical decimal of every 64-bit integer is written, the rest of the buffer is untouched, and the length is returned |
| JsonParser.FastElementIsValue | runtime/runtime.c:5328-5349 | an element the fast path takes is what the generic parser reads there, up to blanks behind it |
| JsonParser.FastIsGeneric | runtime/runtime.c:5308-5383 | when the all-integer path succeeds, the generic loop from the same place gives the same elements and the same end |
| JsonParser.ArrayIsGeneric | runtime/runtime.c:5308-5383 | with or without the fast path an array is what the generic loop makes of it: giving up leaves no trace |
| JsonParser.MeasureString | runtime/runtime.c:5236-5253 | the scan before decoding computes exactly the number of characters the decoding writes |
| JsonParser.DecodeString | runtime/runtime.c:5254-5278 | the decoding pass fills that many characters and stops at the closing quote or the terminator |
| JsonParser.ReadString | runtime/runtime.c:5235-5278 | both passes together give the decoded string and the place behind it, inside the buffer |
| JsonParser.ReadFastInts | runtime/runtime.c:5321-5350 | the speculative loop computes the fast-path function |
| JsonParser.ReadNumber | runtime/runtime.c:5394-5428 | a number, or a malformed byte skipped, with the cursor moved forward |
| JsonParser.ReadValue | runtime/runtime.c:5280-5429 | the parser ends on every text, computes the value function and never moves past the terminator |
| JsonParser.ReadArray | runtime/runtime.c:5308-5383 | the array case with its backtracking computes the array function |
| JsonParser.ReadFields | runtime/runtime.c:5289-5307 | the object loop computes the map in which later keys win |
| JsonParser.ReadElements | runtime/runtime.c:5360-5383 | the generic loop ends and computes the element list |
| JsonPrinter.StringRoundTrip | runtime/runtime.c:5235-5278 | reading the escaped form of a NUL-free string, wherever it stands, gives the string back |
| JsonPrinter.IntRoundTrip | runtime/runtime.c:5394-5428 | a printed integer is read back where nothing behind it extends the number |
| JsonPrinter.ElementsRead | runtime/runtime.c:5360-5383 | a comma-separated list of texts that read as values is read as those values |
| JsonPrinter.ObjectRead | runtime/runtime.c:5289-5307 | an object of members that read back is read as the map of its last writes |
| JsonPrinter.AllFitIff | runtime/runtime.c:5420-5428 | every integer of a tree stays inside the 64-bit accumulator exactly when none is INT64_MIN |
| JsonPrinter.RoundTrip | runtime/runtime.c:5461-5508 | for every float-free tree with NUL-free strings, at every place and before every text that cannot extend a number, parsing the printed form gives the abstract value and stops right behind it, without overflow of the accumulator exactly when no integer is INT64_MIN |
| JsonPrinter.ParsePrinted | runtime/runtime.c:5519-5525 | parsing a whole printed value consumes exactly the text, under the same condition on overflow |
| JsonPrinter.PrintPlain | runtime/runtime.c:5447-5459 | whatever the strings in a tree hold, its text has no newline, no carriage return and no tab |
| JsonSpacing.SpacedRoundTrip | runtime/runtime.c:5184-5429 | for every such tree and every choice of gaps of spaces, tabs, carriage returns and newlines around its brackets, commas, colons and values, parsing gives the abstract value |
| JsonSpacing.SpreadRead | runtime/runtime.c:5280-5429 | the same wherever the tokens stand in a longer text, and the reader stops right behind the last one |
| JsonSpacing.TokensArePrint | runtime/runtime.c:5461-5508 | put together without gaps those tokens are the printed text |
| JsonLeniency.BlanksPassed | runtime/runtime.c:5184-5184 | four characters are passed over in front of a value, and no others |
| JsonLeniency.MalformedSkipped | runtime/runtime.c:5394-5418 | a byte that starts no value is passed over and null stands for it |
| JsonGrammar.StringRule | runtime/runtime.c:5235-5278 | of every text, what each character of a string contributes, with an escape or a quote missing at its end |
| JsonGrammar.ArrayRule | runtime/runtime.c:5308-5383 | of every text, a value at a bracket is its elements, with or without a closing bracket |
| JsonGrammar.ElementsGoOn | runtime/runtime.c:5360-5380 | behind an element there is one comma or none, whatever stands around it |
| JsonGrammar.FieldsGoOn | runtime/runtime.c:5289-5307 | a member has one colon or none and one comma or none, and a key read again is overwritten |
| JsonGrammar.FieldsStop | runtime/runtime.c:5294-5306 | members end at the first thing that is not a quote |
| JsonGrammar.NumberRule | runtime/runtime.c:5394-5428 | sign, digits, fraction and exponent, each of them possibly missing, give an integer or a float text |
| JsonOutput.Output.Reserve | runtime/runtime.c:5440-5446 | growing keeps the text and makes room for it, a further piece and the terminator |
| JsonOutput.Output.AppendString | runtime/runtime.c:5447-5459 | the quoted and escaped string is appended |
| JsonOutput.Output.Stringify | runtime/runtime.c:5461-5508 | the printer appends the printed form of every value, inside its buffer |
| JsonBuilder.Builder.Grow | runtime/runtime.c:5753-5758 | the buffer afterwards holds the asked-for number of further bytes, with its text unchanged |
| JsonBuilder.Builder.Apply | runtime/runtime.c:5780-5837 | each add appends a separator if needed, the key and the value, and never writes outside the buffer |
| JsonBuilder.Build | runtime/runtime.c:5770-5846 | a run of adds and the final brace give exactly the text of the members |
| JsonBuilder.BuiltTextParses | runtime/runtime.c:5746-5846 | for keys without quote, backslash and NUL the text parses, whole, to the map in which the last add of a key wins, each add without overflow exactly when it holds no INT64_MIN |
| JsonBuilder.OneMemberParses | runtime/runtime.c:5759-5768 | a member written with a NUL-free key is read back under that key exactly when the key has no quote and no backslash |
| JsonBuilder.DirtyKeyMisread | runtime/runtime.c:5759-5768 | a key with a quote or a backslash is never read back as itself |
| JsonBuilderKeys.BuiltTextParsesIff | runtime/runtime.c:5746-5846 | for every run of adds without NUL, the text is read back as the map of the last writes exactly when no key has a quote or a backslash |
| JsonBuilderKeys.AllHarmless | runtime/runtime.c:5235-5307 | from no quote of a built text, wherever the reader takes it for the start of a key, are more backslashes read than some key has, unless no value follows |
| StringMap.GetAfterSet | runtime/runtime.c:890-922 | after every history a lookup right behind a set gives the value set |
| StringMap.SetStops | runtime/runtime.c:896-903 | while not all slots are live the probing of a set ends |
| StringMap.LoopsIff | runtime/runtime.c:912-922 | a lookup probes forever exactly when no slot is empty and none holds the key |
| StringMap.Set | runtime/runtime.c:890-910 | in every run with removes the count is the number of live slots and stays within three quarters of the capacity |
| StringMap.Remove | runtime/runtime.c:936-951 | a remove keeps the count right |
| StringMap.SetRefines | runtime/runtime.c:890-910 | a set of a table without tombstones, across a rehash or not, is an update of the map it represents |
| StringMap.GetRefines | runtime/runtime.c:912-934 | a lookup then ends and answers as the map does |
| StringMap.MovedRefines | runtime/runtime.c:863-878 | after any number of copied slots the new table represents the entries copied so far |
| StringMap.GrownRefines | runtime/runtime.c:863-878 | a rehash keeps the map |
| StringMap.KeysRefine | runtime/runtime.c:953-970 | the key list holds every key exactly once, and the length is the size of the map |
| StringMap.SetsRefineMap | runtime/runtime.c:829-984 | every run without removes, from 16 slots or from the 4 of a JSON object (lines 5191-5230), represents the map of its last writes, and an empty slot always exists |
| StringMap.CapacityPowerOfTwo | runtime/runtime.c:863-888 | in every run the capacity is a power of two |
| StringMap.PutKeepsOneSlot | runtime/runtime.c:896-903 | storing keeps one slot for each key exactly when the slot it stops at is live or the key is nowhere else |
| StringMap.LookupCanLoop | runtime/runtime.c:936-951 | a run of sets and removes after which every lookup loops |
| StringMap.RemoveCanResurrect | runtime/runtime.c:896-951 | a run in which removing a key brings an older value of it back |
| StringMapRuns.RunsChained | runtime/runtime.c:829-984 | in every run with removes and rehashes each live entry sits behind an unbroken run of slots that are not empty |
| StringMapRuns.FoundIff | runtime/runtime.c:912-934 | hence a lookup finds a key exactly when some slot holds it |
| StringMapRuns.RemoveForgetsIff | runtime/runtime.c:936-951 | after a remove the key is gone exactly when no two slots held it |
| StringMapRuns.AlwaysForgetsIff | runtime/runtime.c:829-984 | in a run removes forget their keys throughout exactly when no set fills a free slot in front of the live slot of its key |
| StringMapRuns.RunsRefineMap | runtime/runtime.c:829-984 | every such run, removes and rehashes included, represents the map of its last writes |
| StringMapRuns.KeepsGet | runtime/runtime.c:912-934 | a lookup then gives what the map has, and of a key that the map does not have gives nothing or does not end |
| StringTable.StringTable.Set | runtime/runtime.c:890-910 | the probing loops over the slot array do what the set function says |
| StringTable.StringTable.Grow | runtime/runtime.c:863-878 | so does the rehash loop |
| StringTable.StringTable.Lookup | runtime/runtime.c:912-922 | so does the lookup loop, zero standing for an absent key |
| StringTable.StringTable.Contains | runtime/runtime.c:924-934 | so does the membership loop |
| StringTable.StringTable.Remove | runtime/runtime.c:936-951 | so does the removing loop |
| StringTable.StringTable.ListKeys | runtime/runtime.c:958-970 | the key array is filled with the keys of the live slots in order |
| Channel.Channel.Send | runtime/runtime.c:769-779 | the value is appended to the queue held by the linked nodes |
| Channel.Channel.TryRecv | runtime/runtime.c:794-809 | the first value is taken if there is one, otherwise nothing changes |
| Channel.FirstTaken | runtime/runtime.c:781-809 | a receive, at once or when woken, takes the first value of a queue that has one, and its thread does not sleep |
| Channel.NoneTaken | runtime/runtime.c:781-809 | of an empty queue nothing is taken: `recv` sleeps, `try_recv` changes nothing |
| Channel.StepKeepsInv | runtime/runtime.c:769-809 | every critical section, and every spurious wakeup, keeps order and wakeups right |
| Channel.ReachableInv | runtime/runtime.c:769-809 | in every interleaving the values taken and then the queue are the values sent, and while a receiver sleeps at least as many are woken as values are queued |
| Channel.EachReceiveTakesOne | runtime/runtime.c:781-809 | in every interleaving each call of `recv` has taken exactly one value or is still blocked, and each call of `try_recv` at most one |
| Channel.SomeoneWillTake | runtime/runtime.c:781-792 | with values queued and a receiver asleep, some woken receiver can run and will take the first value |
| Channel.WokenDrainQueue | runtime/runtime.c:781-792 | once all woken receivers have run, the queue is empty or nobody sleeps |
| Crc32.ShiftLinear | runtime/runtime.c:1453-1455 | a shift of the register is linear over exclusive or |
| Crc32.FeedIsShifts | runtime/runtime.c:1453-1462 | adding bits at once and shifting is feeding them one by one |
| Crc32.TableStep | runtime/runtime.c:1460-1462 | one lookup and one exclusive or do eight bit steps |
| Crc32.BuildTable | runtime/runtime.c:1449-1458 | all 256 entries are eight shifts of their index |
| Crc32.TableCrc | runtime/runtime.c:1448-1464 | on every byte sequence the table routine computes the CRC taken one bit at a time |
| CrcRemainder.RegisterIsRemainder | runtime/runtime.c:1453-1462 | after every message the register is the remainder modulo two of the dividend by a polynomial given by its exponents |
| CrcRemainder.CrcIff | runtime/runtime.c:1448-1464 | a number is the checksum exactly when its complement is the remainder of the message, its first 32 bits complemented and 32 zeros behind it, by the polynomial with exponents 32, 26, 23, 22, 16, 12, 11, 10, 8, 7, 5, 4, 2, 1 and 0 |
| Zip.LeRoundTrip | runtime/runtime.c:1466-1479 | a number is read back from the little-endian bytes it was written as |
| Zip.ReadField | runtime/runtime.c:1466-1479 | each field of a header is read back at its offset |
| Zip.ParseArchive | runtime/runtime.c:1499-1541 | the reader ends on every byte sequence and computes the member list |
| Zip.LocalLaidOut | runtime/runtime.c:1553-1574 | where a local header was written the reader finds its signature, sizes, name and data |
| Zip.ParseWritten | runtime/runtime.c:1499-1616 | parsing a written archive gives the members in order and nothing else, names cut to 16-bit lengths |
| Zip.RoundTripIff | runtime/runtime.c:1499-1616 | hence it gives the members back exactly when all names are shorter than 65536 bytes |
| Zip.LongNameLost | runtime/runtime.c:1561-1561 | a member with a name of 65536 bytes comes back without a name |
| ZipBytes.LocalBytesAre | runtime/runtime.c:1553-1572 | every byte of a local header, checksum and sizes included, then the name cut to its length field and the data |
| ZipBytes.CentralBytesAre | runtime/runtime.c:1579-1600 | every byte of an index entry, both sizes and the offset included |
| ZipBytes.EndBytesAre | runtime/runtime.c:1605-1613 | every byte of the end record, with the counts, the size and the start in their widths |
| ZipBytes.ReaderStep | runtime/runtime.c:1508-1538 | at any place of any bytes, whether the reader goes on, which member it takes and where it looks next |
| ZipBytes.AdditionIs | runtime/runtime.c:1649-1664 | an addition keeps the members of other names and puts the new one last, with what a 32-bit length leaves of its content |
| ZipStore.WriteLocals | runtime/runtime.c:1548-1574 | the first loop writes the local blocks and remembers checksums and 32-bit offsets |
| ZipStore.WriteCentrals | runtime/runtime.c:1576-1602 | the second loop writes the central directory from what was remembered |
| ZipStore.WriteArchive | runtime/runtime.c:1544-1616 | the writer produces the archive, the index size being a difference of wrapping cursors |
| ZipStore.CursorSpan | runtime/runtime.c:1573-1603 | that difference is the number of index bytes in 32 bits, however often the cursor wrapped |
| ZipStore.EndOfArchive | runtime/runtime.c:1605-1613 | the last 22 bytes are an end record with the count, size and start of the index |
| ZipStore.IndexLocates | runtime/runtime.c:1576-1602 | under four gigabytes each index entry carries its member's name, checksum and size and points at its local header |
| ZipStore.Apply | runtime/runtime.c:1649-1677 | an add or a remove rewrites the file as the changed member list |
| ZipStore.Extract | runtime/runtime.c:1638-1647 | the loop finds the first member of the name |
| ZipStore.RunsKeepMembers | runtime/runtime.c:1499-1677 | in every run from an absent file, writing and reading between operations changes nothing, and there is one member for each name |
| ZipStore.RunsRefineMap | runtime/runtime.c:1638-1677 | after every run each name finds what was last added under it and not removed |
| ZipStore.ExtractIsLastContent | runtime/runtime.c:1638-1677 | extracting gives that content whole |
| ZipStore.CountIsNames | runtime/runtime.c:1618-1622 | the entry count is the number of names with content |
| Strings.NextIsFirst | runtime/runtime.c:1044-1044 | the search finds the first occurrence or there is none |
| Strings.PieceCount | runtime/runtime.c:1065-1096 | the counting pass counts one less than the filling pass fills |
| Strings.JoinSplit | runtime/runtime.c:1065-1124 | joining the pieces of a split with the delimiter gives the string, for every delimiter, the empty one included |
| Strings.SplitJoinIff | runtime/runtime.c:1065-1124 | for every delimiter, splitting a joined list gives the parts back exactly when no part lets a delimiter start before the one behind it, or for the empty delimiter when they are single characters or one empty part |
| Strings.PartCutInTwo | runtime/runtime.c:1065-1124 | a part with a comma in it comes back as two when joined by commas |
| Strings.SeparableByChar | runtime/runtime.c:1065-1124 | for one-character delimiters that means that no part contains it |
| Strings.ReplaceLength | runtime/runtime.c:1040-1048 | the length computed before writing is the length of the result |
| Strings.SplitString | runtime/runtime.c:1065-1100 | both branches fill the array of pieces |
| Strings.JoinStrings | runtime/runtime.c:1102-1124 | the filling pass ends exactly at the measured length with the joined text |
| Strings.ReplaceAll | runtime/runtime.c:1038-1061 | the buffer is filled to its end with the pieces joined by the replacement |
| Base64.LetterIsTable | runtime/runtime.c:2089-2089 | the letters are those of the encoder's table |
| Base64.EncodeBytes | runtime/runtime.c:2088-2104 | the loop fills the buffer of precomputed length with the encoding |
| Base64.DecodeText | crates/tinox/src/pm.rs:866-907 | the loop computes the decoding, malformed text included |
| Base64.QuadRead | crates/tinox/src/pm.rs:880-905 | the decoder reads a group back, in all three padding cases |
| Base64.DecodeEncoded | crates/tinox/src/pm.rs:866-907 | every byte sequence is decoded from every text that is its encoding but for white space |
| Base64.RoundTrip | runtime/runtime.c:2088-2104 | decoding what the runtime encoded gives the bytes back, for every byte sequence |
| Base64Text.GroupLetters | runtime/runtime.c:2088-2104 | an encoding is, for each three bytes, four letters of the alphabet of six bits each, and padding for what is missing |
| Base64Text.WovenDecoded | crates/tinox/src/pm.rs:866-907 | every byte sequence is decoded from its letters with spaces, tabs, newlines, form feeds and carriage returns between any of them |
| Base64Text.ForeignRefused | crates/tinox/src/pm.rs:867-882 | the first character that is no letter, no such gap and no padding makes decoding fail |
| DependencyWalk.Walk.Collect | crates/tinox/src/pm.rs:566-594 | the recursion with its visited set visits depth first, each coordinate once, and ends on every finite graph, cyclic or not |
| DependencyWalk.GlobalDepDirs | crates/tinox/src/pm.rs:553-564 | the result lists the directories and missing coordinates of that order of visits |
| DependencyWalk.ReportedOnce | crates/tinox/src/pm.rs:566-594 | each coordinate is reported at most once, as a directory or as missing |
| DependencyWalk.ReportedIsReachable | crates/tinox/src/pm.rs:566-594 | nothing is reported that is not reachable along dependencies without a url |
| DependencyWalk.VisitCloses | crates/tinox/src/pm.rs:566-594 | everything visited has its own dependencies visited when the walk returns |
| DependencyWalk.ReportsAllIff | crates/tinox/src/pm.rs:536-594 | on every cache everything reachable is reported exactly when what the walk visits first with a coordinate means the same as every valid reference to it |
| DependencyWalk.CompleteIff | crates/tinox/src/pm.rs:536-594 | where all paths are valid that is exactly when no coordinate is reached through two repositories one of which has it |
| DependencyWalk.SecondRepositoryIgnored | crates/tinox/src/pm.rs:573-576 | a cache and a manifest for which something installed and reachable is not reported |
| Install.OnlyUpsert | crates/tinox/src/pm.rs:137-142 | after an upsert the coordinate has exactly the new entry and the others keep theirs |
| Install.MetOnce | crates/tinox/src/pm.rs:959-1021 | a run steps through each coordinate at most once, and through none that was visited before |
| Install.RunLock | crates/tinox/src/pm.rs:959-1021 | over a whole run the entries of a coordinate stay, or become one entry for a dependency that the run stepped through, whose checksum was verified against the lock from before the run |
| Install.RunDupFree | crates/tinox/src/pm.rs:137-142 | a lock without duplicates stays without |
| Install.InstallKeepsHashes | crates/tinox/src/pm.rs:635-657 | without `--update` an entry for the same coordinate and url keeps its hash up to the case of ASCII letters, unless the one dependency the run stepped through with that coordinate carries its own matching checksum |
| Checksums.InstallKeepsDigests | crates/tinox/src/pm.rs:635-657 | so a hash written without capitals stays equal, and such a checksum is the new hash |
| Checksums.MismatchRefused | crates/tinox/src/pm.rs:635-657 | a download whose hash differs from the one that the dependency or the lock demands adds one failure and changes neither lock nor directories |
| Checksums.InstalledIff | crates/tinox/src/pm.rs:675-797 | a download is installed and pinned exactly when it unpacks and its hash is each demanded one up to the case of ASCII letters |
| Checksums.NotFetched | crates/tinox/src/pm.rs:675-797 | what is there already is taken as it is; without an address or anything behind it the dependency fails |
| Checksums.CentralUrl | crates/tinox/src/pm.rs:28-92 | without url and repository the central repository is asked, in the cache under its name |
| Checksums.RepositoryUrl | crates/tinox/src/pm.rs:60-92 | a named repository is the first with that id, and slashes at the end of its url are dropped |
| Checksums.NoUrlIff | crates/tinox/src/pm.rs:60-92 | there is no address exactly when url and repository are both given or the repository is not declared |
| Checksums.DirIff | crates/tinox/src/pm.rs:415-497 | a directory is refused exactly when a segment of its path is empty, a dot, two dots, or holds a slash, a backslash or a NUL |
| Install.InstallTwice | crates/tinox/src/pm.rs:959-1091 | after a run without failures another run downloads nothing, whatever the network then does, and changes neither lock nor directories |
| Install.Installer.InstallOne | crates/tinox/src/pm.rs:675-797 | one dependency: every failure, an existing directory, and a verified download with its lock entry |
| Install.Installer.InstallTransitively | crates/tinox/src/pm.rs:959-1021 | the recursion ends when all manifests declare coordinates of a finite set, and computes the run |
| Install.InstallProject | crates/tinox/src/pm.rs:1038-1091 | success means no failure, and leaving the file alone when nothing changed leaves it equal to the lock |
| InstalledDependencies.RunLeaves | crates/tinox/src/pm.rs:959-1021 | after a run without failures everything stepped through is in its directory with all that its manifest declares visited, and nothing else was installed or visited |
| InstalledDependencies.InstalledIff | crates/tinox/src/pm.rs:573-579 | the walk finds a dependency installed exactly when its directory was there before or the installer met that coordinate in that place |
| InstalledDependencies.NothingMissingIff | crates/tinox/src/pm.rs:553-594 | after an install without failures over any directories, the walk reports nothing missing exactly when that holds of all it visits |
| InstalledDependencies.NoClashInstalls | crates/tinox/src/pm.rs:538-594 | over any directories, where the installer met nothing reachable without urls with a url or through another repository, all that is reachable is installed |
| InstalledDependencies.ReachedIff | crates/tinox/src/pm.rs:538-594 | from an empty cache, a dependency reachable without urls is installed exactly when the installer did not meet its coordinate with a url or through another repository |
| InstalledDependencies.FreshInstallIff | crates/tinox/src/pm.rs:538-594 | and the walk reports nothing missing exactly when no dependency it visits was met so |
| InstalledDependencies.RunIsVisit | crates/tinox/src/pm.rs:538-594 | where nothing it meets has a url, the installer's recursion visits what the walk of its final cache will visit |
| InstalledDependencies.WalkIsInstallIff | crates/tinox/src/pm.rs:538-594 | after an install without failures over any directories, the walk visits exactly what the installer met when nothing met has a url, and then nothing is missing |
| InstalledDependencies.NoUrlsNothingMissing | crates/tinox/src/pm.rs:538-594 | so where no manifest declares a url nothing is missing, whatever the repositories |
| InstalledDependencies.UrlHidesCache | crates/tinox/src/pm.rs:968-971 | a project whose install succeeds and whose walk then reports something missing |
| TomlLines.FormatRead | crates/tinox/src/pm.rs:202-205 | a written `key = "value"` line is read as that key and value |
| TomlLines.LinesOfTerminated | crates/tinox/src/pm.rs:237-237 | lines written with newlines are read as those lines, less a carriage return at the end of one |
| Manifests.ParseManifest | crates/tinox/src/pm.rs:215-292 | the reading loop computes the manifest of the lines |
| Manifests.ClassifyLine | crates/tinox/src/pm.rs:202-205 | each written key line is classified as its key and value |
| ManifestLaws.SetDependencyPairs | crates/tinox/src/pm.rs:268-274 | reading the lines of a dependency table makes up the dependency again |
| ManifestLaws.ReadTop | crates/tinox/src/pm.rs:341-389 | what is kept of the old text contributes the package and no table |
| ManifestLaws.ParsedIsPlain | crates/tinox/src/pm.rs:202-292 | no text is read as a manifest with a newline or an outer quote in a value, or with an empty optional value |
| ManifestLaws.RoundTripIff | crates/tinox/src/pm.rs:187-410 | for every manifest and every old text, what was written is read back exactly when all values are plain, and there is a package or the old text has no package header |
| ManifestLaws.OuterQuoteLost | crates/tinox/src/pm.rs:202-205 | a name that begins with a quote is not read back |
| ManifestLaws.HeaderStays | crates/tinox/src/pm.rs:341-363 | a manifest without a package, written over a package header, is not read back |
| ManifestSurvivors.RewriteSurvivors | crates/tinox/src/pm.rs:345-378 | the loop keeps, in order, exactly the lines that are outside the tables by the last header at or before them and are not the package's name, version or description, and puts the fresh keys behind each package header |
| ManifestSurvivors.SurvivorsStay | crates/tinox/src/pm.rs:324-410 | for every old text and manifest the text written is those lines less one empty line at their end, with the fresh keys, then a package block if there was no header, then the tables |
| ManifestSurvivors.SurvivorsRead | crates/tinox/src/pm.rs:324-410 | and these are the lines read from it |
| ManifestSurvivors.KeptStands | crates/tinox/src/pm.rs:345-378 | each surviving line, as the line splitter gives it, stands behind what is written for the ones before it |
| ManifestBytes.RawWhole | crates/tinox/src/pm.rs:345-345 | the text is its lines and newlines, carriage returns included |
| ManifestBytes.StandsIff | crates/tinox/src/pm.rs:324-410 | for every old text and manifest, a surviving line stands byte for byte at its place in the new text exactly when it does not end in a carriage return and a newline, and is not an empty line behind which nothing survives, or a table comes next |
| ManifestBytes.AllStandIff | crates/tinox/src/pm.rs:324-332 | so all lines that the writer does not own survive byte for byte exactly when none of them ends in a carriage return and a newline, and the last is not empty or a table comes next |
| ManifestBytes.CrLfLost | crates/tinox/src/pm.rs:345-380 | a text whose carriage return is lost |
| ManifestText.HeaderRead | crates/tinox/src/pm.rs:187-197 | of lines with a bracket in front, whatever white space is around them, three open a known section |
| ManifestText.SettingRead | crates/tinox/src/pm.rs:202-205 | a word, an equals sign and a value are a setting of the known key, with any white space around them and any number of quotes around the value |
| ManifestText.NoiseRead | crates/tinox/src/pm.rs:246-263 | a line with neither says nothing |
| ManifestText.KeptIff | crates/tinox/src/pm.rs:345-378 | a line is kept unless the header above it is that of a table, or it sets name, version or description below the package header |
| ManifestText.TablesWritten | crates/tinox/src/pm.rs:304-408 | behind what is kept of any old text stand the tables, character for character |
| ManifestText.FreshText | crates/tinox/src/pm.rs:333-410 | the whole text of a manifest written where there was none |
| ManifestReruns.SurvivorsAgain | crates/tinox/src/pm.rs:324-410 | of a written text the same lines survive again, with the added header and the blank line before the tables |
| ManifestReruns.WriteAgainIff | crates/tinox/src/pm.rs:333-410 | writing the same manifest again changes nothing exactly when no surviving line of the old text ends with a carriage return, and a table is written, or a package block is added, or the surviving lines do not end in two empty ones |
| ManifestReruns.BlankLinesShrink | crates/tinox/src/pm.rs:380-383 | a text of two empty lines changes each time it is written |
| ManifestReruns.NewlineGrows | crates/tinox/src/pm.rs:358-375 | with a name that holds a newline the file is a line longer when written again |
| ManifestRewrites.WriteManifest | crates/tinox/src/pm.rs:333-410 | the loop, the joining and the appended tables produce the text |
| Lexemes.LexemeOnce | crates/tinox-lexer/src/lib.rs:372-495 | at each place at most one token starts, with one end |
| Lexemes.TilingUnique | crates/tinox-lexer/src/lib.rs:340-370 | a text has at most one cutting into tokens |
| Lexemes.SolidTokens | crates/tinox-lexer/src/lib.rs:340-370 | the tokens kept are in order, disjoint and in bounds, the last is the end of the text, and every place between them is in a blank, a newline or a comment that is no doc comment |
| LexemeText.OperatorIff | crates/tinox-lexer/src/lib.rs:1017-1235 | the operator at a place is the longest of the written operators that stands there |
| LexemeText.SolidIff | crates/tinox-lexer/src/lib.rs:102-108 | the parser gets every token but spaces, tabs, carriage returns, newlines, line comments and block comments that begin with one star |
| LexemeText.ForeignStops | crates/tinox-lexer/src/lib.rs:372-495 | a token begins with a character of one list; any other fails |
| LexemeWritten.EscapeIff | crates/tinox-lexer/src/lib.rs:705-762 | an escape is one of seven letters, two digits, at most six in braces or eight, with a number that is a character |
| LexemeWritten.StringIff | crates/tinox-lexer/src/lib.rs:591-648 | a string is characters, escapes and code with balanced braces up to a quote, and interpolated exactly when it has code |
| LexemeWritten.WrittenNumber | crates/tinox-lexer/src/lib.rs:821-989 | the digits of every number in every base up to sixteen, leading zeros or not, are read as that number |
| LexemeWritten.TokenIff | crates/tinox-lexer/src/lib.rs:372-1235 | for every kind of token, it goes from here to there exactly when that text is written there |
| Lexer.Lexer.ReadGreater | crates/tinox-lexer/src/lib.rs:1121-1147 | the longest operator is taken |
| Lexer.Lexer.ReadBlockComment | crates/tinox-lexer/src/lib.rs:554-589 | a comment runs to the first closing mark or the end of the text |
| Lexer.Lexer.ReadString | crates/tinox-lexer/src/lib.rs:591-648 | a string with escapes and nested interpolations ends at its closing quote, and fails exactly when it has none or a bad escape |
| Lexer.Lexer.ReadRawString | crates/tinox-lexer/src/lib.rs:650-703 | a raw string ends at the first quote with its number of hashes, and fails exactly when there is none |
| Lexer.Lexer.ReadEscape | crates/tinox-lexer/src/lib.rs:705-748 | escapes end where the grammar says and fail otherwise, at the end of the text too |
| Lexer.Lexer.ReadNumber | crates/tinox-lexer/src/lib.rs:821-989 | the kind and end of a number in every radix, and failure exactly for numbers out of range |
| Lexer.Lexer.NextToken | crates/tinox-lexer/src/lib.rs:372-495 | a token from here, or proof that none starts here; the cursor moves on |
| Lexer.NoTiling | crates/tinox-lexer/src/lib.rs:345-353 | a text on which a token fails cannot be cut into tokens |
| Lexer.Tokenize | crates/tinox-lexer/src/lib.rs:340-370 | it ends on every text, succeeds exactly when the text can be cut into tokens, and gives those that are not trivia |
| NodeIds.Numberer.NumberExpr | crates/tinox-parser/src/node_ids.rs:133-136 | an expression and all inside it get consecutive ids from the counter on, nothing else changes |
| NodeIds.Numberer.NumberKind | crates/tinox-parser/src/node_ids.rs:133-237 | of every kind of expression the ids listed inside it become consecutive ones, and nothing else changes |
| NodeIds.Numberer.NumberStmtKind | crates/tinox-parser/src/node_ids.rs:55-125 | the same for every kind of statement |
| NodeIds.Numberer.NumberDeclKind | crates/tinox-parser/src/node_ids.rs:25-53 | the same for every kind of declaration |
| Places.ListedUnfold | crates/tinox-parser/src/node_ids.rs:12-238 | for every kind of node, the ids listed are its own and those of each field that holds an expression, a statement or a declaration, in order |
| Places.PlacesApart | crates/tinox-parser/src/node_ids.rs:12-238 | expressions at different places of a tree are listed at different positions |
| Places.PlaceFound | crates/tinox-parser/src/node_ids.rs:12-238 | and at every position there is an expression at some place |
| Places.ListedInRow | crates/tinox-parser/src/node_ids.rs:1-18 | a file whose ids are listed in a row has each id from 1 up to the counter at exactly one place |
| SameTrees.SameFile | crates/tinox-parser/src/node_ids.rs:12-238 | files are the same exactly when they are the same without ids and list the same ids, so wiping and listing miss nothing |
| NodeIds.AssignNodeIds | crates/tinox-parser/src/node_ids.rs:12-18 | the expressions of the same tree carry 1 to n in the order of its fields, n + 1 is returned, and every expression at any place has one of these ids, different from that at any other |
| NodeIds.EachIdOnce | crates/tinox-parser/src/node_ids.rs:1-8 | so every id from 1 to n is used once and zero is not used |

## Left out

- Floating point: `%g`, `strtod` and `atof` are library behaviour. The JSON model has no float tree to print, and the lexer asks an arbitrary predicate whether a float text is a finite number.
- JsonPrinter.RoundTrip: integers are unbounded in the reader; what its 64-bit accumulator does on INT64_MIN, which C leaves undefined, is not modelled, only that no other printed integer meets it.
- JsonPrinter.IntRoundTrip: the same; `Decimal.AccumulatorFits` has the condition.
- JsonParser.ReadNumber: the same, of any text: a number of more digits than fit is read as itself, where the source overflows.
- JsonParser.ReadValue: the arena, the tags and the probing table behind a parsed object are not modelled; an object is a map and an array a sequence.
- StringTable.StringTable.Lookup: asks for a lookup that does not loop, since the source does not return otherwise; `StringMap.LoopsIff` says when that is.
- StringTable.StringTable.Contains: asks for the same.
- StringTable.StringTable.Remove: asks for the same.
- ManifestReruns.WriteAgainIff: asks for values without a newline; no manifest that was read has others (`ManifestLaws.ParsedIsPlain`), and lines that come out of such a value are the package's own or not as they happen to read (`ManifestReruns.NewlineGrows`).
- ManifestReruns.SurvivorsAgain: asks for the same.
- ManifestSurvivors.SurvivorsRead: asks for the same; `SurvivorsStay` does not.
- Channel.StepKeepsInv: mutex and condition variable are modelled as the order of critical sections, not as operations of their own.
- The concrete FNV hash of the map, its borrowed keys, and `tinox_map_values`, which repeats the key listing.
- Sort.SortRange: elements are unbounded integers, since nothing is computed from them.
- ZipStore.Apply: opening and writing the file always succeed; the member count fits a C `int`.
- Strings.ReplaceAll: lengths are unbounded; the product in the computed length may wrap in `size_t` and is right modulo its width.
- Install.Installer.InstallOne: retries, the registry envelope, unpacking, staging directories and races with other installers are one answer of the download function for each coordinate and url.
- Install.Installer.InstallTransitively: ends only because all manifests declare coordinates of a finite set; a registry that invents new ones forever would keep the source busy too.
- Install.InstallProject: asks for the same.
- DependencyWalk.CompleteIff: asks for valid path segments; `DependencyWalk.ReportsAllIff` does not.
- DependencyWalk.GlobalDepDirs: the home directory is known, and an unreadable manifest counts as one without dependencies.
- Manifests.ParseManifest: comments inside dropped tables are dropped by the source and by the model.
- Lexer.Tokenize: does not keep line, column or decoded literal values, because the code rewinds its position without its column and does not count newlines inside interpolations; which values make a literal fail is modelled. The table of keywords is a parameter, any set of words.
- NodeIds.Numberer.NumberExpr: trees are values, so writing ids in place is a new tree; the 32-bit counter does not wrap.
- Memory management, `free`, garbage collection and thread registration: memory is managed and strings are values.
- Sockets, servers, TLS, HTTP, database drivers, compression, regular expressions and ciphers: foreign libraries and input/output.
- Digest functions (MD5, SHA, HMAC): long, with nothing to compare them to but themselves.
- The formatter, type checker, code generator, language server and editor plugins.
