# Verified model of the AmiInternals tools

AmiInternals is a set of small C tools for classic AmigaOS. This project models the tools that hold
real algorithms and proves what they promise, for all inputs and for all behaviours of the operating
system underneath.

* **Directory walkers** (DU, Find, Tree): recursive scans whose buffers live in static arrays indexed
  by depth. `Volumes` holds the DOS calls, the buffers and path joining; `DiskUsage`, `FindFiles` and
  `TreeTool` the three programs; `Trees` says what a walk over a tree should find and what it means
  that a volume shows a tree; `Paths` resolves path names; `Reach` says exactly what every run reports,
  also when objects cannot be read; `Agreement` compares the tools.
* **Command line** (`StartArgs`): the tokenizer of the shared startup code.
* **Streams** (`StringsTool`, `Lines`, `SnapDiff`, `HexDump`): whole-file meanings of chunked loops.
* **Numbers and snapshots** (`Numbers`, `Snapshot`): printers against parsers, and the injectivity of
  the snapshot text as SnapDiff sees it.
* **State machines** (`Which`, `Boot`): a possibly cyclic search path, and a write/verify protocol on
  an unreliable disk.

## How the system is modelled

* `byte`, `LONG` and `ULONG` are subset types, so every arithmetic step is proved to stay inside its C
  type; the counters that may wrap do so explicitly (`Wrap`), and DU's byte total saturates.
* `Streams.InFile.Read` delivers any non-empty part of what was asked for, or fails; `Sink.Write` may
  stop anywhere. Ghost flags (`failed`, `short`) record what happened, so that exit codes can be
  stated exactly. A seek beyond the end of a file fails.
* A `Volume` answers Lock, Examine and ExNext for every path and listing position in any way at all;
  listings may be endless and directories may contain one another. A `Dos` may even answer as a different
  volume at each call; a steady one is the same volume throughout. Termination, locks and buffers of DU and
  Find are proved for every DOS, the results for steady ones. `Trees.Shows` says that such
  answers are true of a finite tree except for failures, which may occur at every call. The position
  of a listing is kept in its FileInfoBlock, so a recursion that clobbered the block of an outer level
  would break the proofs.
* A component chain or an Exec list is an address space in which each node names its successor.
* `Boot.Trackdisk` may fail every command, may leave any bytes after a write or an update, and may
  deliver any bytes on a read; the ghost fields `failed`, `corrupted` and `lied` record it.
* The C functions `scan_dir`, `build_argv`, `emit_line` and the `main` functions are cut into several
  methods at their natural seams (one loop or one loop body each); the branches and their order are
  those of the source.
* What `Open` returned is a parameter: a null file stands for a file that cannot be opened.

Three results are about what the programs do not promise, each with the exact condition under which
they do: Tree's exit code says nothing about failed listings (`TreeTool.FailedListingIsSilent`, and
`TreeTool.ExactRuns` for when an error-free run is exact), SnapDiff needs reads that fill the buffer
(`SnapDiff.ShortReadsMislead`, and `SnapDiff.IdenticalBlocks` for when it says IDENTICAL), and Which's
limit warning does not mean that a component was left out (`Which.LimitWithoutLoss`,
`Which.RingReachesLimit`, and `Which.LimitMeansLoss` for when it does).

## Model

| member | source | states |
|---|---|---|
| `Numbers.ParseU32` | src/hex/main.c:30-53 | accepts a string iff it is a decimal or `0x` numeral whose mathematical value is at most 2^32-1, and then returns that value; the 32-bit steps never overflow |
| `Numbers.NumeralForms` | src/hex/main.c:35-39 | a numeral is decimal digits, or `0x` or `0X` followed by at least one hexadecimal digit |
| `Numbers.DigitsNamed` | src/hex/main.c:41-45 | the digit values of the sixteen digits, upper and lower case, and of no other character |
| `Numbers.ValueIsPositional` | src/hex/main.c:48 | the first digit of a numeral counts its value times the base to the number of digits after it |
| `Numbers.ParseLineCount` | src/head/main.c:12-23 | Head's (and Tail's) parser: the value for decimal numerals up to 32767, -1 for everything else |
| `Numbers.ParseMinimum` | src/strings/main.c:13-28 | the differently guarded parser of Strings accepts exactly the same numerals with the same values |
| `Numbers.PutU32` | src/common/output.c:25-37 | emits the canonical decimal numeral; the index into the 11-byte buffer never underflows |
| `Numbers.DecimalReadsBack` | src/common/output.c:25-37 | the numeral printed for v has value v and no leading zero |
| `Numbers.ULongLength` | src/common/output.c:27-34 | a 32-bit number needs between one and ten digits |
| `Numbers.PutS32` | src/common/output.c:39-47 | emits the signed numeral of every LONG; no intermediate value leaves its C type, the least LONG included |
| `Numbers.SignedReadsBack` | src/common/output.c:39-47 | the signed numeral reads back as the number |
| `Numbers.PutVersion` | src/common/output.c:49-54 | prints version and revision around a dot |
| `Numbers.VersionInjective` | src/common/output.c:49-54 | different versions or revisions are printed differently |
| `Numbers.PutHex32` | src/hex/main.c:21-28 | writes the eight hexadecimal digits of the value after what the line already holds |
| `Numbers.PrintedDecimalParses` | src/common/output.c:25-37 | Hex's parser inverts the decimal printer on all 32-bit values |
| `Numbers.PrintedHexParses` | src/hex/main.c:21-28 | Hex's parser inverts `0x` followed by the hexadecimal printer on all 32-bit values |
| `StartArgs.BuildArgv` | src/common/start_cli_args.c:19-67 | for every line and length, argv and the argument buffer hold the program name and exactly the first 16 of the recursive tokenizer's arguments of the first 255 characters, packed one after another, with a null entry at the end |
| `StartArgs.CopyArg` | src/common/start_cli_args.c:46-62 | one argument is copied completely with its terminator, so the two capacity guards never drop a character |
| `StartArgs.PackAt` | src/common/start_cli_args.c:40-62 | the images of the arguments are disjoint, consecutive and each ended by NUL |
| `StartArgs.TokensAreReceived` | src/common/start_cli_args.c:40-66 | reading the argv entries as C strings gives back the tokens |
| `StartArgs.TokensOfLine` | src/common/start_cli_args.c:30-63 | the tokenizer inverts the writing of plain and quoted arguments with any blanks before, between and after them; a quoted argument needs none after it |
| `StartArgs.TokensInCharacters` | src/common/start_cli_args.c:30-63 | how any line is cut, in its own characters: spaces, tabs, returns and newlines are skipped, an argument goes on to the next quote or the next of these, or to the end of the line |
| `StartArgs.CommandLineRoundTrip` | src/common/start_cli_args.c:19-67 | a line of at most 255 characters, on which at most 16 arguments are written, quoted or plain, with any spaces, tabs, returns and newlines around them, is received as exactly that list, each text in the buffer with a NUL after it |
| `StringsTool.ListedRuns` | src/strings/main.c:30-33 | what is listed are exactly the stretches of bytes from blank to tilde, of the minimum length, that cannot be extended, in order |
| `StringsTool.ListingReadsBack` | src/strings/main.c:72-112 | the report is the bytes of each listed run followed by a newline, and nothing else |
| `StringsTool.ListStrings` | src/strings/main.c:72-112 | for every file, every fragmentation into reads and every minimum 1..255 the output is the text and newline of every such run; after a failure it is a prefix of that; exit 0 iff nothing failed |
| `StringsTool.PutByte` | src/strings/main.c:77-86 | the 255-byte flush keeps the output a prefix of the report, for runs of any length |
| `StringsTool.EndRun` | src/strings/main.c:88-98 | a run that ends is completed with a newline iff part of it was already written or it is long enough |
| `StringsTool.Strings` | src/strings/main.c:56-117 | the whole tool: minimum 4 or a given 1 to 255, exit 10 exactly for refused arguments, exit 5 exactly after a failure, exact output on exit 0 and a prefix of it otherwise |
| `Lines.Head` | src/head/main.c:35-77 | prints the shortest prefix with the wanted number of newlines, or the whole file; exit codes for every outcome |
| `Lines.CopyHead` | src/head/main.c:53-76 | the chunked loop, for every fragmentation; what was written is always a prefix of the file |
| `Lines.HeadUnique` | src/head/main.c:53-76 | that prefix is determined by file and count |
| `Lines.HeadLines` | src/head/main.c:53-76 | that prefix is exactly the first parts of the file cut after each newline, up to the wanted number |
| `Lines.FindTailStart` | src/tail/main.c:66-91 | the backward scan in 512-byte chunks finds the start of the longest suffix with at most the wanted number of newlines |
| `Lines.Tail` | src/tail/main.c:35-106 | prints exactly that suffix on exit 0; the exit code is 0, 5 or 10, 10 exactly for refused arguments, 5 after every failed open, read, seek or write, and 5 for no other reason than these or a short read, so a run without any of them prints the suffix |
| `Lines.TailUnique` | src/tail/main.c:66-102 | that suffix is determined by file and count |
| `Lines.TailLines` | src/tail/main.c:66-102 | that suffix is exactly the last parts of the file cut after each newline, one more than the wanted number |
| `Lines.HeadThenTail` | src/tail/main.c:66-102 | conservation: Head's output for k followed by Tail's for n is the file when it has k+n newlines and n > 0 |
| `Lines.HeadOfAllLines` | src/head/main.c:53-76 | for n = 0, where Tail prints nothing, Head alone gives the file back iff it is empty or ends in a newline |
| `SnapDiff.Compare` | src/snapdiff/main.c:43-83 | the loop computes, in 32-bit arithmetic, the report of the blocks the reads delivered; with complete reads that is the report of the whole files |
| `SnapDiff.CompareCommon` | src/snapdiff/main.c:61-70 | the position loop over the common part |
| `SnapDiff.Run` | src/snapdiff/main.c:43-102 | the printed report is that of the blocks delivered, and the exit code follows it; exit 0 only for equal files, and exactly then when no read was short or failed |
| `SnapDiff.ReportReadsBack` | src/snapdiff/main.c:88-102 | the printed text for two files: IDENTICAL for equal files, otherwise the least differing position and the number of differing bytes, and the length of the longer file |
| `SnapDiff.WholeConcat` | src/snapdiff/main.c:61-82 | reporting on two pairs of blocks one after the other is reporting on their concatenations |
| `SnapDiff.FirstDifferenceIsLeast` | src/snapdiff/main.c:63-67 | the first difference is the least position where the files disagree |
| `SnapDiff.DistanceZero` | src/snapdiff/main.c:88-102 | no differing bytes iff the files are equal |
| `SnapDiff.DistanceCounts` | src/snapdiff/main.c:61-79 | the distance is the number of common positions that differ plus the difference of the lengths |
| `SnapDiff.DistanceSymmetric` | src/snapdiff/main.c:61-79 | the number of differing bytes does not depend on the order of the files |
| `SnapDiff.DistanceTriangle` | src/snapdiff/main.c:61-79 | triangle inequality over three files of any lengths |
| `SnapDiff.IdenticalBlocks` | src/snapdiff/main.c:57-83 | IDENTICAL is reported iff both files were delivered in the same blocks |
| `SnapDiff.IdenticalIsSound` | src/snapdiff/main.c:88-93 | IDENTICAL is never reported for different files, whatever the read sizes |
| `SnapDiff.ShortReadsMislead` | src/snapdiff/main.c:48-49 | a short read makes equal files look different: the loop relies on reads filling the buffer |
| `HexDump.EmitLine` | src/hex/main.c:55-74 | writes the address, the 16 columns and the character column; at most 76 of the 80 buffer bytes are used |
| `HexDump.LineLayout` | src/hex/main.c:55-74 | a line character by character: address digits, columns of two digits and a blank, and the bytes with a dot for each unprintable one |
| `HexDump.LineReadsBack` | src/hex/main.c:15-28 | address and bytes can be read back from a line |
| `HexDump.DumpReadsBack` | src/hex/main.c:55-74 | a whole dump reads back as its lines' addresses and bytes |
| `HexDump.DumpRange` | src/hex/main.c:104-145 | the dump covers the file from the offset to the end of file, request or seek range, for every fragmentation; no ULONG step wraps; terminates |
| `HexDump.SuccessfulDumpReadsBack` | src/hex/main.c:121-141 | decoding the output of a successful run gives file[offset..end], each line labelled with the position of its first byte |
| `HexDump.ParseRequest` | src/hex/main.c:87-108 | arguments are refused exactly when malformed or outside the 2^31 seek range |
| `HexDump.Hex` | src/hex/main.c:76-146 | the exit code is 10 iff the arguments are refused, 5 iff the file cannot be opened or something fails, with a prefix of the dump, and otherwise 0, and then the whole range was dumped |
| `Snapshot.CountList` | src/snapshot/main.c:14-33 | the count is min(length, 512), truncated iff the list is longer, also for a list that never ends |
| `Snapshot.RowLength` | src/snapshot/main.c:14-33 | a list of n nodes and a tail marker has length n |
| `Snapshot.Run` | src/snapshot/main.c:59-90 | writes the record of the 14 values in order; exit 5 iff some list was truncated |
| `Snapshot.TextReadsBack` | src/snapshot/main.c:73-88 | the text is the heading, the format and one line KEY=value for each of the 14 named values in order, each value as its decimal numeral |
| `Snapshot.RecordInjective` | src/snapshot/main.c:35-41 | equal records have equal values |
| `Snapshot.SnapshotsCompare` | src/snapshot/main.c:73-88 | SnapDiff's report on two snapshots says IDENTICAL iff all 14 values agree |
| `Volumes.AppendName` | src/du/main.c:24-47 | succeeds iff the path joined with a slash, unless the base is empty or ends in ':' or '/', has at most 255 characters, and then the buffer holds exactly it and a NUL |
| `Volumes.AppendNameUnchecked` | src/tree/main.c:16-37 | Tree's variant joins the name to the base cut off at 255 characters and succeeds iff that fits; on every name that is not empty this is the same outcome and the same path as for the checked variant |
| `DiskUsage.DU.AddSize` | src/du/main.c:49-60 | saturating addition of positive sizes |
| `Volumes.Slots.constructor` | src/du/main.c:16-17 | the 17 blocks and 17 path buffers of the walkers, all different |
| `DiskUsage.DU.ScanDir` | src/du/main.c:62-126 | whatever DOS answers at each call: all locks are given back, at most 17 are held at once, only buffers of this depth and below are written, and the scan terminates; on a steady DOS the counters grow by exactly the tally of the path |
| `DiskUsage.DU.NextEntry` | src/du/main.c:95-113 | one turn of the listing loop: the listing position and the path survive the recursion |
| `DiskUsage.DU.Run` | src/du/main.c:128-158 | prints the four totals in 32 bits and the path; exit code 5 iff the error counter is not zero |
| `DiskUsage.SummaryReadsBack` | src/du/main.c:145-155 | whatever was counted, the printed line splits at its blanks into the numerals of bytes up to 2^32-1 and of files, directories and errors modulo 2^32, and the path or a dot |
| `DiskUsage.ScanMeaning` | src/du/main.c:62-126 | on a volume showing a tree with any failures: files, dirs and bytes are lower bounds, errors are 0 iff every object could be read within the limits, then all numbers are exact, and there are at most as many errors as objects |
| `DiskUsage.CleanRunIsExact` | src/du/main.c:62-126 | the same from depth 0, against the totals of the whole tree |
| `DiskUsage.ExitZeroIsExact` | src/du/main.c:128-158 | with fewer than 2^32-1 objects, exit code 0 means that everything could be read and that the printed line shows the true counts and the saturated byte total |
| `DiskUsage.FullDirectoryIsAnError` | src/du/main.c:95-118 | a directory with 1024 entries or more is counted as an error, also when exactly 1024 were all taken |
| `DiskUsage.Program` | src/du/main.c:128-158 | from arguments to exit code: 10 iff there are too many arguments, else 5 iff errors were counted; on a shown tree of fewer than 2^32-1 objects exit 0 iff everything could be read, and then the true totals were printed; no lock is kept |
| `FindFiles.ContainsCi` | src/find/main.c:29-43 | true iff the needle occurs in the text up to ASCII case |
| `FindFiles.ContainsIgnoresCase` | src/find/main.c:22-43 | an occurrence is a position from which each pair of characters is equal or the two cases of one of the 26 letters |
| `FindFiles.Find.ScanDir` | src/find/main.c:70-131 | locks, buffers and termination as for DU; on a steady DOS the printed lines and counters grow by exactly the search result of the path |
| `FindFiles.Find.ScanEntry` | src/find/main.c:95-117 | one entry: the path is printed iff its name matches, before what lies below it |
| `FindFiles.Find.Run` | src/find/main.c:133-158 | the output is the lines found and the two counters; exit code 5 iff the error counter is not zero |
| `FindFiles.OutputReadsBack` | src/find/main.c:104-157 | the output of any search is each line found with its newline, in order, then the numerals of matches and errors modulo 2^32 |
| `FindFiles.CleanRunIsExact` | src/find/main.c:70-131 | in every run the lines are some of the expected ones in order; errors are 0 iff the directory tree could be read within the limits, and then all expected lines are printed |
| `FindFiles.ExitZeroIsExact` | src/find/main.c:133-158 | with fewer than 2^32-1 objects, exit code 0 means that the search was complete, and then the whole output is that of the tree |
| `FindFiles.MatchesDistinct` | src/find/main.c:105-109 | no path is printed twice when the walked paths differ |
| `FindFiles.Program` | src/find/main.c:133-158 | from arguments to exit code: 10 iff their number is wrong, else 5 iff errors were counted; on a shown tree of fewer than 2^32-1 objects exit 0 iff the whole directory tree could be read, and then exactly the matching paths and their number were printed |
| `TreeTool.TreeList.ScanDir` | src/tree/main.c:47-100 | on every steady DOS whose listings stop, the printed lines and the counters grow by exactly the tally of the path; locks and buffers as for DU |
| `TreeTool.TreeList.Run` | src/tree/main.c:102-128 | the output is the indented lines and the three counters; exit code 5 iff the error counter is not zero |
| `TreeTool.OutputReadsBack` | src/tree/main.c:39-128 | the output of any run is one line per row, two blanks per level, `[D] ` or four blanks, the name, then the numerals of directories, files and errors modulo 2^32 |
| `TreeTool.TrueOutputReadsBack` | src/tree/main.c:39-128 | in the output of a complete listing the k-th line shows depth, kind and name of the k-th object of the walk |
| `TreeTool.ShownEnds` | src/tree/main.c:73-97 | the scan comes to an end on every volume that shows a finite tree, whatever fails |
| `TreeTool.ExactRuns` | src/tree/main.c:73-97 | the counters are lower bounds and the lines are some of the tree's in order; a run without errors is exact iff every listing delivered all its entries; exact error-free runs are those in which everything could be handled, and they print the whole tree |
| `TreeTool.ExitZeroIsExact` | src/tree/main.c:102-128 | with fewer than 2^32-1 objects, exit code 0 together with complete listings is equivalent to everything having been handled, and then the whole output is that of the tree |
| `TreeTool.FailedListingIsSilent` | src/tree/main.c:73-97 | a volume on which Tree reports no error and still misses an entry |
| `TreeTool.Program` | src/tree/main.c:102-128 | from arguments to exit code: 10 iff there are too many arguments, else 5 iff errors were counted; on a shown tree of fewer than 2^32-1 objects whose listings are complete, exit 0 iff everything could be handled, and then the tree was printed |
| `Agreement.ToolsAgree` | src/tree/main.c:47-100 | whenever DU ends without errors on a directory: Tree's files are DU's, its dirs plus one are DU's, and the k-th line of Tree and of Find with an empty needle show the k-th object of the same walk |
| `Agreement.ErrorsAgree` | src/find/main.c:119-128 | on a directory DU and Find are error-free together, whatever the needle |
| `Agreement.FindPrintsEachOnce` | src/find/main.c:95-117 | an error-free Find prints the matching paths in preorder, each once |
| `Agreement.FaultFreeRun` | src/du/main.c:62-126 | when nothing in DOS fails, DU is error-free iff the tree is within the depth, entry and path limits |
| `Reach.MetInOrder` | src/du/main.c:95-113 | the objects a walk meets are exactly those whose directories on the way can be entered and deliver their entries far enough, one for one, directories before their contents and entries as listed |
| `Reach.EverythingIsMet` | src/du/main.c:95-113 | a walk that sees everything meets the whole tree in that order |
| `Reach.ScanCounts` | src/du/main.c:62-126 | every DU run on a shown tree, whatever fails, counts exactly the objects met that fit, one error for each object that cannot be handled, and one for each listing that does not end properly below 1024 entries |
| `Reach.SearchPrints` | src/find/main.c:70-131 | every Find run on a shown tree prints exactly the matching ones of the objects met, in order |
| `Reach.ErrorsEqual` | src/find/main.c:119-128 | DU and Find count the same errors in every run on a directory, whatever Find looks for |
| `Reach.TreeLists` | src/tree/main.c:47-100 | every Tree run on a shown tree prints exactly the objects met without an entry limit, in order, and counts them |
| `Paths.ResolveChild` | src/du/main.c:36-39 | the joined path of an entry resolves to that entry |
| `Paths.WalkIsLocated` | src/du/main.c:95-113 | every path joined in a walk names the object it is meant for |
| `Paths.OnlyLimitsMatter` | src/du/main.c:95-125 | a well-formed tree is shown by its own fault-free volume, and only the tools' limits can cause errors there |
| `Paths.WalkedPathsDistinct` | src/find/main.c:95-117 | all joined paths of a walk are different |
| `Which.SearchPath` | src/which/main.c:131-147 | the loop tries at most 64 pairwise different components and stops at the first match, the first repetition, the end or the limit |
| `Which.FirstMatchIsFound` | src/which/main.c:140-143 | a matching component among the first 64 is reported, and it is the first one, on cyclic chains too |
| `Which.CycleIsGenuine` | src/which/main.c:134-137 | the cycle flag is set only for a chain that repeats for ever |
| `Which.CycleIsFound` | src/which/main.c:134-137 | a repetition among the first 64 places is flagged when nothing matches |
| `Which.SmallCycleIsFound` | src/which/main.c:80-88 | a chain that never ends among fewer than 64 components is always flagged |
| `Which.SilentMeansComplete` | src/which/main.c:167-171 | neither warning is given iff the chain ends before 64 components, and then every component was tried |
| `Which.LimitWithoutLoss` | src/which/main.c:169-171 | a chain of exactly 64 components gets the limit warning although all were tried |
| `Which.RingReachesLimit` | src/which/main.c:169-171 | so does a ring of 64 components, although all were tried and the chain is cyclic |
| `Which.LimitMeansLoss` | src/which/main.c:131-147 | after the limit warning some component of the chain is untried iff the chain has a 65th place and the component there is new |
| `Which.WarningsExact` | src/which/main.c:167-171 | without a match, the cycle is flagged iff a component repeats among the first 64 places, and the limit is reached iff 64 different components were tried |
| `Which.BuildCandidate` | src/which/main.c:149-155 | the 260-byte candidate holds `C:` and the name iff the name has at most 257 characters |
| `Which.HitMeansMatch` | src/which/main.c:131-147 | the loop ends with a component iff one of the first 64 has the entry, and it is the first one that has |
| `Which.WarningIsTrue` | src/which/main.c:167-171 | after a search without a match: no warning means that no component of the chain has the entry and the chain ends, the cycle warning means that none has it and the chain never ends, the limit warning that 64 different components were tried |
| `Which.Resolve` | src/which/main.c:106-172 | the resolution order direct, current, path, `C:`; each outcome and each warning exactly when its condition on the chain holds, and every answer true of the whole chain |
| `Boot.ParseUnit` | src/bootrestore/main.c:35-41 | accepts exactly DF0 to DF3 with or without a colon |
| `Boot.UnitsNamed` | src/bootrestore/main.c:35-41 | unit u is named by `DF` and its digit, with or without a colon, and by nothing else |
| `Boot.BlocksEqual` | src/bootrestore/main.c:25-33 | true iff all compared bytes agree |
| `Boot.LoadBlock` | src/bootrestore/main.c:98-104 | succeeds only when the buffer holds the whole file of exactly 1024 bytes |
| `Boot.WriteAndVerify` | src/bootrestore/main.c:106-145 | write, update, read, compare in this order; 0 iff no call failed and the bytes read back equal the block, so always 0 when nothing fails, corrupts or lies; every exit releases request and signal |
| `Boot.BootRestore` | src/bootrestore/main.c:79-151 | the disk is untouched unless arguments, YES, file size and set-up are good; other drives never change; exit 0 iff all three commands were issued, nothing failed and the bytes read back are the file's |
| `Boot.BootSave` | src/bootsave/main.c:60-106 | exit 0 iff nothing failed, and then the file is the block that was read; a partial file is removed |
| `Boot.SaveThenRestore` | src/bootsave/main.c:73-105 | a successful save followed later by a successful restore leaves the saved block on the named drive, whatever happened in between |

## Left out

- TreeTool.TreeList.ScanDir: requires a steady DOS on which every listing it reads stops, because Tree has no entry limit and its loop would not end on an endless directory; DU and Find need no such assumption.
- TreeTool.Program: the same requirement as for TreeTool.TreeList.ScanDir.
- Paths.OnlyLimitsMatter: takes names as they are written; AmigaDOS compares names without regard to case.
- HexDump.Hex: the error messages for refused arguments are not part of the output.
- Snapshot.Run: the case of a missing ExecBase, and Forbid/Permit around the counting.
- Which.Resolve: whether an entry exists is a parameter for each name and component; DupLock and CurrentDir calls and the printed text are not modelled.
- Boot.BootRestore: the fields of the message port and of the I/O request other than command, data and outcome.
- Banners, headings and usage messages, and the text Which prints.
- What the counters of DU and Find mean when the answers of DOS change during a run; only their locks, buffers, exit codes and termination are covered then.
- The startup code around build_argv: process and message handling, and opening of dos.library.
- The remaining tools, which are single loops over system lists or single checks, the timing tools and the CI scripts.
