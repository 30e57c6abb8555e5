# Verified model of the algorithms inside libblockdev

libblockdev is mostly a layer over other tools and libraries, but it holds several
algorithms and protocols of its own. This project models them in Dafny, with every
system call, library call and child process replaced by an arbitrary outcome, and proves
what they guarantee for all inputs, all outcomes and all interleavings.

`dafny verify dfyconfig.toml` checks the whole project.

| file | part of libblockdev |
|---|---|
| `ExecOutput.dfy`, `ExecRun.dfy` | splitting the output of a child process, running a command |
| `VdevForest.dfy`, `VdevParser.dfy` | the vdev tree of a ZFS pool, rebuilt from indentation |
| `DependencyChecks.dfy` | the double-checked cache of available dependencies |
| `ZfsCapabilities.dfy` | the cached ZFS version and the once-only capability record |
| `Versions.dfy`, `Decimal.dfy` | the three version comparisons and the version normaliser |
| `SubvolumeOrder.dfy` | the order of btrfs subvolumes |
| `PartitionTable.dfy`, `FreeRegion.dfy`, `PartitionResize.dfy`, `NextPartition.dfy`, `PartitionPath.dfy` | partition geometry, decisions and names |
| `ExtraArgs.dfy` | command lines with extra arguments |
| `ChiSquare.dfy` | the chi-square test for encrypted devices |
| `Wrappers.dfy`, `Runs.dfy`, `Sequences.dfy` | shared: values that may be absent, runs of a machine with atomic steps, concatenating and picking |

The main results, in short:

- **Output splitting.** However a stream is cut into reads and poll events, and however the two
  descriptors interleave, the lines offered to the extractor are those of splitting each stream
  once, in the order the polls determine. The output is exactly the lines that the extractor does
  not consume, and the reports are its completion values for those it does; without an extractor
  the output is the stream minus its NUL bytes. A run reports nothing, or one start, only steps,
  and one finish that carries its error.
- **Vdev tree.** The bounded stack machine over mutable nodes builds exactly the forest that
  recursive descent reads from the rows, which is the forest of nearest smaller indents, and
  shares no node; it fails exactly when that forest is more than 64 levels high, and then frees
  what it built, each node once; printing and parsing are inverse; a copy has the same shape and
  only new nodes.
- **Caches.** In every interleaving probes exclude each other, nothing is probed successfully
  twice, bits, TRUE and FALSE follow from the outcomes of the probes, a version query gets the
  cached version unless it failed itself, nothing deadlocks, a dependency check takes at most
  three steps per table entry and six more, and a ZFS capability check at most 22. The published
  capability record never claims too much, and it is exact, at once and for good, if and only if
  each of the two version queries of the publishing thread succeeded or its answer would have been
  negative anyway; a run in which a failed query spoils it is given.
- **Subvolumes.** The listing promises that no child precedes its parent
  (src/plugins/btrfs.c:640-641). The code does not always keep that promise.
  `SubvolumeOrder.OrderIsExact` says for which worklists it does: exactly those in which no
  first-listed child has a later-listed parent that gets caught behind it, a condition that can be
  read off the worklist before any insertion.
- **Versions.** The general comparison is a total order on the numbers it reads. Its documentation
  speaks of natural numbers and any release suffix (src/utils/exec.c:664-665); the code reads a
  leading zero as octal, stops at 64 bits and accepts one digit after the dash. It reads the
  numbers as written exactly if those with a leading zero are at most 7 and the others fit 64
  bits, and takes a release number exactly if it has one digit. The ZFS check agrees with it
  except for two-number versions against patch level 0 and for numbers that do not fit 32 bits and
  are stored too low; the kernel check exactly when the deciding difference fits a signed 32-bit
  number. Each condition comes with an input that fails.
- **Partitions.** The filled table keeps every entry and tiles the disk, so lookup by position is
  exact. A resized primary partition overlaps nothing, 64-bit wrap-around included; a request is
  rounded up exactly if the rounding does not wrap around, and one that wraps around sets no
  sectors instead of being refused. Requests for the "next" partition never yield a second
  extended partition. Numbers can be read back from paths for exactly the names described.

## Model

| member | source | states |
|---|---|---|
| `ExecOutput.SplitResumes` | src/utils/exec.c:340-354 | splitting a stream may stop anywhere and resume with the unfinished tail, without any effect on lines or tail |
| `ExecOutput.SplitKeepsBytes` | src/utils/exec.c:335-383 | the lines of a stream, joined, are the stream minus its NUL bytes |
| `ExecOutput.SplitIsPrecise` | src/utils/exec.c:310-322 | there is one closed line per newline or NUL, and a separator stands only at the end of a line, as a newline |
| `ExecOutput.StrChrLenNull` | src/utils/exec.c:311-322 | two byte searches and a minimum or maximum find the first separator, or nothing if there is none |
| `ExecOutput.NextSeparated` | src/utils/exec.c:343-354 | the next line cut out of the buffer is the next line of the one-shot split |
| `ExecOutput.Reader.ProcessEvent` | src/utils/exec.c:323-386 | after any event the offered lines are those of the one-shot split of all bytes read (with the tail once the end was seen), the kept text and completion are their replay; fails exactly on a read error |
| `ExecOutput.OtherUntouched` | src/utils/exec.c:500-519 | reading one descriptor changes neither the lines nor the kept text of the other |
| `ExecOutput.ReplayWithoutExtractor` | src/utils/exec.c:348-351 | without an extractor nothing is reported and each text is the concatenation of its lines |
| `ExecOutput.ReplayMeans` | src/utils/exec.c:348-351 | with any extractor: reported are the completion values of exactly the lines it consumed, and the text of a descriptor is exactly the lines of it that it did not consume, in order |
| `ExecOutput.VerdictsAreUnique` | src/utils/exec.c:348-351 | the extractor and the lines leave only one sequence of verdicts and completion values |
| `ExecRun.PollLoop` | src/utils/exec.c:488-519 | the poll loop ends in the failure and the end flags, and has offered the lines in the order, that the poll outcomes determine |
| `ExecRun.OffersSplit` | src/utils/exec.c:488-519 | in the lines offered for any polls, each descriptor's are those of splitting all its bytes once |
| `ExecRun.PollDelivers` | src/utils/exec.c:333-338 | one poll adds to a descriptor what it reads from it, and nothing if the descriptor is not looked at |
| `ExecRun.EndIsExplained` | src/utils/exec.c:364-371 | a descriptor is at its end exactly if some poll that looked at it saw a hang-up or the end of the file, and no read error |
| `ExecRun.FailureIsExplained` | src/utils/exec.c:488-519 | polling fails exactly if a poll does, or the reading of a descriptor that is still looked at |
| `ExecRun.PollOrder` | src/utils/exec.c:503-518 | within one poll, the lines of standard output are offered before those of standard error |
| `ExecRun.Reap` | src/utils/exec.c:526-559 | a failure exactly for a signal, a non-zero exit or a wait error; a status exactly if the process was reaped, zero exactly without failure; a failed exit reports standard error or else standard output |
| `ExecRun.Run` | src/utils/exec.c:388-576 | no report, or one start, then the steps of the offered lines, then one finish with the error; error exactly on FALSE; output only on success and equal to the replay of the offered lines; success decided by the system calls alone |
| `ExecRun.CapturedOutput` | src/utils/exec.c:488-576 | without an extractor a captured output is its stream minus the NUL bytes, for every cutting and interleaving |
| `ExecRun.SingleStream` | src/utils/exec.c:323-386 | with one silent stream, either one, the calls are those of one split of the other |
| `VdevForest.NearestIsUnique` | src/plugins/zfs.c:1414-1416 | the nearest earlier row with a smaller indent is characterised by the rows in between |
| `VdevForest.ReadingsAgree` | src/plugins/zfs.c:1393-1458 | recursive descent and nearest smaller indent read the same forest from any rows |
| `VdevForest.ForestKeepsOrder` | src/plugins/zfs.c:1433-1453 | the preorder of the forest is the row sequence |
| `VdevForest.DepthIsHeight` | src/plugins/zfs.c:1418-1421 | all rows have fewer than `bound` ancestors if and only if the forest is at most `bound` levels high |
| `VdevForest.PrintReadRoundTrip` | src/plugins/zfs.c:1393-1458 | reading a forest printed with strictly deepening indents gives the forest back |
| `VdevParser.TreeBuilder.Pop` | src/plugins/zfs.c:1414-1416 | popping leaves exactly the ancestors of the new row, its parent on top |
| `VdevParser.TreeBuilder.Link` | src/plugins/zfs.c:1433-1452 | the new node is appended to its parent's children (or the top level) and to no other list |
| `VdevParser.TreeBuilder.Push` | src/plugins/zfs.c:1400-1457 | a row is refused exactly when it has 64 or more ancestors, and its vdev is then not linked anywhere; otherwise the stack is again the chain down to the last row |
| `VdevParser.ChainIncreases` | src/plugins/zfs.c:1302-1305 | the stacked indents strictly increase |
| `VdevParser.Accept` | src/plugins/zfs.c:1331-1399 | the scan yields the wide lines between header and error summary that are not indented like the first |
| `VdevParser.AcceptedMeans` | src/plugins/zfs.c:1331-1399 | by position: behind the heading that follows the config line and up to the error summary, exactly the lines of five words that are not indented like the first such line, each with its first five words |
| `VdevParser.Parse` | src/plugins/zfs.c:1306-1471 | depth error exactly for forests over 64 levels, no-vdev error exactly for no rows, otherwise a tree of distinct heap nodes of the shape of the forest of the accepted rows; on the depth error the nodes made for the rows up to the first one too deep are freed, each of them once |
| `VdevParser.AllDrawn` | src/plugins/zfs.c:1433-1457 | nodes that hold exactly their children are a forest without sharing, labelled like the forest of the rows, whose preorder is their order of creation |
| `VdevParser.ListingRoundTrip` | src/plugins/zfs.c:1328-1458 | a listing of any forest is accepted as the printed rows, which read back as that forest |
| `VdevParser.ParseListing` | src/plugins/zfs.c:1306-1471 | parsing the listing of a forest fails exactly for an empty one and for one over 64 levels, and otherwise rebuilds it on the heap |
| `VdevParser.FreeBuilt` | src/plugins/zfs.c:1418-1431 | the refused vdev and the tree built so far can be freed one after the other: every node once, none left |
| `VdevParser.FreeAll` | src/plugins/zfs.c:104-118 | freeing trees frees all their nodes, as often as the trees contain them |
| `VdevParser.FreedOnce` | src/plugins/zfs.c:104-118 | so nodes that are not shared are each freed exactly once |
| `VdevParser.Copy` | src/plugins/zfs.c:76-102 | a copy has the same information in the same shape, and consists of new, unshared nodes |
| `DependencyChecks.StepKeepsInv` | src/plugins/check_deps.c:29-74 | every atomic step of every call keeps the invariant and never clears a bit |
| `DependencyChecks.RunsAreSafe` | src/plugins/check_deps.c:29-74 | in every interleaving: probes never overlap, no self-deadlock, no dependency passes twice, TRUE means all passed, FALSE means something required is not in the table or failed in this call |
| `DependencyChecks.ResultsFollowProbes` | src/plugins/check_deps.c:53-73 | in terms of the steps of any run: a bit is set exactly after a probe of it succeeded and was recorded; TRUE only after a success for everything required; FALSE only after a failed probe of something required in that very call, or for something the table does not know; a call with a sufficient table and no failed probe returns TRUE |
| `DependencyChecks.FailedIsExact` | src/plugins/check_deps.c:53-67 | what a call remembers as failed are exactly the dependencies whose probe came back to it without success |
| `DependencyChecks.MaskGrows` | src/plugins/check_deps.c:76-132 | what is available after a prefix of a run stays available |
| `DependencyChecks.NoDeadlock` | src/plugins/check_deps.c:170-250 | while a call has not returned, some call can take a step |
| `DependencyChecks.StepMakesProgress` | src/plugins/check_deps.c:323-370 | every step brings its call closer to the end |
| `DependencyChecks.CallsAreBounded` | src/plugins/check_deps.c:323-370 | in every run a call takes at most three steps per table entry and six more |
| `ZfsCapabilities.StepKeepsInv` | src/plugins/zfs.c:467-514 | every atomic step keeps the invariant and never replaces a cached version |
| `ZfsCapabilities.VersionIsUnique` | src/plugins/zfs.c:467-514 | in every interleaving the version is assigned at most once, every successful query got it, the two of a capability check included, and no thread asks for the lock it holds |
| `ZfsCapabilities.AnswersFollowSteps` | src/plugins/zfs.c:467-514 | in terms of the steps of any run: an answered query, for the version or one of the two of the capabilities, was answered with the cached version unless the thread failed to find it out for that very query; a thread done with the capabilities has them published |
| `ZfsCapabilities.AskedIsKept` | src/plugins/zfs.c:590-618 | a thread keeps asking for what it asked for |
| `ZfsCapabilities.CapsAreRight` | src/plugins/zfs.c:590-618 | a published record never changes, never claims more than the version supports, and is exact in every later state if and only if each query of its publisher succeeded or would have been answered in the negative |
| `ZfsCapabilities.FailedProbeUnderclaims` | src/plugins/zfs.c:598-616 | a run in which a failed first probe denies bookmarks for good to a version that has them |
| `ZfsCapabilities.NoDeadlock` | src/plugins/zfs.c:590-618 | while a thread is not done, some thread can take a step |
| `ZfsCapabilities.ThreadsAreBounded` | src/plugins/zfs.c:590-618 | in every run a thread takes at most 22 steps |
| `Versions.LexIsAntisymmetric` | src/utils/exec.c:700-721 | swapping the operands negates the result, and only equal lists compare equal |
| `Versions.LexIsTransitive` | src/utils/exec.c:700-721 | the comparison is transitive, strictly if one step is strict |
| `Versions.LexPrefixIsLower` | src/utils/exec.c:714-721 | a proper prefix is lower |
| `Versions.VersionCmp` | src/utils/exec.c:667-727 | error exactly for unsupported strings, otherwise the lexicographic order of the field values |
| `Versions.SupportedIsAssembled` | src/utils/exec.c:678-697 | every supported string is put together from numbers, dots and one of the endings |
| `Versions.AssembledIsSupported` | src/utils/exec.c:678-697 | and every such string is supported |
| `Versions.FieldValueIsExact` | src/utils/exec.c:706-707 | a field is read as the number it denotes if and only if that is at most 7 behind a leading zero, and fits 64 bits otherwise |
| `Versions.AssembledFields` | src/utils/exec.c:700-707 | splitting and converting a supported string yields the values of its numbers and its release digit |
| `Versions.ReadingIsExact` | src/utils/exec.c:664-707 | the numbers compared are those written in the version if and only if every field reads as its number |
| `Versions.OctalMisorders` | src/utils/exec.c:706-711 | "1.010" compares below "1.9" |
| `Versions.ReleaseIsOneDigit` | src/utils/exec.c:664-678 | a release number behind the dash is supported if and only if it has one digit |
| `Versions.TwoDigitRelease` | src/utils/exec.c:664-678 | "1.2-10" is an error |
| `Versions.Normalize` | src/plugins/zfs.c:412-452 | the maximal dotted run from the first digit, and nothing if there is no digit or no dot in it |
| `Versions.MaximalRunIsUnique` | src/plugins/zfs.c:420-443 | there is only one such run |
| `Versions.RunIsDotted` | src/plugins/zfs.c:432-451 | the result is a dotted number and normalising it again changes nothing |
| `Versions.DotMakesTwo` | src/plugins/zfs.c:447-450 | a dotted number with a dot has at least two numbers |
| `Versions.NormalizedIsScanned` | src/plugins/zfs.c:534-541 | the parse error of the at-least check cannot happen for a normalised version; its numbers are compared as 32 bits hold them |
| `Versions.AtLeastIsLex` | src/plugins/zfs.c:543-547 | the at-least check is the lexicographic order unless the version has just the two required numbers and the patch level is 0 |
| `Versions.BareVersionPasses` | src/plugins/zfs.c:543-547 | 2.1 is at least 2.1.0, although it is the lower list |
| `Versions.AtLeastAgreesWithCmp` | src/plugins/zfs.c:529-554 | on strings whose fields read as their numbers: it agrees with the general comparison unless the version has just the two required numbers against patch level 0, or the first difference is a number beyond 32 bits whose stored form comes out lower |
| `Versions.LargeMajorWraps` | src/plugins/zfs.c:534-547 | a version such as 4294967296.0 is below the required 1.0.0 for the check and above it for the general comparison |
| `Versions.CheckLinuxVersion` | src/utils/module.c:348-364 | the first non-zero wrapped difference |
| `Versions.KernelCheckIsLex` | src/utils/module.c:348-364 | its sign is that of the comparison if and only if the deciding component does not fall short by more than 2^31 |
| `Versions.KernelCheckCanFail` | src/utils/module.c:348-364 | kernel 0.0.0 passes for newer than 2147483649.0.0 |
| `SubvolumeOrder.SiftDown` | src/plugins/btrfs.c:740-749 | the swaps put the item right behind the rightmost parent, sibling or top-level item and keep the rest |
| `SubvolumeOrder.Order` | src/plugins/btrfs.c:720-751 | the three loops compute the insertion of the swap-removed worklist behind the top-level items |
| `SubvolumeOrder.OrderKeepsItems` | src/plugins/btrfs.c:720-751 | the result is a permutation of the input |
| `SubvolumeOrder.OrderPutsTopsFirst` | src/plugins/btrfs.c:726-735 | top-level subvolumes come first, in their original order, and nowhere else |
| `SubvolumeOrder.WorklistContents` | src/plugins/btrfs.c:733-735 | swap-removal takes out exactly the top-level items |
| `SubvolumeOrder.LaterKinLandsBehind` | src/plugins/btrfs.c:741-748 | no item ends up before a parent or sibling that was inserted earlier |
| `SubvolumeOrder.BehindIsCaught` | src/plugins/btrfs.c:738-750 | an item that comes to rest behind an earlier one was caught there, in terms of the worklist alone |
| `SubvolumeOrder.CaughtStaysBehind` | src/plugins/btrfs.c:738-750 | and conversely |
| `SubvolumeOrder.OrderIsExact` | src/plugins/btrfs.c:720-751 | for unique ids no child precedes its parent if and only if the worklist is unobstructed and the main volume is not listed behind its children |
| `SubvolumeOrder.ParentsFirstSuffices` | src/plugins/btrfs.c:640-641 | a worklist that lists parents before children always gives the promised order |
| `SubvolumeOrder.OrderCanFail` | src/plugins/btrfs.c:640-641 | six subvolumes, listed parents first, that come out with a child before its parent |
| `PartitionTable.GetDiskParts` | src/plugins/part.c:691-733 | the loop inserts a metadata entry in exactly the gaps |
| `PartitionTable.TableRemains` | src/plugins/part.c:731-732 | without the metadata entries the listing is the table, unchanged and in order |
| `PartitionTable.GapIs` | src/plugins/part.c:703-726 | a gap entry reaches exactly from the frontier to the next start, and is logical inside an extended partition or in front of a logical one |
| `PartitionTable.FilledTiles` | src/plugins/part.c:702-729 | with the metadata entries the regions tile the range from the first start to the frontier of the last entry |
| `PartitionTable.PartByPos` | src/plugins/part.c:761-773 | the first region at a position that is not an extended partition, or none if there is none |
| `PartitionTable.LookupIsExact` | src/plugins/part.c:754-782 | lookup succeeds for exactly the positions from the first start to that frontier |
| `PartitionTable.LookupIsUnique` | src/plugins/part.c:754-782 | there is never more than one region to find |
| `PartitionTable.LookupFindsEntry` | src/plugins/part.c:754-782 | what is found is the entry of the table at the position, or a metadata entry where the table has nothing but perhaps an extended partition |
| `FreeRegion.BestFreeRegion` | src/plugins/part.c:875-933 | the first smallest (for extended: first largest) fitting region, none if none fits or an extended partition exists; every other region given back exactly once |
| `FreeRegion.FirstBestMeans` | src/plugins/part.c:865-917 | in sizes and sides: larger than asked for, outside or inside the extended partition as wanted, and the first of the smallest such regions, for extended the first of the largest; none only if there is no such region |
| `FreeRegion.FirstBestIsUnique` | src/plugins/part.c:889-924 | that description leaves no choice |
| `PartitionResize.MaxPartSize` | src/plugins/part.c:1426-1493 | an error for a missing partition; otherwise the search finds the entry itself and looks at its successor only |
| `PartitionResize.MaxSizeIsDistance` | src/plugins/part.c:1473-1488 | for a primary partition the wrapping subtraction is the distance from its start to the end of the free space; the older branch yields the sum of both sizes, which is no more |
| `PartitionResize.MaxSizeIsOwn` | src/plugins/part.c:1490-1492 | without free space directly behind it a partition can only keep its size |
| `PartitionResize.RoundsToNextMultiple` | src/plugins/part.c:1650-1652 | the alignment is the next multiple of the grain size if and only if the sum does not wrap around; if it does, zero |
| `PartitionResize.LargestRequestWraps` | src/plugins/part.c:1650-1652 | 2^64-1 bytes in 512-byte sectors are rounded to nothing |
| `PartitionResize.NewSize` | src/plugins/part.c:1616-1690 | the size set is at most the old size or the maximum; unchanged, refused and clamped in exactly the stated cases; a request whose rounding wraps around sets no sectors |
| `PartitionResize.ResizedOverlapsNothing` | src/plugins/part.c:1616-1690 | a primary partition resized that way overlaps no other partition |
| `PartitionResize.ResizePart` | src/plugins/part.c:1426-1690 | search, size logic and table together: whatever is requested, a primary partition overlaps no other one afterwards, and the maximum reaches the end of the free space |
| `NextPartition.Decide` | src/plugins/part.c:1107-1145 | the decision in terms of the first partition that covers the start, the first extended one and the count |
| `NextPartition.DecisionIsUnique` | src/plugins/part.c:1107-1145 | these leave only one decision |
| `NextPartition.DecisionMeans` | src/plugins/part.c:1107-1236 | on the table alone: logical exactly if the first partition that covers the start is the first extended one; refusal exactly for every other covered start; a new extended one exactly at an uncovered start with three partitions, none extended |
| `NextPartition.CreateNext` | src/plugins/part.c:1107-1312 | the in-memory table is written as a whole or dropped; success exactly if it was written and the kernel took note |
| `NextPartition.DiskMeans` | src/plugins/part.c:1107-1312 | what the library accepted is on the disk exactly if it was written, the requested partition last; an extended partition and its first logical one only together |
| `NextPartition.RequestKeepsInv` | src/plugins/part.c:1107-1312 | the number of extended partitions changes only with such a pair, from zero to one, behind three primaries |
| `NextPartition.RunsKeepInv` | src/plugins/part.c:1107-1312 | in every run from an empty table: at most one extended partition, at most four records, no logical one without it, nothing lost |
| `NextPartition.InvMeans` | src/plugins/part.c:1107-1312 | in terms of entries: never two extended partitions, no logical one without an extended one, at most four records |
| `PartitionPath.GetPartNum` | src/plugins/part.c:135-163 | the scan from the right finds the trailing run of digits and dashes |
| `PartitionPath.PathReads` | src/plugins/part.c:1322-1327 | character by character, the path is the disk, a p exactly behind a digit, and the number without leading zeros |
| `PartitionPath.PathRoundTrip` | src/plugins/part.c:1322-1327 | the number can be read back from the path if and only if the disk name does not end in a dash, or happens to end in that number and a dash |
| `PartitionPath.DashedDiskFails` | src/plugins/part.c:1322-1327 | a disk name "loop-" loses the number, "d5-" turns it into 5 |
| `ExtraArgs.CountExtraArgs` | src/plugins/zfs.c:299-314 | the count is the number of words the appending pass writes |
| `ExtraArgs.WordsAreInOrder` | src/plugins/zfs.c:333-340 | behind the words of the arguments before it, an argument has its option and then its value, each only if it is not empty; there are no other words |
| `ExtraArgs.Argv.AppendExtra` | src/plugins/zfs.c:327-340 | all non-empty halves, in order, behind what is there |
| `ExtraArgs.WithExtraArgs` | src/utils/exec.c:138-167 | no array without extra arguments; otherwise the command line, all extra words, the terminator, and no slot left |
| `ExtraArgs.PoolCreateArgv` | src/plugins/zfs.c:894-909 | the array is exactly full and terminated, the extra words stand before "--" |
| `ExtraArgs.PoolImportArgv` | src/plugins/zfs.c:1016-1043 | the same for an import with search directories |
| `ExtraArgs.SearchInOrder` | src/plugins/zfs.c:1032-1036 | every search directory stands behind a -d of its own |
| `ChiSquare.HistogramTotal` | src/plugins/crypto.c:3223-3226 | every byte of the block is counted once |
| `ChiSquare.DistanceBound` | src/plugins/crypto.c:3227-3228 | every partial sum is a non-negative integer below 2^24 |
| `ChiSquare.SquaresParity` | src/plugins/crypto.c:3227-3229 | the sum of squares has the parity of the sum, so the final division is exact |
| `ChiSquare.SeemsEncrypted` | src/plugins/crypto.c:3223-3232 | for every rounding that leaves integers up to 2^24 alone, the verdict is that of the integer (sum of squared counts)/2 - 512 |
| `ChiSquare.VerdictIgnoresOrder` | src/plugins/crypto.c:3223-3232 | blocks with the same bytes in any order have the same value |

## Left out

- Foreign libraries (libfdisk, libcryptsetup, libdevmapper, libndctl, blkid, udev, kmod, D-Bus): outcomes are inputs; the contracts asked of libfdisk are sorted tables, adding what was requested within four records, and alignment that stays in its range.
- Process spawning, descriptors, files, sleeps, the environment, logging and error texts: only their outcomes, and which error occurs, are modelled.
- Splitting a status line into its indent and its words, and converting the error counters, the state and the type of a vdev: the parser is modelled from the words on and keeps the first five as they are.
- VdevParser.Parse: scanning and tree building are two consecutive loops here and one loop in the code; the accepted rows and the result are the same.
- The bits of the dependency masks are sets of dependencies; shifts and the width of the mask are not modelled.
- The second probe of a D-Bus dependency (its version) is part of the one outcome of its probe.
- Concurrent closing of the ZFS plugin: it resets the dependency mask outside the lock, so the cache properties are about runs between two closes.
- SubvolumeOrder.OrderIsExact: is about subvolume ids that are unique, as in every btrfs volume; permutation and top-level order hold without that.
- SubvolumeOrder.Order: the terminating null slot of the result is not modelled.
- PartitionPath.PathRoundTrip: numbers are unbounded integers, so the overflow of the C conversion for names with more digits than an integer holds, in front of a dash, is not modelled.
- Versions.AtLeastAgreesWithCmp: C leaves the conversion of numbers beyond 32 bits undefined; the model stores what common C libraries store, the number cut off at 64 bits, modulo 2^32.
- PartitionResize.ResizedOverlapsNothing: is about primary partitions; for logical and extended ones the code takes the next table entry unconditionally and relies on libfdisk.
- Fixed command lines, size suffixes, scrub percentages, pool name validation, MD, NVDIMM, s390, swap, device mapper and crypto operations: calls of one tool or library each, or the text of one value, with no state or order of their own to keep.
