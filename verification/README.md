# barco: verified models

A Dafny model of the parts of barco whose correctness is hardest to see, and proofs about them:

- **The argument engine** (`lib/argtable/argtable3.c`), which barco's `main` runs on its command line. The permuting
  getopt with its in-place block rotation (`Rotation`, `OptionScan`, `Getopt`), the chained hash table with growth and
  removal during iteration and the command registry on top of it (`HashModel`, `HashTable`, `HashIterator`,
  `Commands`), the growing string buffer (`DString`), the merge sort (`MergeSort`), the two-pass option tables
  (`OptionTables`, `OptionMeaning`), the parse pipeline (`ArgParse`, `BarcoLine`), integer values (`IntScan`) and the bounded
  syntax printer (`CatOption`).
- **The rtnetlink encoder and reply walker** (`src/netlink.c`): nested, aligned attributes with lengths patched in place,
  an independent decoder, and the walk over a reply (`Netlink`, `Veth`, `Reply`). The message header and the
  acknowledgement are those of section 2.3.2 of RFC 3549.
- **The two-process start-up** (`src/user.c`, `src/container.c`, `src/barco.c`) as a transition system in which every
  system call may fail and parent, child and kernel interleave freely (`Startup`, `StartupRuns`), and what a whole run of
  `main` does to the host's rule lists and links (`HostState`).

Code that works by updating state is modelled by classes, arrays and loops, each proved against a specification function
on values; the lemmas are about those functions. `dafny verify dfyconfig.toml` checks everything.

Main results, one from each part:

- Driving getopt to -1 ends exactly when no argument in option position is a dash, letters without arguments and a final
  dash (`Getopt.TerminatesExactly`, `Getopt.StuckReached`); it then leaves argv as program name, options, non-options,
  rest, each in original order (`Getopt.Scanner.ScanAll`). The condition is needed: the code returns for a malformed option
  without moving on (`Getopt.StuckExample`).
- `permute_args` exchanges any two adjacent blocks; its gcd-many cycles are disjoint and cover them
  (`Rotation.PermuteArgs`, `Rotation.CyclesCover`).
- The hash table with unique keys is a finite map across growth (`HashModel.LookupIsMap`, `Commands.Registry.Register`). With
  duplicate keys growth can change an answer, and exactly when is `HashModel.GrowthKeepsAnswerIff`
  (`HashModel.GrowthExample` has such a table).
- The link-creation request decodes to exactly what went in, as long as its stores stay in the request struct
  (`Veth.BuildVeth`). In `main` they do exactly when the peer's name was made up or has at most 195 characters
  (`Veth.MainFitsIff`): only made-up names are cut, and `--veth-peer` with 196 characters is written past the struct
  (`Veth.LongPeerOverruns`). A `--veth` name of 60 characters is written past the struct of the rename
  (`Netlink.LongRenameOverruns`).
- An integer argument is accepted exactly when it is a numeral whose value fits (`IntScan.ScanExactly`).
- The container's command is executed only after the whole handshake (`Startup.ExecIsLast`). When every call succeeds it is
  executed (`StartupRuns.GoodRunExecutes`, `StartupRuns.GoodRunExists`), and after a checked failure it never is
  (`StartupRuns.FailurePreventsExec`). There is no deadlock, no run is longer than 80 steps, and no child is left behind
  (`Startup.SomebodyMoves`, `Startup.MaximalRunEnds`), but for one case: when the child's read of the reply fails before
  there is one, the parent's reply can meet a closed socket, and SIGPIPE, which nothing handles, ends the parent before
  its clean-up (`Startup.BrokenReply`).
- The host ends as it began exactly under the conditions of `HostState.RulesRestoredIff` and `HostState.LinksRestoredIff`.
  A rule for the same network that was there before is lost (it is found present at set-up and deleted at tear-down), as with
  a second container on the subnet (`HostState.OtherContainerLosesRule`), and a pair whose creation was carried out but not
  acknowledged stays (`HostState.LostAcknowledgementExample`).
- The counting pass over the long options covers the filling pass exactly under the condition of
  `OptionTables.CountCoversFill`; a table with the names ",a" alone does not meet it (`OptionTables.CoverExamples`), barco's
  own does (`OptionTables.BarcoOptions`). On tables that meet it, `arg_parse` returns 0 exactly when no phase registered an
  error (`ArgParse.Parser.Parse`), and `ArgParse.SuccessIff` says when that is. `BarcoLine.BarcoParses` is barco's own line.

Where the code and its comments disagree, the model follows the code. The comment of `nl_del_link` promises the result of
the deletion, but its request asks for no acknowledgement, so its result is not used here. `container_start` tests the
restriction functions for negative results while they report failure as 1, so exec does not imply that they succeeded.
The header of `container_init` (`include/container.h`, line 50) announces 1 for a failure; the code returns -1, which is what
`main` tests for.

## Model

| member | source | states |
|---|---|---|
| Rotation.Gcd | lib/argtable/argtable3.c:1473-1486 | the loop returns the greatest common divisor: it divides both numbers and every common divisor divides it |
| Rotation.CertifiedGcd | lib/argtable/argtable3.c:1473-1486 | a common divisor that is an integer combination of the two numbers is their gcd |
| Rotation.NextTurn | lib/argtable/argtable3.c:1511-1515 | one step of the index walk stays in its residue class modulo the gcd and moves to the next turn of that cycle |
| Rotation.TurnInjective | lib/argtable/argtable3.c:1508-1522 | no two positions of a cycle are reached on the same turn, so the cycles do not overlap |
| Rotation.CyclesCover | lib/argtable/argtable3.c:1505-1522 | gcd-many disjoint cycles, each of length n / gcd, cover both blocks |
| Rotation.SwapStep | lib/argtable/argtable3.c:1512-1520 | one swap puts the right element in place and parks the displaced one at the start of the cycle |
| Rotation.RotateCycle | lib/argtable/argtable3.c:1509-1521 | the inner loop fills every position of its cycle from its true predecessor and touches no other cycle |
| Rotation.PermuteArgs | lib/argtable/argtable3.c:1493-1523 | for all non-empty adjacent blocks, A ++ B becomes B ++ A in place, order kept inside each, nothing outside touched |
| OptionScan.LookupIff | lib/argtable/argtable3.c:1571-1610 | when a key is matched and by which entry, when it is ambiguous and when unknown, in names, has_arg, flag and val only |
| OptionScan.FindLong | lib/argtable/argtable3.c:1571-1610 | the loop equals that lookup |
| OptionScan.LongScan | lib/argtable/argtable3.c:1530-1689 | a long option takes at most the arguments there are, and never reports "no more options" |
| OptionScan.ScanOne | lib/argtable/argtable3.c:1817-1911 | one scan never moves past argv, and either moves on or shortens the text left in its argument |
| OptionScan.StuckExactly | lib/argtable/argtable3.c:1829-1832 | scanning an argument never advances exactly when it is letters that pass through followed by a final dash |
| OptionMeaning.UnknownLetter | lib/argtable/argtable3.c:1847-1869 | a letter that no entry lists is reported as unknown, and the scan goes on behind it |
| OptionMeaning.ShortOption | lib/argtable/argtable3.c:1847-1912 | what a letter takes as its value by the flags of its entry: nothing, the rest of the argument, the next argument, or a missing-argument report |
| OptionMeaning.Cluster | lib/argtable/argtable3.c:1890-1892 | in a cluster a letter without a value is reported and the scan goes on with the next |
| OptionMeaning.LongAfterW | lib/argtable/argtable3.c:1870-1889 | with W; in the option string the text behind -W, or else the next argument, is read as a long option |
| OptionMeaning.LongOptionMeans | lib/argtable/argtable3.c:1611-1688 | what a long option takes as its value by the flags of its entry: nothing, the text behind the equals sign, the next argument, or a report |
| OptionMeaning.BarcoVeth | src/barco.c:184-187 | in barco's own table "veth" is matched by the entry of that name, though it abbreviates "veth-peer" too; "ve" is ambiguous |
| Getopt.LayoutOf | lib/argtable/argtable3.c:1695-1912 | reference reading of a command line in one left-to-right pass: options, non-options and rest together are the arguments, as a multiset |
| Getopt.LayoutInOrder | lib/argtable/argtable3.c:1695-1912 | options, non-options and rest are each made of the arguments with one label, in their original order |
| Getopt.LabelsMean | lib/argtable/argtable3.c:1758-1815 | non-options are texts that are no option; an option that is no option by its text is the argument of the one before; the rest is what follows a double dash |
| Getopt.SkipHeading | lib/argtable/argtable3.c:1758-1793 | skipping a non-option, with its block exchange, keeps the final layout the state is heading for |
| Getopt.ScanHeading | lib/argtable/argtable3.c:1817-1911 | scanning an option reports the next event of that layout and keeps heading for it |
| Getopt.EndHeading | lib/argtable/argtable3.c:1740-1757 | at the end of argv the state reached is the final layout, with optind at the first non-option |
| Getopt.DashDashHeading | lib/argtable/argtable3.c:1794-1814 | the same at a double dash, which is kept as the last option; everything behind it stays where it is |
| Getopt.CallKeeps | lib/argtable/argtable3.c:1695-1912 | every call either ends the run in the final layout or reports the next event and keeps heading for the same layout |
| Getopt.EndsIffUnstuck | lib/argtable/argtable3.c:1695-1912 | from any valid state, the n-th further call is the one that returns -1 exactly when the layout is not stuck and has n reports left |
| Getopt.TerminatesExactly | lib/argtable/argtable3.c:1695-1912 | driving getopt to -1 ends exactly when no argument in option position is stuck, after one call per report and one more |
| Getopt.StuckReached | lib/argtable/argtable3.c:1829-1832 | stuckness is the caller-checkable condition that an argument in option position ends in a dash after letters that pass through |
| Getopt.StuckExample | lib/argtable/argtable3.c:1829-1832 | with barco's own option string, on -v- no call is ever the one that returns -1 |
| Getopt.Scanner.Prepare | lib/argtable/argtable3.c:1706-1739 | the start of a call: no optarg, and a fresh start when optind is 0 or optreset is set |
| Getopt.Scanner.constructor | lib/argtable/argtable3.c:1368-1405 | the initial static variables |
| Getopt.Scanner.ParseLongOptions | lib/argtable/argtable3.c:1530-1689 | the in-place code agrees with the long-option rule: value, optarg, optopt, flag store and optind |
| Getopt.Scanner.ApplyLong | lib/argtable/argtable3.c:1611-1688 | the same from the match on, including the missing-argument path that gives optind back |
| Getopt.Scanner.ScanOption | lib/argtable/argtable3.c:1823-1845 | the dispatch between long option, lone dash and letter agrees with the scan rule |
| Getopt.Scanner.ScanLetter | lib/argtable/argtable3.c:1847-1912 | a short option letter: unknown, plain, required or optional argument |
| Getopt.Scanner.ScanAfterW | lib/argtable/argtable3.c:1870-1889 | -W announces a long option in the same or the next argument |
| Getopt.Scanner.FindOption | lib/argtable/argtable3.c:1737-1815 | the restart loop finds the next option, permuting as it skips |
| Getopt.Scanner.EndArgs | lib/argtable/argtable3.c:1740-1757 | pending non-options go behind the options and optind moves to the first of them |
| Getopt.Scanner.SkipArg | lib/argtable/argtable3.c:1780-1792 | stepping over one non-option, with the exchange when options were scanned since the last run of them |
| Getopt.Scanner.GetoptLong | lib/argtable/argtable3.c:1695-1912 | one call on the static variables and argv equals one step of the state machine; optind 0 asks for a fresh start |
| Getopt.Scanner.Advance | lib/argtable/argtable3.c:1695-1912 | one call, in terms of the layout: final, or the next report with optarg and flag store shown |
| Getopt.Scanner.ScanAll | lib/argtable/argtable3.c:5180-5187 | the caller's loop leaves argv as program name, options in order, non-options in order, rest; a permutation of the input; the reports are the layout's; optind is at the first non-option |
| HashModel.PushedKeeps | lib/argtable/argtable3.c:644-650 | insertion at the head keeps every pair in bucket h mod length, adds exactly one pair and one to the count |
| HashModel.RehashIsPushAll | lib/argtable/argtable3.c:610-617 | growing the table is popping all pairs in table order onto new chains |
| HashModel.PushAllKeeps | lib/argtable/argtable3.c:610-617 | the transfer keeps placement and the multiset of pairs |
| HashModel.PushAllReverses | lib/argtable/argtable3.c:606-617 | the pairs of a key come out in exactly the opposite order |
| HashModel.GrowthAnswersLast | lib/argtable/argtable3.c:591-624 | after growth a search answers with the last pair for the key |
| HashModel.GrowthKeepsAnswerIff | lib/argtable/argtable3.c:591-624 | a search after growth answers as before exactly when the first and the last pair for the key agree |
| HashModel.GrowthExample | lib/argtable/argtable3.c:591-624 | in any table of 53 buckets with two values under key 7, growth to 97 buckets brings back the older one |
| HashModel.LookupIsFirst | lib/argtable/argtable3.c:653-668 | a search answers with the first pair for the key |
| HashModel.LookupIsMap | lib/argtable/argtable3.c:653-668 | with unique keys, search equals finite-map lookup |
| HashModel.CountIsSize | lib/argtable/argtable3.c:626-628 | with unique keys, the entry count is the size of the map |
| HashModel.PushedRepresents | lib/argtable/argtable3.c:630-651 | inserting a new key is a map update |
| HashModel.RemovedRepresents | lib/argtable/argtable3.c:670-698 | unlinking a pair removes its key from the map and nothing else |
| HashModel.ChangedRepresents | lib/argtable/argtable3.c:857-875 | overwriting a value is a map update |
| HashModel.GrownCount | lib/argtable/argtable3.c:591-624 | growth keeps placement and the total chain length |
| HashModel.GrownRepresents | lib/argtable/argtable3.c:591-624 | growth does not change the map |
| HashTable.Create | lib/argtable/argtable3.c:558-589 | refused exactly for sizes over 2^30; otherwise an empty valid table longer than asked for |
| HashTable.PrimesIncrease | lib/argtable/argtable3.c:535-539 | the listed sizes increase strictly from 53 to 1610612741 |
| HashTable.Table.constructor | lib/argtable/argtable3.c:558-589 | the first listed prime above the size asked for, all chains empty |
| HashTable.Table.Search | lib/argtable/argtable3.c:653-668 | the chain walk on linked entries equals the lookup |
| HashTable.Table.Locate | lib/argtable/argtable3.c:831-855 | the walk with a trailing parent finds the first entry for the key and its true predecessor |
| HashTable.Table.Change | lib/argtable/argtable3.c:857-875 | only the first pair for the key gets the new value; reports whether there was one |
| HashTable.Table.Unlink | lib/argtable/argtable3.c:687-693 | bypassing one linked entry removes exactly that pair; every other link stays |
| HashTable.Table.Remove | lib/argtable/argtable3.c:670-698 | removes the first pair for the key, if any, and keeps count and placement |
| HashTable.Drain | lib/argtable/argtable3.c:611-616 | popping one chain onto the new table relinks every entry once; both tables stay well formed |
| HashTable.DrainAll | lib/argtable/argtable3.c:610-617 | all chains, giving exactly the rehashed buckets |
| HashTable.Table.Expand | lib/argtable/argtable3.c:591-624 | false exactly at the largest prime; otherwise the same entries in the next table, which is longer |
| HashTable.Table.Grow | lib/argtable/argtable3.c:602-622 | the growing branch: next prime, fresh table, same objects |
| HashTable.Table.Insert | lib/argtable/argtable3.c:630-651 | grows a full table first, then puts the pair at the head of its chain |
| HashTable.Table.InsertHead | lib/argtable/argtable3.c:644-650 | one new entry, linked at the head, count one higher |
| HashIterator.BehindBeyond | lib/argtable/argtable3.c:730-800 | what an iterator has passed and what lies ahead always make up the whole table |
| HashIterator.StepOver | lib/argtable/argtable3.c:781-799 | moving over empty buckets passes nothing |
| HashIterator.RemoveHere | lib/argtable/argtable3.c:807-817 | unlinking the current entry takes it off what lies ahead and changes nothing passed |
| HashIterator.Iterator.constructor | lib/argtable/argtable3.c:730-751 | a new iterator has passed nothing and has the whole table ahead |
| HashIterator.Iterator.Move | lib/argtable/argtable3.c:774-799 | along the chain, or to the next bucket that is not empty |
| HashIterator.Iterator.Advance | lib/argtable/argtable3.c:765-800 | passes exactly the current pair; parent is the true predecessor of the new current entry, or NULL at a chain head |
| HashIterator.Iterator.Remove | lib/argtable/argtable3.c:802-829 | removes exactly the current pair and moves on, with the parent corrected |
| HashIterator.Iterator.MoveOff | lib/argtable/argtable3.c:821-826 | the parent correction after a removal |
| HashIterator.SparedPositions | lib/argtable/argtable3.c:802-829 | what a sweep leaves are the pairs at exactly the positions not chosen, in order |
| HashIterator.Sweep | lib/argtable/argtable3.c:730-829 | for any choice of removals, a sweep visits every pair once in table order, the chosen ones go, the others keep their order, and the count is right |
| Commands.Registry.constructor | lib/argtable/argtable3.c:4774-4776 | an empty registry |
| Commands.Registry.Register | lib/argtable/argtable3.c:4782-4823 | binds the name, replacing an older binding; the registry stays free of duplicates |
| Commands.Registry.Add | lib/argtable/argtable3.c:4800-4823 | insertion of a name not yet bound, across any growth of the table |
| Commands.Registry.Unregister | lib/argtable/argtable3.c:4825-4827 | removes exactly that binding |
| Commands.Registry.Get | lib/argtable/argtable3.c:4838-4840 | finite-map lookup |
| Commands.Registry.Count | lib/argtable/argtable3.c:4842-4844 | the number of names bound |
| DString.TextIs | lib/argtable/argtable3.c:1050-1053 | the text of a buffer is what precedes its first NUL |
| DString.AppendedText | lib/argtable/argtable3.c:1050-1053 | copying without a terminator appends, because everything behind the text is zero; zeros remain behind it |
| DString.Dstr.constructor | lib/argtable/argtable3.c:982-989 | an empty text and nothing to release |
| DString.Dstr.AdoptedSurvivesIff | lib/argtable/argtable3.c:1030-1043 | an adopted buffer is not released by the set itself exactly when it is not the append buffer |
| DString.OverlapIff | lib/argtable/argtable3.c:1009-1018 | copying a text to the start of its own buffer meets what is still to be copied exactly when it starts no further in than it is long |
| DString.Dstr.Set | lib/argtable/argtable3.c:1000-1043 | the new text, by copy or by adoption; the string may be part of the old value or the buffer's own data, short of overlap and release; old block and append buffer are released once each |
| DString.Dstr.Copied | lib/argtable/argtable3.c:1009-1018 | the private copy holds the text, in the static buffer if that is large enough |
| DString.Dstr.Cat | lib/argtable/argtable3.c:1050-1053 | the text is the old text followed by the argument |
| DString.Dstr.CatChar | lib/argtable/argtable3.c:1055-1058 | one character appended; NUL changes nothing |
| DString.Dstr.CatFormat | lib/argtable/argtable3.c:1093-1133 | the search for a large enough buffer ends, and exactly the formatted text is appended; nothing without a format |
| DString.PrintedText | lib/argtable/argtable3.c:1112-1129 | a print that does not fill its buffer is complete |
| DString.Dstr.SetupAppendBuf | lib/argtable/argtable3.c:1135-1187 | the text is unchanged, the append buffer is the data, and the space asked for is there |
| DString.Dstr.Measure | lib/argtable/argtable3.c:1143-1162 | the trusted length is the true length afterwards; the branch that gives up a large buffer cannot be reached |
| DString.Dstr.Grow | lib/argtable/argtable3.c:1164-1187 | moves the text to a zeroed buffer and releases the old one |
| DString.Dstr.Free | lib/argtable/argtable3.c:1189-1198 | releases the data by its procedure once |
| DString.Dstr.Reset | lib/argtable/argtable3.c:1200-1210 | empty text, everything released |
| DString.Perform | lib/argtable/argtable3.c:971-1210 | after any sequence of cat, catc, catf, set to nothing, volatile set, adopting set and reset on a new buffer, it shows the abstract text |
| MergeSort.MergedClass | lib/argtable/argtable3.c:401-432 | merging sorted runs puts equal elements of the right run before those of the left |
| MergeSort.MergedSorted | lib/argtable/argtable3.c:387-437 | merging sorted runs gives a sorted run |
| MergeSort.Sorts | lib/argtable/argtable3.c:439-452 | the result is sorted, for any total preorder |
| MergeSort.TiesReversed | lib/argtable/argtable3.c:423-431 | every class of equal elements comes out in exactly the reverse of its original order |
| Common.ReversedAt | lib/argtable/argtable3.c:427-431 | the reverse of a sequence, place by place |
| MergeSort.SortedByClasses | lib/argtable/argtable3.c:439-452 | order and tie order determine the result: there is no other such sequence |
| MergeSort.MergeSorted | lib/argtable/argtable3.c:439-452 | a permutation of the input |
| MergeSort.MergeInto | lib/argtable/argtable3.c:392-432 | the merging loop fills the buffer with the merge of the two stretches |
| MergeSort.Merge | lib/argtable/argtable3.c:387-437 | merges a[i..j] and a[j+1..k] in place; nothing outside is touched |
| MergeSort.Sort | lib/argtable/argtable3.c:439-452 | sorts a[i..k] in place by the specified sort; nothing outside is touched; terminates |
| OptionTables.PiecesSplit | lib/argtable/argtable3.c:5085-5093 | the names are the comma-split: none contains a comma, and joined with commas they are the string, but for a comma at its end |
| OptionTables.PieceSizes | lib/argtable/argtable3.c:5085-5093 | number and stored size of the comma-separated names of an entry |
| OptionTables.CountCoversIff | lib/argtable/argtable3.c:5061-5069 | the counting pass allows for an entry's names exactly when they do not begin with a comma, or also end with one |
| OptionTables.CommaFirstExample | lib/argtable/argtable3.c:5065-5068 | the names ",a" are counted as one and filled as two |
| OptionTables.SlotsBalance | lib/argtable/argtable3.c:5042-5117 | slots filled are those counted, plus one for every entry that only begins with a comma, less one for every entry that only ends with one |
| OptionTables.CountCoversFill | lib/argtable/argtable3.c:5042-5117 | the counted array has room for all options and the terminator exactly when the entries that only begin with a comma are at most as many as those that only end with one |
| OptionTables.BytesCoverFill | lib/argtable/argtable3.c:5042-5117 | the counted bytes suffice on every table |
| OptionTables.CoverExamples | lib/argtable/argtable3.c:5042-5117 | a table with the names ",a" overruns the array; with "b," beside it, it does not |
| OptionTables.ReadsInsideIff | lib/argtable/argtable3.c:5065-5068 | the counting pass starts to read behind the terminator exactly for empty names |
| OptionTables.CountNames | lib/argtable/argtable3.c:5065-5068 | the strchr loop counts one name and one more per comma after the first character |
| OptionTables.CountLong | lib/argtable/argtable3.c:5061-5069 | the counting pass over a table |
| OptionTables.CopyName | lib/argtable/argtable3.c:5086-5093 | copies one name into the store and moves behind its comma |
| OptionTables.FillName | lib/argtable/argtable3.c:5085-5106 | one name copied into the store and one option added for it |
| OptionTables.FillEntry | lib/argtable/argtable3.c:5083-5107 | one option per name of the entry, in order, carrying its index and argument mode |
| OptionTables.LongTableAt | lib/argtable/argtable3.c:5082-5107 | the k-th name of entry t comes behind the names of the entries before, stores t, and has the argument kind of the entry's flags |
| OptionTables.LongKinds | lib/argtable/argtable3.c:5099-5104 | every option of the array is optional, required or without an argument as its entry's flags say |
| OptionTables.AllocLong | lib/argtable/argtable3.c:5042-5117 | on every table whose slots are covered, the filled array is exactly the comma-split of every entry in table order with val the owning index and the argument kind of its flags; no write leaves the storage |
| OptionTables.FindShortOption | lib/argtable/argtable3.c:5008-5015 | the first entry that lists the letter |
| OptionTables.EncodedModes | lib/argtable/argtable3.c:5119-5155 | getopt's reading of the encoded string gives, for every letter, the argument mode of the first entry that lists it, and Unknown when none does |
| OptionTables.BarcoOptions | src/barco.c:173-201 | for barco's own table the string is ":u:m:c:a:v", and both option tables are sound |
| OptionTables.ShortFits | lib/argtable/argtable3.c:5119-5155 | the string and its terminator fit the counted buffer, whatever the flags |
| OptionTables.PutLetters | lib/argtable/argtable3.c:5141-5148 | the inner loop writes the entry's letters and colons |
| OptionTables.AllocShort | lib/argtable/argtable3.c:5119-5155 | the buffer holds the encoded string, zero-terminated |
| ArgParse.Parser.RegisterError | lib/argtable/argtable3.c:4990-5002 | the list is capped; beyond the cap the last slot says so; a full list never becomes empty |
| ArgParse.Parser.Scan | lib/argtable/argtable3.c:4555-4572 | a value is counted exactly when accepted, and never beyond the maximum |
| ArgParse.Parser.HandleOption | lib/argtable/argtable3.c:5195-5256 | one report counts for its entry or registers an error; an explicit empty value registers one and is still scanned |
| ArgParse.EventMeans | lib/argtable/argtable3.c:5195-5256 | what one report does by its code, its value and the entry's flags: which entry is counted and how many errors are added |
| ArgParse.EmptyValueCounts | lib/argtable/argtable3.c:5200-5204 | an explicit empty value where a value is expected always raises the number of errors |
| ArgParse.EventsBalance | lib/argtable/argtable3.c:5185-5257 | every report is counted for an entry or is an error, and an explicit empty value is an error besides |
| ArgParse.Parser.BuildTables | lib/argtable/argtable3.c:5173-5178 | the tables built are getopt's reading of the argument table, when its option array fits |
| ArgParse.Parser.ParseTagged | lib/argtable/argtable3.c:5165-5261 | the whole option phase on the tables it builds: all reports of the layout handled in order, argv permuted |
| ArgParse.Parser.ParseUntagged | lib/argtable/argtable3.c:5263-5332 | untagged entries take words while they accept them; one error for each word left |
| ArgParse.Parser.ParseCheck | lib/argtable/argtable3.c:5334-5345 | one error for each entry accepted too rarely |
| ArgParse.Parser.Parse | lib/argtable/argtable3.c:5357-5410 | on a table whose option array fits, returns the errors kept, which is 0 exactly when no phase registered one |
| ArgParse.CommaTableExample | lib/argtable/argtable3.c:5042-5117 | the names ",a" and the argument --a: without error as meant, but the option array has no room |
| ArgParse.LayoutReports | lib/argtable/argtable3.c:5185-5257 | everything getopt reports over an argument table is a character, an error or the index of a tagged entry |
| ArgParse.EventsCounted | lib/argtable/argtable3.c:5185-5257 | no entry is counted beyond its maximum; without errors each is counted as often as it was named |
| ArgParse.WordsCounted | lib/argtable/argtable3.c:5263-5332 | without errors every word was counted once, and tagged entries are unchanged |
| ArgParse.WordsBalance | lib/argtable/argtable3.c:5263-5332 | every word is taken by an entry or is an error, never both |
| ArgParse.TakesRun | lib/argtable/argtable3.c:5290-5315 | an untagged entry stays in turn for as many words as it accepts below its maximum |
| ArgParse.ChecksOnlyWhenClean | lib/argtable/argtable3.c:5402-5404 | minimums are checked only when nothing has gone wrong before |
| ArgParse.NothingMissing | lib/argtable/argtable3.c:5334-5345 | the check phase is silent exactly when every counted entry reached its minimum |
| ArgParse.TaggedCleanIff | lib/argtable/argtable3.c:5165-5261 | the option phase registers no error exactly when every report names an entry with an accepted, not explicitly empty value and no entry is named too often |
| ArgParse.SuccessIff | lib/argtable/argtable3.c:5357-5410 | no error exactly when the options are fine, all words are taken and every minimum is reached |
| ArgParse.SuccessMeans | lib/argtable/argtable3.c:5357-5410 | success means mincount <= count <= maxcount for every counted entry, every report and word consumed, and each tagged entry counted as often as it was named |
| BarcoLine.ShortValue | lib/argtable/argtable3.c:1893-1912 | on any line, -c value makes both arguments options and reports the value with the letter |
| BarcoLine.LongValue | lib/argtable/argtable3.c:1634-1645 | on any line, --name=value is one option argument whose value is reported with the entry's index |
| BarcoLine.BarcoParses | src/barco.c:173-209 | with barco's own table, "-u 0 -m / --cmd=<cmd>" parses without error exactly when the command is not empty |
| IntScan.Strtol0X | lib/argtable/argtable3.c:3086-3136 | the prefix reader: space, one sign, zero, the letter in either case, then digits |
| IntScan.DetectSuffix | lib/argtable/argtable3.c:3140-3165 | true exactly for the suffix in any case followed by white space only |
| IntScan.AcceptsIffFits | lib/argtable/argtable3.c:3167-3236 | a numeral in any of the four notations, with an optional suffix, is accepted exactly when number times multiplier fits a 32-bit int, with that product as its value |
| IntScan.OnlyNumerals | lib/argtable/argtable3.c:3167-3236 | whatever is not rejected as malformed is such a numeral |
| IntScan.ScanExactly | lib/argtable/argtable3.c:3167-3236 | for every text: malformed exactly when it is no numeral, else accepted exactly when the product fits |
| IntScan.PrintThenScan | lib/argtable/argtable3.c:3167-3236 | printing any number in any of the four notations, with any suffix, and scanning it gives number times multiplier, or an overflow when that leaves a 32-bit int |
| IntScan.SpacesAre | lib/argtable/argtable3.c:3092-3093 | the characters that count as white space |
| IntScan.ArgInt.Scan | lib/argtable/argtable3.c:3167-3236 | stores and counts the value exactly on success, counts a missing value, changes nothing else |
| CatOption.Cat | lib/argtable/argtable3.c:5432-5450 | appends what fits and terminates, never beyond the bound |
| CatOption.Strncat | lib/argtable/argtable3.c:5538-5545 | the bounded append may put its terminator one place behind the bound, and no further |
| CatOption.CutTracks | lib/argtable/argtable3.c:5505-5568 | pieces appended while everything fits are exact, and afterwards all but the last place stay right |
| CatOption.SyntaxOfBoth | lib/argtable/argtable3.c:5505-5568 | the text for short and long options with a value, letter by letter |
| CatOption.SyntaxOfOne | lib/argtable/argtable3.c:5505-5568 | the text for an entry with only short, only long or no options |
| CatOption.AddLongs | lib/argtable/argtable3.c:5530-5553 | the loop over the names keeps track although the bounded append does not move the write position |
| CatOption.CatOptionv | lib/argtable/argtable3.c:5505-5568 | for any strings no write leaves a buffer of one byte more than the bound; when the text is shorter than the bound it is exactly the joined options and datatype, and otherwise all but its last place are right |
| Netlink.WalkOne | src/netlink.c:162-167 | walking over an encoded attribute yields it and goes on behind its padding |
| Netlink.WalkAll | src/netlink.c:162-200 | an independent attribute walk undoes the encoding of every list of attributes |
| Netlink.DecodeMessage | src/netlink.c:150-200 | decoding a finished message gives back its header, fixed struct and attributes |
| Netlink.ByteOrder | src/netlink.c:156-160 | fields have their least significant byte first |
| Netlink.MessageBytes | src/netlink.c:156-160 | where length, type, flags, sequence number and fixed struct stand in a message |
| Netlink.LinkAt | src/netlink.c:480-485 | where the interface index stands in a link request, and that its other fields are zero |
| Netlink.AttrAt | src/netlink.c:163-167 | where length, type and payload of an attribute stand, and where the next one begins |
| Netlink.WriteAttr | src/netlink.c:163-166 | one attribute written in place, its padding already zero |
| Netlink.AddAttr | src/netlink.c:163-167 | an attribute appended and nlmsg_len brought up to date |
| Netlink.RenameStoresInside | src/netlink.c:519-536 | the stores stay in the struct exactly for names of at most 59 characters |
| Netlink.LongRenameOverruns | src/netlink.c:519-536 | with 60 characters one does not |
| Netlink.BuildRename | src/netlink.c:519-536 | for every name: a store leaves the struct exactly when one listed does, and otherwise the message decodes to the new name, with index and name at their offsets |
| Netlink.BuildMove | src/netlink.c:474-491 | the message decodes to the namespace descriptor for that link, with index and descriptor at their offsets |
| Netlink.BuildAddr | src/netlink.c:286-312 | the message decodes to the address as local and peer address, with index, prefix length and addresses at their offsets |
| Netlink.BuildRoute | src/netlink.c:364-448 | the message decodes to destination, optional gateway and optional device, with the scope that goes with the gateway; every field at its offset |
| Veth.StoresInsideIff | src/netlink.c:156-200 | every store of nl_create_veth stays in the struct exactly when the names fit |
| Veth.ShortNamesFit | src/barco.c:244-269 | two names of at most 15 characters always fit; main cuts only the names it makes up |
| Veth.MainFitsIff | src/barco.c:241-269 | main's request stays in its struct exactly when the peer's name was made up or has at most 195 characters |
| Veth.LongPeerOverruns | src/barco.c:253-259 | --veth-peer with 196 characters makes main write past its struct |
| Veth.NestIsLinkInfo | src/netlink.c:169-199 | with its final lengths the in-place nest is the encoded link-info attribute |
| Veth.RoundTrip | src/netlink.c:145-200 | decoding recovers exactly the header, both names and the kind, for all names that fit |
| Veth.VethAt | src/netlink.c:156-200 | every header, length, type and text of the nested request at its offset |
| Veth.OpenNest | src/netlink.c:169-189 | the four nested headers and the zeroed peer struct, with the lengths known so far |
| Veth.SetLengths | src/netlink.c:196-199 | the three lengths patched from the inside out change nothing else |
| Veth.BuildNest | src/netlink.c:169-199 | the whole nest with its final lengths |
| Veth.FinishVeth | src/netlink.c:200 | nlmsg_len covers the nest |
| Veth.BuildVeth | src/netlink.c:145-200 | for all names: a store leaves the struct exactly when one listed does, and otherwise the bytes sent decode to header, name1, "veth" and name2, each at its offset |
| Reply.SucceedsUnfold | src/netlink.c:75-93 | the first decisive message decides |
| Reply.NextMessage | src/netlink.c:75-93 | the walk's header test and step agree with the messages of the received bytes |
| Reply.FieldOfPayload | src/netlink.c:82-83 | an error message that carries four bytes has its code there; only a shorter one borrows from what follows it in the buffer |
| Reply.RoomIsEnough | src/netlink.c:62-75 | a reply that leaves four bytes of the buffer free is read inside the buffer |
| Reply.ErrorReply | src/netlink.c:81-87 | a reply given as bytes, of the error type, succeeds exactly when its code is zero |
| Reply.OtherReply | src/netlink.c:89-90 | a bare message given as bytes succeeds exactly for the done type and the type asked for |
| Reply.ForeignReply | src/netlink.c:77-80 | a message with another sequence number settles nothing |
| Reply.Acknowledged | src/netlink.c:75-93 | the walk ends, reads no header outside the received bytes, and succeeds exactly when the first message with the wanted seq that is an error, a done or the expected type is a zero error, a done or that type |
| Startup.ReadKeeps | src/user.c:73-78 | reading the child's status, including end of file and a failed read, keeps the invariant |
| Startup.WriteKeeps | src/user.c:83-125 | the three map writes keep the invariant and their order |
| Startup.WriteFails | src/user.c:83-125 | so do their failures |
| Startup.ReplyKeeps | src/user.c:133-147 | either reply, sent, failed or met by a closed socket, keeps the invariant |
| Startup.PrepareKeeps | src/barco.c:376-421 | clone, probe, acknowledgement of the move and cgroups keep the invariant |
| Startup.MoveKeeps | src/barco.c:405-414 | the interface move keeps the invariant |
| Startup.FinishKeeps | src/container.c:302-312 | kill, reap, wait and clean-up keep the invariant |
| Startup.IsolateKeeps | src/container.c:110-166 | the child's isolation and network steps, with the polling loop, keep the invariant |
| Startup.UserNsKeeps | src/user.c:21-58 | the child's half of the handshake keeps the invariant |
| Startup.LaunchKeeps | src/container.c:207-226 | restriction and close keep the invariant |
| Startup.ExecKeeps | src/container.c:228-237 | exec keeps the invariant |
| Startup.ExitKeeps | src/container.c:239-246 | the child's fail path and exit keep the invariant |
| Startup.StepKeeps | src/barco.c:376-450 | every step of either process or the kernel keeps the invariant and brings the run nearer to its end |
| Startup.RunKeeps | src/barco.c:376-450 | the invariant holds in every state of every run |
| Startup.ExecNeeds | src/user.c:21-148 | in an ordered log everything exec needs, directly or not, comes before it |
| Startup.ExecIsLast | src/user.c:21-148 | in every interleaving and failure pattern, exec comes after unshare, setgroups deny, uid_map, gid_map and the reply, in that order; with networking also after the move and the rename |
| Startup.RunningWasExecuted | src/container.c:228-237 | whenever the command runs, its exec is on record |
| Startup.ReplyMeetsReader | src/user.c:78-147 | while the parent writes maps or a reply, the child is blocked in its read with its socket end open exactly when that read has not failed beforehand |
| Startup.BrokenReply | src/user.c:133-147 | if the read failed and the child closed its end, the reply ends the parent by SIGPIPE; only then, and the command is not executed |
| Startup.BrokenExample | src/user.c:31-41 | a run in which this happens |
| Startup.NoChildLeft | src/barco.c:376-466 | whenever the parent is done, the child was never created or is dead and reaped |
| Startup.SomebodyMoves | src/barco.c:376-450 | no deadlock: short of the parent's end, some process can move whatever its call returns |
| Startup.StepNearer | src/container.c:134-144 | every step lowers a bound on the steps left, polling included |
| Startup.RunsAreBounded | src/barco.c:376-450 | no run has more than 80 steps |
| Startup.MaximalRunEnds | src/barco.c:376-520 | a run that cannot be continued has the parent done and no child left, or the parent ended by a reply to a child whose read had failed |
| StartupRuns.GoodRunExecutes | src/user.c:21-148 | when every call succeeds and the poll does not run out, every run that cannot go on has executed the command, the parent is done and the child reaped |
| StartupRuns.GoodRunExists | src/user.c:21-148 | there is such a run, with and without networking |
| StartupRuns.FailurePreventsExec | src/container.c:110-237 | after a failed call of either process that is checked, the command is never executed |
| StartupRuns.KillAfterReply | src/user.c:128-147 | once the child has announced itself the parent kills it only after it has replied or tried to, and a reply about a failure is -1 |
| HostState.FirstGoneIs | src/barco.c:135-149 | deleting a rule takes its first occurrence, if it has one, and leaves everything else in order; nothing else does |
| HostState.DropEnsured | src/barco.c:93-102 | adding a rule if absent and deleting it leaves what deleting it at once would have |
| HostState.DropBoth | src/barco.c:104-149 | the same for the two forward rules together |
| HostState.SubnetsAgree | src/barco.c:343-357 | the subnet text at set-up equals the one at tear-down, truncation included |
| HostState.SubnetText | src/barco.c:343-357 | the text is the address as given, with "/24" where it has no prefix, cut to 31 characters |
| HostState.EnsuredMeans | src/barco.c:93-98 | making sure of a rule has it there unless adding it fails, at most once more, at the end |
| HostState.PairMeans | src/barco.c:317-323 | a new pair has both ends, a moved end is gone and leaves its peer, and all other links stay |
| HostState.ExampleNetworks | src/barco.c:343-357 | 10.0.0.0/24 and 10.0.0.2/24 are one network; 10.0.1.2/24 and 10.0.0.2/25 are others |
| HostState.PairCleared | src/barco.c:481-487 | deleting the peer end clears the pair from the host, however far it got |
| HostState.Host.SetupNat | src/barco.c:88-127 | fails without a trace exactly when the first rule is not there for the same network and cannot be added; the other two are best effort |
| HostState.Host.CleanupNat | src/barco.c:129-150 | each of the three rules for the network loses its first occurrence, whoever added it; all other rules stay, in order |
| HostState.Host.ConfigureNetwork | src/barco.c:307-374 | stale links deleted, the pair created, NAT set up if asked for |
| HostState.Host.Cleanup | src/barco.c:466-487 | undoes NAT and the pair as far as they were applied |
| HostState.RulesUndone | src/barco.c:466-479 | deleting the three rules after adding them leaves what deleting them at once would have |
| HostState.LinksUndone | src/barco.c:481-487 | deleting the peer end takes back the pair, moved or not, destroyed with its namespace or not |
| HostState.Host.Run | src/barco.c:234-487 | on every path, rules and links end as a function of how they began; exit status 1 on every failed path |
| HostState.RulesRestoredIff | src/barco.c:88-150 | the rule lists end as they began exactly when NAT was not applied or none of the three rules was there before, for any address of the same network |
| HostState.OtherContainerLosesRule | src/barco.c:88-150 | a masquerade rule for 10.0.0.0/24 that was there before is gone after a run for 10.0.0.2/24 |
| HostState.LinksRestoredIff | src/barco.c:307-374 | the links end as they began exactly when neither name was there before, or, when the creation was carried out but not acknowledged, when that very pair was |
| HostState.LostAcknowledgementExample | src/barco.c:317-322 | on a host without links, a pair created without acknowledgement stays |

## Left out

- getopt, getopt_long_only, option strings beginning with a plus or minus sign, POSIXLY_CORRECT, the index out-parameter and the printing of errors: barco's parser uses none of them.
- Getopt.Scanner.ScanAll: requires that the command line is not stuck, since the code does not end otherwise; `Getopt.TerminatesExactly` states both directions.
- enhanced_hash, hash_key and the floating-point load limit: the table is proved for any hash and any limit function, and freeing of removed entries is not modelled.
- HashTable.Table.constructor: takes sizes up to 2^30 only; `HashTable.Create` has the refusal of larger ones.
- HashIterator.Iterator.Remove: requires a current entry, as the code dereferences it without a test.
- Commands.Registry.Register: requires the name and description lengths that the code asserts.
- arg_hashtable_destroy and arg_hashtable_itr_search as entry points, and the command dispatch.
- DString.Dstr.Set: a volatile string does not overlap its own copy in the static buffer, an adopted one is not the append buffer, and the static buffer is adopted as static only; on others the code copies over what it reads or keeps a released block. Int overflow of sizes is not modelled.
- DString.Dstr.CatFormat: the formatted text is an input, since vsnprintf is not modelled.
- MergeSort.Sort: elements are values, not stretches of esize bytes; index arithmetic is unbounded.
- OptionTables.AllocLong: requires names that are missing or not empty, since the counting pass reads past the end of empty ones, and a table whose slots are covered; on others the code writes past the option array.
- OptionTables.EncodedModes: option letters are not a colon or a semicolon, and an optional value only qualifies a value.
- ArgParse.Parser.Parse: requires an error table with room for one error, strings without NUL, a command line that is not stuck and, with arguments, a table whose long names are not empty and whose option array fits; on others the code writes past that array. What a type's scan function accepts is a parameter; the error records keep the code only, not the parent and the text, and the contracts count the errors of each phase without saying which code each has.
- ArgParse.Parser.ParseTagged: the same.
- IntScan.ScanExactly: long is 64 bits wide and characters are ASCII; the negation of the smallest long is taken without overflow, and the result is out of range either way.
- CatOption.CatOptionv: starts from an empty buffer, as its callers do.
- arg_cat_option, the glossary and error printers, arg_date, arg_dbl, arg_file, arg_rex and the T-Rex matcher: unused by barco's table or plain case lists.
- Veth.BuildVeth: ends at the first store that leaves the struct; what the program does after it is undefined.
- Netlink.BuildRename: the same.
- Netlink fields are little-endian; sending, receiving, CIDR parsing and waiting for interfaces are not modelled, nor are the attribute-free requests nl_set_up and nl_del_link.
- Reply.Acknowledged: the error code that decides lies in the buffer, as it does unless the reply ends within four bytes of the buffer's end.
- Startup.SomebodyMoves: kill and waitpid succeed on one's own unreaped child; interrupted calls, sleeps and signals from elsewhere are not modelled.
- Startup.ExecIsLast: interface names are short enough for the move and rename requests (`Netlink.RenameStoresInside`); what the program does after a longer one is undefined.
- mounts, cgroups, DNS and the capability and seccomp lists: straight-line system calls; their failures appear as outcomes where the caller looks at them.
- HostState.Host.Run: deletions succeed, the kernel refuses a pair with two equal names, and the effect on IP forwarding is not undone by the code and not modelled; closing each descriptor once is not claimed. How iptables reads a subnet text is a parameter; rules are compared by network and interface name. Interface names fit their requests (`Veth.MainFitsIff`, `Netlink.RenameStoresInside`), and the parent is not ended by SIGPIPE (`Startup.BrokenReply`), after which nothing is cleaned up.
- lib/log and the tests.
