# Galata: a record that loses nothing, repeats nothing and claims nothing it did not hear

A Dafny model of the parts of Galata that its record depends on, with proofs of what they promise.
Capture writes payloads into named segment files, compaction replaces many segments by one, replay
reads them back in receipt order, a cursor follows a chain that may take blocks back, a ledger
publishes what was not heard, and a cache answers for directories that have not moved. Each module
below follows one source file; `Text`, `Sorting` and `Cursors` serve the rest.

| module | file | what it models |
|---|---|---|
| `Calendar`, `Text` | `Calendar.dfy`, `Text.dfy` | the civil calendar over UTC days, the `full-date` text of section 5.6 of RFC 3339, closed date partitions |
| `Cursors`, `Segments` | `Cursors.dfy`, `Segments.dfy` | segment names, row groups with footer statistics, pruned reads |
| `Containment` | `Containment.dfy` | the ordered containment sweep and the counted duplicate proofs |
| `Compaction`, `Compactor` | `Compaction.dfy`, `Compactor.dfy` | what one run plans, and the run as steps over a partition |
| `Exactness`, `ClosedHours` | `Exactness.dfy`, `ClosedHours.dfy` | interrupted runs followed by a complete one, and the hours of today |
| `CrashSafety`, `RunsComplete` | `CrashSafety.dfy`, `RunsComplete.dfy` | capture and compaction interleaved, one I/O action at a time, killed or crashed anywhere; and where a run and a flush end when nothing stops them |
| `Merge`, `Replaying`, `ArchiveTree` | `Merge.dfy`, `Replay.dfy`, `ArchiveTree.dfy` | the lazy heap merge as values, the replay that runs it, and the three levels of pruning above it |
| `Trail`, `ChainCapture` | `Trail.dfy`, `ChainCapture.dfy` | steps, hash trail and fork search, and the cursor's passes and turns |
| `ChainRecord`, `ChainFidelity`, `ChainFates`, `Standing` | same names | over every run of the cursor: which recorded rows stand, of which chain they are, and what became of the fetches that hold them |
| `ChainSpan`, `ChainProgress` | `ChainSpan.dfy`, `ChainProgress.dfy` | how many blocks are asked for at once, and when a refused range is asked for again; and what a turn captures |
| `ChainRuns` | `ChainRuns.dfy` | two runs, block by block, that leave rows of replaced chains standing |
| `CoverageLedger` | `Coverage.dfy` | coverage and the gaps published for its absence |
| `Listing` | `Listing.dfy` | the directory-listing cache under coarse stamps |
| `Ingest` | `Ingest.dfy` | archive, normalise, emit, and the same path over what was recorded |

A code path that changes state in the source is a class or a method here, tied by its `ensures` to a
function of the state before it; the promises are then lemmas about those functions, over every run.

## What is assumed

- A crash keeps a prefix of the directory operations issued, in order, and no less than the last
  directory sync; it may tear any file that was not synced. A kill keeps every operation. If entries
  could persist independently, a resumed run that does not sync the directory again could lose rows.
- Capture flushes under counters that start at one (`crates/galata-datawatch/src/record/mod.rs:493-503`),
  and a merge is named with counter zero. Each flush is named with the process id and the next counter, so none reuses the
  name of a committed segment, which `CrashSafety.Enabled` asks where the writer creates one; a process id used again within
  the same receipts is not modelled. A partition named by block or stream is compacted when closed.
- Footer statistics are true of their rows, and a name bounds its segment's rows, where a lemma says so.
- No two chains share a hash: a hash fixes everything below its block, and is written as that whole chain.
- A run of compaction reads each file twice, for the proof and for the merge, and either may fail where the other does not
  (`Compaction.Reads`). Exactness over interrupted runs is promised where whatever was merged had read for the proof.
- One walk of the listing cache at a time, and stamps taken from one clock that does not go back.
- An adapter is a function of the payload, and what it stores of a generated event it reads back.

## Where the code and its comments differ

- `midnight_of` says it reads ten characters of `YYYY-MM-DD`; integer parsing also lets signs through
  (`Calendar.SignedTextIsAccepted`). `Calendar.AcceptedTextPrintsBack` gives the exact condition.
- `stream_range` says segments sharing a first receipt open in listing order. The sort keeps listing order, and taking
  from the end then opens the last listed first (`Replaying.EqualStartsOpenLastListedFirst`), so that the order is the
  documented one if and only if no two listed segments share a start (`Replaying.ListingOrderExactly`). Rows alike in receipt
  and sequence come out in the order their segments open (`Replaying.AlikeRowsComeInOpeningOrder`), so from segments of one
  start the last listed first (`Replaying.EqualRowsComeLastListedFirst`), and in listing order if and only if no two of
  those segments hold one (`Replaying.AlikeRowsKeepListingOrderExactly`).
- The containment window ends one past the last receipt, saturating. Where the window reaches the last representable
  receipt and the container has a row group of that receipt alone, a duplicate there is not proven
  (`Containment.WindowStopsShortAtTheEnd`); otherwise the windowed read gives the verdicts of a whole one
  (`Containment.WindowedReadIsEnoughExactly`).
- A replacement whose range an original already names is not recognised when interrupted. The code accepts
  this. Nor is an original recognised that holds a row of the last representable receipt which the window leaves out of the
  merge (`Exactness.LeftOutDoubles`). `Exactness.ExactExactlyWhereRecognisable` shows that these two are exactly when
  exactness is lost.
- A survivor of an interrupted merge that does not read while duplicates are proven and does while merging is merged in
  again, and its rows are doubled (`Exactness.MergedAgainExactly`, `Exactness.RereadingDoubles`).
- A refusal is said never to be retried unchanged. A pass whose head is behind the cursor asks for nothing and counts as one
  that went well, so it gives the span back: `ChainSpan.RefusedAgainExactly` says when a refused range is asked for again
  unchanged, `ChainSpan.RefusedForEver` is a run in which it is after every refusal, and `ChainSpan.RefusalsHalve` shows that
  without such passes, and without forks, a cursor in one place is refused no more often than its span can be halved.
- A rewind says old rows are told apart by sequence. The rows of the step that found the fork lie above the range
  the reorganisation names and go on standing (`ChainFates.AbortedStepStaysStanding`); where the chain is replaced again, rows
  of two chains stand for one block (`ChainRuns.TwoChainsStand`, `ChainFates.AllStandingFollowExactly`).
- A fork is said to be caught however deep it runs. The search goes back no further than the trail, and a fork below it
  leaves replaced blocks standing as captured (`ChainRuns.ForkBelowTheTrailIsMissed`, `Trail.DeepEnoughExactly`). A step whose
  first header does not read, or that follows one whose last did not, is not checked at all; a chain that parted there
  leaves a record that is no one chain's (`ChainFidelity.AcceptedFaithfulExactly`).
- No cursor names the block before the first one, so a reorganisation reaching it is not read again
  (`ChainRecord.GoingBackCoversExactly`, `ChainRecord.EveryCapturedBlockStands`).
- The cache's comment reasons about writes after a walk. A write during a long walk is not covered, and
  `Listing.LongerWalksAreNotSafe` shows that the bound on a walk's length cannot be moved by a nanosecond.
- A commit that fails after its bytes were stored leaves the record ahead of the stream. An append's was never announced; a
  flush's is handed back and stored again. A replay then says more than capture did, if what was stored has events, and
  otherwise the same (`Ingest.ReplayRepeatsLive`).

## Model

| member | source | states |
|---|---|---|
| Calendar.DaysRoundTrip | crates/galata-datawatch/src/calendar.rs:51-74 | every day number names a real Gregorian date, and that date names the day number back |
| Calendar.DateRoundTrip | crates/galata-datawatch/src/calendar.rs:51-74 | every real Gregorian date survives being turned into a day number and back |
| Calendar.RoundTripIsTheMonthTable | crates/galata-datawatch/src/calendar.rs:43-47 | for any year, month 1 to 12 and any day from 1, the round trip succeeds if and only if the day is no more than the Gregorian month's length |
| Calendar.CountsGregorianDays | crates/galata-datawatch/src/calendar.rs:51-74 | day 0 is 1970-01-01 and the next number is always the next Gregorian day, so the two algorithms are the calendar and not merely inverses |
| Calendar.DateOrderIsDayOrder | crates/galata-datawatch/src/calendar.rs:63-74 | dates in calendar order are days in numeric order, both ways |
| Calendar.MidnightOfDate | crates/galata-datawatch/src/calendar.rs:16-48 | a printed date is read back exactly when its year is in -999 to 9999, and then as the day boundary at or before the instant, less than a day away |
| Calendar.ClockTimesAreOfTheirDate | crates/galata-datawatch/src/calendar.rs:16-48 | whatever hour, minute, second and microsecond a clock shows on a real date, the instant is dated to that date, and the date's text reads as the day's first instant |
| Calendar.AcceptedTextPrintsBack | crates/galata-datawatch/src/calendar.rs:30-48 | text the parser accepts prints back unchanged if and only if it holds no plus sign and does not begin -000 |
| Calendar.SignedTextIsAccepted | crates/galata-datawatch/src/calendar.rs:35-37 | two concrete signed texts are accepted, which the comment rules out |
| Calendar.DateTextOrder | crates/galata-datawatch/src/calendar.rs:16-21 | for years 0 to 9999, byte order of dates is order of days |
| Calendar.ClosedIsPast | crates/galata-segments/src/compact.rs:245-253 | a partition is closed if and only if every receipt that could be dated into it lies before today's midnight |
| Text.PaddedOrder | crates/galata-datawatch/src/calendar.rs:16-21 | zero-padded numbers of one width compare as bytes the way they compare as numbers |
| Cursors.NameRoundTrips | crates/galata-segments/src/cursor.rs:86-138 | parsing a segment's file name gives back its cursor, for every cursor of machine integers, signs included |
| Cursors.TemporaryIsNoSegment | crates/galata-segments/src/cursor.rs:104-138 | no temporary's name parses as a segment, so a listing never returns one |
| Cursors.NamesAreDistinct | crates/galata-segments/src/cursor.rs:86-100 | two different cursors never share a name |
| Cursors.TimeNamesLookLike | crates/galata-segments/src/cursor.rs:86-106 | a segment of receipts is named by its range, its process and its flush, a negative receipt included |
| Cursors.BlockNamesLookLike | crates/galata-segments/src/cursor.rs:86-106 | a segment of blocks is named by its range, and its temporary by a dot and a suffix around that |
| Cursors.SequenceNamesLookLike | crates/galata-segments/src/cursor.rs:86-98 | a segment of stream positions is named by its range |
| Segments.RangeReadLosesNothing | crates/galata-segments/src/reader.rs:54-90 | a range read, filtered, is a whole read, filtered: the same rows in the same order, wherever statistics are true |
| Segments.TestedReadLosesNothing | crates/galata-segments/src/reader.rs:195-262 | a read pruned by any tests, filtered by them, equals an unpruned read filtered by them, rows kept for a null included |
| Segments.SelectionIsPart | crates/galata-segments/src/reader.rs:54-90 | a pruned read never yields a row more often than the whole read does |
| Segments.WrittenReadsBack | crates/galata-segments/src/writer.rs:189-232 | what is written reads back row for row, under a footer true of every row group |
| Segments.GroupsAreFull | crates/galata-segments/src/writer.rs:189-192 | every row group written holds 16,384 rows and states one column, but for the last, which holds what is left |
| Segments.RuledOutExactly | crates/galata-segments/src/reader.rs:233-262 | where a footer states both ends of a column, a row group is left out of a tested read if and only if no value the footer allows would pass the test |
| Segments.RangeRuledOutExactly | crates/galata-segments/src/reader.rs:54-90 | where a footer states both ends of the receipts, a row group is left out of a range read if and only if no receipt of the range could be in it |
| Segments.ReadUnlessRuledOut | crates/galata-segments/src/reader.rs:195-230 | a row group is read whole unless one test of a column the segment has rules it out |
| Containment.ContainedByRange | crates/galata-segments/src/compact.rs:424-476 | the one-pass sweep over a sorted copy gives the pairs the specification names, in order |
| Containment.SweepIsCrossProduct | crates/galata-segments/src/compact.rs:424-476 | a listed segment is reported if and only if another of its variant strictly contains it; each container reported is listed, strictly contains it, and is itself never reported |
| Containment.EachReportedOnce | crates/galata-segments/src/compact.rs:424-476 | no segment is reported twice |
| Containment.CondemnAgainst | crates/galata-segments/src/compact.rs:374-407 | counting down a container's copies condemns exactly what the multiset specification condemns |
| Containment.ProvenDuplicates | crates/galata-segments/src/compact.rs:312-410 | the grouped, windowed loop over containers proves exactly the specified set |
| Containment.CondemnedIsCovered | crates/galata-segments/src/compact.rs:374-407 | the rows of everything condemned against one container, summed, never exceed the container's |
| Containment.CoveredIsCondemned | crates/galata-segments/src/compact.rs:374-407 | if the container holds all of them at once, every readable one is condemned, whatever the order |
| Containment.WindowedVerdictsAreWhole | crates/galata-segments/src/compact.rs:321-347 | reading the container only for the window its contained segments span changes no verdict, unless the window reaches the last representable receipt and a row of the contained segments is in a row group of the container that states that receipt alone |
| Containment.WindowedReadIsEnoughExactly | crates/galata-segments/src/compact.rs:321-347 | for any sound container, the windowed read gives a whole read's verdicts, whatever the contained segments hold, if and only if the window ends before the last representable receipt or no row group of the container states that receipt alone |
| Containment.WindowedReadIsEnoughForEvery | crates/galata-segments/src/compact.rs:321-347 | for any name and the names strictly inside it, the windowed read will do for every container of that name if and only if none inside it reaches the last representable receipt |
| Containment.EndPairIsReported | crates/galata-segments/src/compact.rs:424-476 | the exceptional pair is one the sweep reports |
| Containment.WindowStopsShortAtTheEnd | crates/galata-segments/src/compact.rs:345-347 | two written segments, the first strictly inside the second, of which the whole read proves the first a duplicate and the windowed read does not |
| Containment.ProvenIsHeld | crates/galata-segments/src/compact.rs:415-476 | everything condemned has a listed container, not itself condemned, holding each of its rows at least as often |
| Containment.AllInsideAreProven | crates/galata-segments/src/compact.rs:312-410 | a container holding everything inside it at once has all of it that reads condemned, wherever the window leaves out no row of what is inside |
| Compaction.MergedRowsHold | crates/galata-segments/src/compact.rs:479-509 | the replacement holds exactly the multiset sum of its inputs |
| Compaction.MergedInOrder | crates/galata-segments/src/compact.rs:491-503 | the replacement's rows are its inputs' rows, input by input in listing order, each input's in its own |
| Compaction.PlansAreSound | crates/galata-segments/src/compact.rs:76-112 | whatever reads, a plan removes only what a surviving file or the replacement holds |
| Compaction.RunNeverLosesARow | crates/galata-segments/src/compact.rs:76-112 | in every directory a run passes through, each row held before it is still held |
| Compactor.MergedCursor | crates/galata-segments/src/compact.rs:515-559 | the fold over input names gives the span of all of them, in each variant |
| Compactor.MergeInputs | crates/galata-segments/src/compact.rs:479-509 | the streaming merge gives the specified name and rows, and refuses where an input does not read or nothing is held |
| Compactor.MergesAreNoFlushes | crates/galata-segments/src/compact.rs:538-541 | a merge takes the kind and process of the first it merges and a flush number no flush has |
| Compactor.Partition.Remove | crates/galata-segments/src/compact.rs:561-566 | one file goes, nothing else changes, and the state is added to the trail |
| Compactor.Partition.Commit | crates/galata-segments/src/writer.rs:345-388 | the named file holds the merge afterwards; where it did before, nothing is done, and otherwise one state is passed through |
| Compactor.Partition.RemoveOriginals | crates/galata-segments/src/compact.rs:104-110 | every original but the replacement's own name goes, each state passed through one a run may be in |
| Compactor.Partition.CompactSet | crates/galata-segments/src/compact.rs:76-112 | the directory ends as the plan says, and every state on the way is one from which no row is lost |
| Compactor.Partition.CompactPartition | crates/galata-segments/src/compact.rs:48-71 | a partition of two variants is refused untouched; any other ends as its plan says |
| Compactor.OutcomeCounts | crates/galata-segments/src/compact.rs:80-111 | the outcome counts the segments the run leaves of those listed and the rows it wrote, and is a failure if and only if the merge would not read |
| Exactness.MergedNameBounds | crates/galata-segments/src/compact.rs:515-559 | the replacement's name bounds every row it holds |
| Exactness.CompactionIsExact | crates/galata-segments/src/compact.rs:76-112 | any number of interrupted or failing runs, in each of which whatever was merged had read for the proof, and then a complete one leave one segment holding exactly the original multiset under a name that bounds it, where rows are distinct, no rival stands and no original has a row the window leaves out of the merge |
| Exactness.RangesNameThemselves | crates/galata-segments/src/compact.rs:542-557 | for block and stream names no rival can stand |
| Exactness.RivalDoubles | crates/galata-segments/src/compact.rs:456-461 | wherever a rival stands, one interruption is enough for a complete run to leave rows counted twice |
| Exactness.LeftOutDoubles | crates/galata-segments/src/compact.rs:345-347 | wherever an original holds a row of the last representable receipt that the window leaves out of the merge, one interruption is enough for a complete run to leave rows counted twice |
| Exactness.ExactExactlyWhereRecognisable | crates/galata-segments/src/compact.rs:345-461 | exactness holds of every such history of runs if and only if no original spans the merged range under another name and none holds a row the window leaves out of the merge |
| Exactness.MergedAgainExactly | crates/galata-segments/src/compact.rs:365-509 | a run over an interrupted merge merges it in again if and only if a survivor went unproven for not reading, and everything kept reads when it comes to merging |
| Exactness.RereadingDoubles | crates/galata-segments/src/compact.rs:365-509 | of any partition of two segments or more, an interruption and a run that fails to read the survivor for the proof and reads it for the merge leave rows counted twice |
| Exactness.ExactWhateverReadsExactly | crates/galata-segments/src/compact.rs:365-509 | with reads free to fail in one phase and not the other, exactness holds of every history if and only if the partition had one segment |
| CrashSafety.StepKeeps | crates/galata-segments/src/writer.rs:345-398 | every I/O action, kill and crash keeps the invariant: durable states only grow, and whatever may still be removed is held elsewhere |
| CrashSafety.NoSegmentIsEverTorn | crates/galata-segments/src/writer.rs:367-373 | through any execution every file under a segment's name is synced in every state a crash may come back to, so that a crash tears none of them |
| CrashSafety.EmptyDirectoryHolds | crates/galata-segments/src/writer.rs:275-318 | an empty directory satisfies the invariant, so every execution may begin there |
| CrashSafety.NoRowIsLost | crates/galata-segments/src/compact.rs:76-112 | over every execution a durable row is durable and listed ever after, and a listed row stays listed until a crash |
| CrashSafety.FlushedRowsAreDurable | crates/galata-segments/src/writer.rs:337-388 | every row of a segment whose commit returned is durable from that step |
| CrashSafety.CrashTearsTheUnsynced | crates/galata-segments/src/writer.rs:367-373 | a crash may make anything of any file that was not synced, and nothing of one that was |
| RunsComplete.RunGoesAsPlanned | crates/galata-segments/src/compact.rs:76-112 | over any execution, from a run's beginning until another begins or something stops it, the listing is a state a run over what it began with passes through, and beside that precisely what was flushed since; when the run rests it is the final one, with every original removed |
| RunsComplete.RunCanComplete | crates/galata-segments/src/compact.rs:76-112 | a run begun over any state that allows it can be finished by its own steps alone, leaving exactly what its plan makes of the listing |
| RunsComplete.MergesAreDurable | crates/galata-segments/src/compact.rs:98-110 | when the directory has been synced, and before anything is unlinked, every row of the merge is durable |
| RunsComplete.FlushCommits | crates/galata-segments/src/writer.rs:339-388 | whatever goes on beside it, a flush shows exactly the segment it was begun with under the name it was begun with, changing no other, and every row of it is durable from the sync that ends it |
| RunsComplete.FlushCanComplete | crates/galata-segments/src/writer.rs:339-388 | a flush under a name no segment has can be finished by its own steps, in any state, a run going on included |
| RunsComplete.TemporariesComeAndGo | crates/galata-segments/src/writer.rs:275-318 | what is being written is under a temporary name from its creation, and the rename, or the removal of a merge already there, leaves no temporary |
| RunsComplete.SameMergeMayStay | crates/galata-segments/src/writer.rs:360-365 | a merge already there under its own name may be left as it is, the originals then being unlinked |
| RunsComplete.OnlyFlushesAndRunsMoveFiles | crates/galata-segments/src/writer.rs:374-385 | no step but a rename or a removal changes what is listed |
| ClosedHours.HourNeverOverwritesAnother | crates/galata-segments/src/compact.rs:138-180 | an hour's merge is named within that hour, so it replaces no file outside the group it merges |
| ClosedHours.HourTouchesOnlyItself | crates/galata-segments/src/compact.rs:138-180 | no file outside the hour is created, changed or removed |
| ClosedHours.OnlyClosedSegmentsAreTouched | crates/galata-segments/src/compact.rs:157-167 | everything not named by receipts, or ending at or after the cutoff, is left as it was |
| ClosedHours.HourOfTheClock | crates/galata-segments/src/compact.rs:160-166 | a segment belongs to the hour a clock shows at its last receipt |
| ClosedHours.ClosedHoursEndAsOne | crates/galata-segments/src/compact.rs:117-137 | after a completed run no two segments end before the cutoff in one hour |
| ClosedHours.ReadableHoursComplete | crates/galata-segments/src/compact.rs:168-176 | a run over segments that read when it comes to merging is complete |
| ClosedHours.HoursNeverLoseARow | crates/galata-segments/src/compact.rs:138-180 | compacting any hours loses no row, whatever did not read |
| ClosedHours.ContainmentFreeStaysSo | crates/galata-segments/src/compact.rs:130-137 | a listing in which nothing contains anything stays one, so nesting goes on meaning an interruption |
| ClosedHours.RepeatedRunChangesNothing | crates/galata-segments/src/compact.rs:133-137 | a run that completed, in which every merged hour read, changes nothing when repeated with the same cutoff, whatever reads the second time |
| ClosedHours.CompactHour | crates/galata-segments/src/compact.rs:168-176 | one hour's group ends as specified and says whether it read; a group of one is skipped |
| ClosedHours.CompactClosedHours | crates/galata-segments/src/compact.rs:138-180 | the hours are taken in ascending order from one listing, and the run is complete if and only if each hour it took up read, when it has done every hour the listing holds |
| Replaying.Replay.constructor | crates/galata-datawatch/src/replay.rs:170-180 | the listing is sorted latest start first and holds everything asked for, and the whole replay is still to come |
| Replaying.Replay.OpenSegment | crates/galata-datawatch/src/replay.rs:209-253 | opening takes the last of what is pending, moves its rows, sorted, from unopened to held behind those opened before it, and none comes or goes |
| Replaying.Replay.PopHead | crates/galata-datawatch/src/replay.rs:281-292 | the row taken is least of all held, from the first opened of those that hold one as early, and the heap again names each open segment's next row |
| Replaying.Replay.Fill | crates/galata-datawatch/src/replay.rs:262-279 | segments are opened one after another until the earliest row held precedes everything unopened, or one does not read |
| Replaying.Replay.Next | crates/galata-datawatch/src/replay.rs:259-295 | each row yielded is least of all that remain and leaves exactly the rest; the segments open are precisely those starting at or before it; an end means nothing is left |
| Replaying.Replay.Collect | crates/galata-datawatch/src/replay.rs:101-108 | a whole replay ends, and unless a segment fails to read yields, row for row, the stable sort of all that was asked for in opening order; a failure leaves a prefix of it |
| Merge.TurnTaken | crates/galata-datawatch/src/replay.rs:259-295 | opening what may come first and then taking the least row, the first opened of equals, always yields the next row of one stable sort of the whole |
| Replaying.ReplayIsSort | crates/galata-datawatch/src/replay.rs:110-120 | where receipt and sequence tell rows apart, the replay is a sort of everything asked for |
| Replaying.BrokenReplayIsPrefix | crates/galata-datawatch/src/replay.rs:118-120 | what an error cuts short is a prefix of the unbroken replay |
| Replaying.EqualStartsOpenLastListedFirst | crates/galata-datawatch/src/replay.rs:170-180 | of any listing, the segments that start at one receipt open in the reverse of listing order |
| Replaying.ListingOrderExactly | crates/galata-datawatch/src/replay.rs:170-180 | segments of every one start open in listing order if and only if no two listed segments share a start |
| Replaying.EqualRowsComeLastListedFirst | crates/galata-datawatch/src/replay.rs:259-295 | in any listing, of two segments of one start the one listed later yields all its rows of a receipt and sequence before the other yields any of its own, whatever opens before, between and after them |
| Replaying.AlikeRowsComeInOpeningOrder | crates/galata-datawatch/src/replay.rs:259-295 | in any listing the rows alike in receipt and sequence come segment by segment in opening order, each segment's as it stores them |
| Replaying.AlikeRowsKeepListingOrderExactly | crates/galata-datawatch/src/replay.rs:170-180 | of the segments of one start those holding a row of a receipt and sequence come in reverse of their listing order; where those rows differ they keep listing order if and only if no two of the segments hold one |
| ArchiveTree.ListingKeepsRows | crates/galata-datawatch/src/replay.rs:143-168 | skipping segments by name drops no row the range asks for, and each listed one starts no later than its rows |
| ArchiveTree.PrunedWalkKeepsRows | crates/galata-datawatch/src/replay.rs:424-484 | skipping date directories drops no row the range asks for |
| ArchiveTree.ListingLosesNothing | crates/galata-datawatch/src/replay.rs:121-168 | what is listed holds, as often as it is stored, each row of a readable segment received in the range whose path is in scope and no directory of failures: the sum over the tree, defined without the walk |
| ArchiveTree.EverythingIsWhatIsStored | crates/galata-datawatch/src/replay.rs:127-163 | a row is in that sum if and only if it was received in the range and a path of directory names leads to a readable segment holding it, the path not ending in failures and beginning with one of the scopes, if there are scopes |
| ArchiveTree.DirectoriesAreNamedForDays | crates/galata-datawatch/src/replay.rs:463-484 | a directory named for a date stands for that UTC day, and is entered if and only if the day meets the range |
| ArchiveTree.ListingGoesByPath | crates/galata-datawatch/src/replay.rs:424-429 | a listing goes through the directories in the order of their paths |
| ArchiveTree.PartitionGoesByName | crates/galata-datawatch/src/replay.rs:143-143 | of one partition segments are listed in the order of their names |
| ArchiveTree.ReadRangeOf | crates/galata-datawatch/src/replay.rs:101-108 | a replay of a laid-out tree yields every row in scope and range as often as it is stored, in exactly the order of the stable sort, or where a listed segment does not read a prefix of that which nothing left precedes |
| Standing.StandingNamesTheLatest | crates/galata-datawatch/src/reorg.rs:102-109 | a row stands if and only if no reorganisation contradicts it, and is otherwise superseded by the latest that does |
| Standing.OnlyTheReplacedAreSuperseded | crates/galata-datawatch/src/reorg.rs:16-26 | of rows of one block recorded either side of its reorganisation, the earlier is superseded and its replacement is not |
| Trail.Plan | crates/galata-datawatch/src/venue/chain.rs:87-111 | the loop gives the specified steps, an empty range none, and a range before the provider's reach its error |
| Trail.ChunksCover | crates/galata-datawatch/src/venue/chain.rs:79-86 | steps abut, cover the range exactly, and are each of a whole span but the last |
| Trail.PlanIsRefusedExactly | crates/galata-datawatch/src/venue/chain.rs:87-95 | a range is refused if and only if it begins before what the provider reaches, and otherwise asked for in no steps if and only if it is empty |
| Trail.BlockTrail.TipOf | crates/galata-datawatch/src/adapters/rh_chain/trail.rs:107-109 | the greatest height held, none where nothing is |
| Trail.BlockTrail.Take | crates/galata-datawatch/src/adapters/rh_chain/trail.rs:117-149 | a block links, jumps or forks against the height below it; a fork drops the heights it replaces and names both hashes |
| Trail.ForkNamesWhatIsHeld | crates/galata-datawatch/src/adapters/rh_chain/trail.rs:123-136 | a block on another parent than the one held names as replaced everything held from that parent up, and both hashes |
| Trail.BlockTrail.ForkPoint | crates/galata-datawatch/src/capture/cursor.rs:477-494 | the search through held heights returns the specified one and the trail keeps only what lies below it |
| Trail.SearchFindsTheAgreement | crates/galata-datawatch/src/capture/cursor.rs:480-491 | where a held height agrees and every held one above it read otherwise, the search returns the height above it |
| Trail.SearchNeverRises | crates/galata-datawatch/src/capture/cursor.rs:477-494 | the search never returns more than the height it began at, whatever fails to read |
| Trail.SearchEndsExactly | crates/galata-datawatch/src/capture/cursor.rs:477-494 | whatever is held and reads, the search ends just above the newest held height that agrees, everything held above it having read otherwise, or else at the lowest that did before one would not read or none was left; no other height is such an end |
| Trail.ForkPointIsDeepEnough | crates/galata-datawatch/src/capture/cursor.rs:466-476 | when the search ends in agreement, every block the new chain replaced is at or above the height returned, which is at least one, and the trail keeps nothing from there up |
| Trail.DeepEnoughExactly | crates/galata-datawatch/src/capture/cursor.rs:466-494 | however the search ends, the height returned is at or below every block the new chain replaced if and only if it is zero or the two chains agree on the block before it |
| ChainRuns.ForkBelowTheTrailIsMissed | crates/galata-datawatch/src/capture/cursor.rs:477-494 | a run of two turns in which block 1 is captured and then replaced, the height returned is 2, and block 1 stands as captured |
| ChainCapture.Capture.CheckHeaders | crates/galata-datawatch/src/capture/cursor.rs:339-357 | the first and last header of a step are taken in turn, one that does not read is passed over, and the first fork ends the check |
| ChainCapture.Capture.GoBack | crates/galata-datawatch/src/capture/cursor.rs:358-382 | the fork is searched for, recorded under its own sequence, and the cursor moved below it and never forward |
| ChainCapture.Capture.WorkStep | crates/galata-datawatch/src/capture/cursor.rs:295-392 | a step is recorded before its headers are looked at, and the cursor moves past it only when it was recorded and no fork shows |
| ChainCapture.Capture.OnePass | crates/galata-datawatch/src/capture/cursor.rs:266-394 | a pass from the cursor, or behind the head on a cold start, ends as specified for every answer a node may give |
| ChainCapture.Capture.TakeTurn | crates/galata-datawatch/src/capture/cursor.rs:174-241 | a turn narrows, widens, keeps or stops as the pass ended |
| ChainCapture.Capture.RunCursor | crates/galata-datawatch/src/capture/cursor.rs:121-253 | the loop passes through exactly the states of the specified run, and stops where it does |
| ChainRecord.StandsInTheLog | crates/galata-datawatch/src/reorg.rs:102-109 | joining the record with its own reorganisations is the two-clause test over the record |
| ChainRecord.GoingBackCoversExactly | crates/galata-datawatch/src/capture/cursor.rs:92-95 | after a rewind every block up to the cursor still has a standing fetch, if and only if no recorded reorganisation reaches block zero of a run that began there |
| ChainRecord.StepKeeps | crates/galata-datawatch/src/capture/cursor.rs:295-392 | every step, whatever fails or forks, keeps sequences rising, every captured block covered unless block zero was reorganised, and nothing held or replaced below where the run set out |
| ChainRecord.EveryCapturedBlockStands | crates/galata-datawatch/src/capture/cursor.rs:121-394 | over every run, a block from the start to the cursor has a fetch whose row the join lets stand if and only if it is not block zero or no reorganisation reached block zero, as none does in a run that set out above it |
| ChainRecord.StandingRowsAreNewer | crates/galata-datawatch/src/reorg.rs:16-31 | over every run, a row of a block that stands was recorded after every recorded reorganisation of that block |
| ChainFidelity.ForkIsSeen | crates/galata-datawatch/src/capture/cursor.rs:326-338 | a block on any other parent than the newest held shows a fork from exactly that height, however deep the chains parted |
| ChainFidelity.HonestHeaderExtends | crates/galata-datawatch/src/adapters/rh_chain/trail.rs:117-149 | a chain that holds every hash held raises no alarm, and what is held after its header, trimming included, is that chain's |
| ChainFidelity.ForkedState | crates/galata-datawatch/src/capture/cursor.rs:358-382 | a checked step whose chain has parted leaves the cursor one below the height its search ends at, the trail below that height, and the record one fetch and one recorded reorganisation longer |
| ChainFidelity.StepStaysFaithful | crates/galata-datawatch/src/capture/cursor.rs:295-392 | after every step, whatever fails to read and however a search ends, all held hashes and the latest fetch of each captured block are of one chain, so long as a step whose chain has parted is one the trail is checked against |
| ChainFidelity.ForkedStaysFaithful | crates/galata-datawatch/src/capture/cursor.rs:358-382 | going back, however the search went, keeps the record faithful to what was captured before it |
| ChainFidelity.AcceptedFaithfulExactly | crates/galata-datawatch/src/capture/cursor.rs:326-357 | a step accepted leaves the record one chain's if and only if its chain holds the block captured at the cursor; where the newest hash is held and the first header reads, it does |
| ChainFidelity.UncheckedIsAccepted | crates/galata-datawatch/src/capture/cursor.rs:339-357 | without that hash or that header a step is accepted whatever chain answers it |
| ChainFidelity.SettledSearchIsWatched | crates/galata-datawatch/src/capture/cursor.rs:466-494 | where every held hash below the fork is read again and the chain still holds one the trail retains, going back leaves the newest hash held and the chain's own, so that the next step is checked |
| ChainFidelity.RecordFollowsTheChain | crates/galata-datawatch/src/capture/cursor.rs:121-394 | over every run whose steps are each one chain's, and checked where that chain has parted, there is one chain of which every hash held and the latest fetch of every captured block are; such a fetch stands if and only if its block is not block zero or no reorganisation reached block zero |
| ChainFates.AbortedStepStaysStanding | crates/galata-datawatch/src/capture/cursor.rs:319-382 | the rows of the step that found a fork stand although the cursor went back below them |
| ChainFates.OnlyTheLatestStandingWasAccepted | crates/galata-datawatch/src/capture/cursor.rs:295-392 | over every run whose reorganisations are recorded, of the fetches of a captured block that stand the latest fetch of it, if among them, was of an accepted step, and every other is of one that found a fork or whose handing on failed after it was recorded |
| ChainFates.AllStandingFollowExactly | crates/galata-datawatch/src/capture/cursor.rs:358-382 | over every run whose steps are each one chain's, checked where that chain has parted, and whose reorganisations are recorded, the latest fetch of a captured block has the hash of whatever chain the record is faithful to, and all fetches standing for the block agree at it if and only if each one of a step not accepted agrees with the latest |
| ChainRuns.TwoChainsStand | crates/galata-datawatch/src/capture/cursor.rs:358-382 | a run of three turns, everything read and recorded, after which fetches of two chains that differ at block 2 both stand for it |
| ChainSpan.RefusedAgainExactly | crates/galata-datawatch/src/capture/cursor.rs:190-222 | over every run: after a refusal and any turns that ask for nothing, the same range is asked for if and only if the ask begins there and the span, halved and then widened once by each idle pass, again comes to the blocks refused, or reaches them where the head ends the ask |
| ChainSpan.AskedAtOnceIsShorter | crates/galata-datawatch/src/capture/cursor.rs:190-208 | with no idle pass between, that is so if and only if a single block was refused |
| ChainSpan.WidenedTimesDoubles | crates/galata-datawatch/src/capture/cursor.rs:111-113 | each idle pass doubles the span as far as what was declared |
| ChainSpan.RefusedForEver | crates/galata-datawatch/src/capture/cursor.rs:285-290 | a run in which the same two blocks are asked for after every one of any number of refusals, the head falling behind the cursor between |
| ChainSpan.RefusalsHalve | crates/galata-datawatch/src/capture/cursor.rs:190-222 | over every run: while the head is not behind the cursor and no fork is found, a cursor held in one place is refused no more often than its span can be halved, the span at the end doubled that often being at most the span at the start |
| ChainSpan.SpanStaysWithinTheDeclared | crates/galata-datawatch/src/capture/cursor.rs:111-113 | over every run the span is at least one and never past what was declared, at which it begins |
| ChainProgress.SpanFollowsTheEnd | crates/galata-datawatch/src/capture/cursor.rs:197-223 | the span follows how a pass ended: half of what was refused for its size, or the end of the run where a single block was; unchanged where something failed; doubled, up to what was declared, by every pass that did not fail, whatever it captured |
| ChainProgress.PassCounts | crates/galata-datawatch/src/capture/cursor.rs:295-392 | a pass counts exactly the blocks from its first step up to the one it stopped at |
| ChainProgress.TurnReachesTheHead | crates/galata-datawatch/src/capture/cursor.rs:295-357 | where every step reads from one chain that holds what is held, a turn captures everything from the block after the cursor, or the backfill behind the head on a cold start, to the head: one fetch for each of the steps that cover it, under following sequences, the cursor at the head and the span given back |
| CoverageLedger.Coverage.MarkKnown | crates/galata-datawatch/src/capture/coverage.rs:90-97 | the pair is covered to the moment given, its count untouched, every other pair as it was |
| CoverageLedger.Coverage.MarkReceived | crates/galata-datawatch/src/capture/coverage.rs:100-105 | the pair is covered to the receipt and counted once more |
| CoverageLedger.Coverage.MarkHandedOver | crates/galata-datawatch/src/capture/coverage.rs:160-166 | pairs covered before are covered to the handover, and no other is |
| CoverageLedger.Coverage.Roll | crates/galata-datawatch/src/capture/coverage.rs:131-144 | counts fall to zero together when their window has elapsed, and coverage does not move |
| CoverageLedger.CountsAreReceiptsInWindow | crates/galata-datawatch/src/capture/coverage.rs:90-144 | over every run of calls a pair's count is its receipts since the window all pairs share began |
| CoverageLedger.Coverage.PublishGaps | crates/galata-datawatch/src/capture/coverage.rs:173-212 | the gaps of a loss, and the ledger left by it, as the specification whose gaps account for all that was lost |
| CoverageLedger.Coverage.AskAgain | crates/galata-datawatch/src/capture/coverage.rs:240-284 | the tails of open gaps, and the ledger left by asking |
| CoverageLedger.PublishedAsOftenAsNamed | crates/galata-datawatch/src/capture/coverage.rs:173-212 | a call publishes a pair's gap exactly as many times as it names the pair |
| CoverageLedger.PairFollowsItsOwnSteps | crates/galata-datawatch/src/capture/coverage.rs:77-284 | each pair's accounting is that of its own calls, whatever else the ledger holds and however often a call names it |
| CoverageLedger.GapsAreDisjoint | crates/galata-datawatch/src/capture/coverage.rs:173-284 | over every run of calls, losses and requests alike, a pair's gaps are non-empty and each starts at or after the one before ends, if and only if no call that leaves the pair a gap names it twice |
| CoverageLedger.GapsLeaveNoHole | crates/galata-datawatch/src/capture/coverage.rs:90-225 | with a clock that never goes back no covered moment lies inside a gap, and from the last receipt to the last gap's end there is no moment no gap accounts for |
| CoverageLedger.LossIsAccountedFor | crates/galata-datawatch/src/capture/coverage.rs:147-212 | over every run with a clock that never goes back, once a loss names a pair its gaps hold every moment from the last it was covered at up to the loss; a gap is added if and only if one of those was in none, ends at the loss, has its cause and the ledger's clipping, and is left open |
| CoverageLedger.NeverCoveredHasNone | crates/galata-datawatch/src/capture/coverage.rs:180-186 | over every run a pair never covered has no gap |
| CoverageLedger.UnnamedPairsAreLeft | crates/galata-datawatch/src/capture/coverage.rs:173-284 | of a pair a loss or a request does not name nothing is published, and its accounting is as it was |
| CoverageLedger.AskedAgainClosesTheGap | crates/galata-datawatch/src/capture/coverage.rs:227-284 | an open gap with nothing covered since is extended to exactly the moment asked, with its own cause, once for each time the request names the pair |
| CoverageLedger.AskingLeavesNothingOpen | crates/galata-datawatch/src/capture/coverage.rs:268-283 | asking leaves every pair asked with no gap open, tail or not |
| CoverageLedger.QuietUntilTheNextLoss | crates/galata-datawatch/src/capture/coverage.rs:227-284 | once closed a pair publishes nothing more over any run of calls until another loss names it |
| CoverageLedger.GapPublishesPerMention | crates/galata-datawatch/src/capture/coverage.rs:180-284 | where a loss or a request leaves a pair a gap it is published once for each mention, and the gaps are disjoint if and only if the call names the pair no more than once |
| Listing.ListingCache.ListingOf | crates/galata-segments/src/listing.rs:455-474 | the entries handed out are the directory's own; it is read, and its listing replaced, if and only if the cached one is not trusted or its stamp has moved |
| Listing.ListingCache.Walk | crates/galata-segments/src/listing.rs:449-480 | over a tree that holds still a cached walk finds what reading every directory finds, asks every directory reached, leaves each listed as of its stamp, and changes only listings it read |
| Listing.ListingCache.Settle | crates/galata-segments/src/listing.rs:427-444 | the walk's own listings are trusted or not by the margin, and no other is touched |
| Listing.ListingCache.PartitionsWithSegments | crates/galata-segments/src/listing.rs:422-447 | a whole call answers each directory reached that holds segments, with those, once for each way it is reached and nothing else, sorted; a directory reached is handed out next time if and only if one stamped more than two seconds later was reached |
| Listing.AnsweredExactlyTheReached | crates/galata-segments/src/listing.rs:449-480 | a directory is in the answer if and only if directories naming one another lead to it from the root and it holds segments, which are the ones answered, as often as there are such ways |
| Listing.HandedOutNextTime | crates/galata-segments/src/listing.rs:358-372 | after a walk of a still tree a directory reached need not be read next time if and only if one stamped more than two seconds later was reached |
| Listing.ReadOnlyWhatIsNotHandedOut | crates/galata-segments/src/listing.rs:455-474 | a walk asks each directory's stamp and reads on if and only if its listing is not handed out |
| Listing.TrustedWasOld | crates/galata-segments/src/listing.rs:358-372 | a stamp a margin older than the newest, in a walk no longer than the margin's whole ticks, is a tick older than the moment it was asked for |
| Listing.ActionKeeps | crates/galata-segments/src/listing.rs:422-515 | every change, removal, walk step, settling and pruning keeps what is known of the cache |
| Listing.CacheAgreesWithTheTree | crates/galata-segments/src/listing.rs:374-392 | for any interleaving of changes with walks and stamps of any coarseness, a listing handed out is the directory's own at that moment |
| Listing.LongerWalksAreNotSafe | crates/galata-segments/src/listing.rs:358-372 | for every tick, a walk one nanosecond longer can leave a wrong listing trusted |
| Listing.NoneReportedMeansNoneOverlap | crates/galata-segments/src/listing.rs:330-340 | in an ordered listing neighbours suffice: none reported if and only if no position lies within the ranges of two segments of one kind |
| Listing.ReportedAreNeighboursSharing | crates/galata-segments/src/listing.rs:326-340 | a pair is reported if and only if the two are neighbours and some position lies within both ranges |
| Ingest.SanitiseTo | crates/galata-datawatch/src/ingest.rs:396-407 | a channel is cut to the length asked, every character a ticker may hold is kept and every other replaced |
| Ingest.Ingestion.Append | crates/galata-datawatch/src/record/mod.rs:327-344 | a stream's bytes wait for the flush and others are stored at once, with every way a commit may fail |
| Ingest.Ingestion.EmitEach | crates/galata-datawatch/src/ingest.rs:145-161 | every event is handed on stamped and in order, refusals counted, venue times collected |
| Ingest.Ingestion.ReadOn | crates/galata-datawatch/src/ingest.rs:120-163 | a payload is read by its origin, what would not read leaves a failure row and an anomaly in its place, and how many events the sink took is reported |
| Ingest.Ingestion.TakePayload | crates/galata-datawatch/src/ingest.rs:92-166 | a live payload is numbered and stored before it is read; a replayed one keeps its number and is only read; what became of its events is reported |
| Ingest.Ingestion.TakeGenerated | crates/galata-datawatch/src/ingest.rs:200-243 | a generated event is stored before it is emitted, and not emitted where storing failed |
| Ingest.Ingestion.Flush | crates/galata-datawatch/src/record/mod.rs:377-424 | what was written becomes durable, what was not is still held, and a group whose commit failed after storing it is both |
| Ingest.Ingestion.ReplayAll | crates/galata-datawatch/src/ingest.rs:83-90 | replaying stores nothing, numbers nothing and records no failure; it attempts the payloads' events in order |
| Ingest.RecordIsKept | crates/galata-datawatch/src/ingest.rs:92-243 | over every run of calls the record and the buffer hold every stored payload once, and once more for each time a flush stored it and handed it back, in rising sequence, and the attempts are those of the announced ones |
| Ingest.ReplayOrderIsCaptureOrder | crates/galata-datawatch/src/replay.rs:241-245 | a record replays in the order it was captured in if and only if its receipts never go back |
| Ingest.ReplayRepeatsLive | crates/galata-datawatch/src/ingest.rs:71-82 | replaying a flushed record attempts exactly the events live capture attempted, in order and under the same sequences, if and only if neither an append that stored and then failed nor a flush that stored a group and handed it back held events; it never attempts fewer |
| Ingest.RecordedIsNeverSilent | crates/galata-datawatch/src/ingest.rs:92-166 | of every payload recorded or replayed, what the adapter's normaliser reads is attempted event by event, in order, under the payload's sequence; what it will not read leaves a failure row naming the payload and the error, unless replayed, and one anomaly, if and only if its symbol is a ticker or it has none and its channel is not empty; a generated payload is decoded instead |
| Ingest.FailuresAreKept | crates/galata-datawatch/src/ingest.rs:118-142 | over every run of calls there is one failure row for each payload read that would not read, in order, and no other |
| Ingest.WhatIsMadeIsStored | crates/galata-datawatch/src/ingest.rs:200-243 | a generated event is stored once under the next sequence and its own kind, as encoded with that sequence, unless storing was lost, and attempted if and only if storing succeeded |
| Ingest.FlushesMayStopAnywhere | crates/galata-datawatch/src/record/mod.rs:377-424 | a flush may stop after any of what is buffered, the group it stopped at stored or not; what it wrote is then durable and the rest buffered |
| Ingest.TakenAreNotRefused | crates/galata-datawatch/src/ingest.rs:145-161 | the events reported emitted are the offers the sink did not refuse, all of them if and only if it refused none |
| Ingest.VenueTimesAre | crates/galata-datawatch/src/ingest.rs:150-158 | the venue times reported are those of the events that have one and a ticker |

## Left out

- Parquet, Arrow, codecs and row formats: a segment is row groups of rows with footer statistics; two segments hold a row alike when their cells are equal, and schemas never differ within a partition.
- Footer labels: a merge does not carry them over, and nothing here reads one, the account fingerprint a replay restores included.
- I/O errors beyond a file that does not read, a commit that fails and a header, range or head that does not answer; symbolic links, permissions, `flock` and temporaries of dead processes other than their removal.
- Names a listing accepts without having written them, such as padded numbers: a partition is a map from cursors.
- The order in which condemned segments are removed: any order is allowed.
- The tree walks around whole-tree compaction, `overdue_closed` and the reports they fill; one partition and one listing are modelled.
- CrashSafety.NoRowIsLost: one writer and one compactor at a time, and persistence in the order issued, as stated above.
- Exactness.CompactionIsExact: rows pairwise distinct, and whatever was merged read for the proof as well; with a repeated row the counted proofs stay sound and the sum is not exact.
- ArchiveTree.ReadRangeOf: a directory that does not read is taken for an empty one, as the source takes it.
- Replaying.Replay.Next: an unopened segment is known by its name alone; labels, kinds and addresses restored on opening are not part of a row.
- ChainRecord.EveryCapturedBlockStands: headers answer for the height asked; the source does not check the number a node returns, and on a cold start a wrong one could move the cursor past blocks never read.
- ChainFidelity.RecordFollowsTheChain: one chain answers all of a step; a node that changes chain between the logs of a step and its headers is not modelled there, and the trail cannot tell.
- ChainFates.AllStandingFollowExactly: every reorganisation found is recorded; one that is not leaves the rows it replaced standing.
- Letter case of hashes, request counts, backoff, pacing, status and reference reads, beyond the sequences other payloads take.
- Machine widths of heights and sequences: the plan saturates and the widening saturates below bounds the values never pass; one above the last height is not modelled.
- Listing.CacheAgreesWithTheTree: a directory moved onto a path brings its own older stamp with it, which no part of this system does.
- Listing.ListingCache.PartitionsWithSegments: the order of paths is a parameter, and a tree in which a link leads back above itself is excluded.
- Listing.NoneReportedMeansNoneOverlap: names run forwards, first position no later than last, as every writer names them; parsing does not ask it.
- Ingest.ReplayRepeatsLive: rows read back as they were stored, and failure rows are committed beside their payloads rather than in their own files.
- Coverage counts are unbounded, and the hash order of `gaps_for_all` is not modelled: it names every pair once.
- The NATS, HTTP and WebSocket edges, the vault, sessions, polling, retention, reconciliation, regimes and signals: plumbing, or small tables and thresholds.
