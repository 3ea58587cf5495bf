# Verified model of the miry market-data collector and pipeline

miry records Binance USD-M market data at an edge site, moves it to a central store, and turns it into reconstructed
order books with quality statements. This project models its hardest parts in Dafny and proves what they are for.

- **Order books.** `Bridge` (the collector's tracker), `Book` and `ConnectionBooks` (the pipeline's book), with `Shortcut`
  and `ShortcutLimits` (the lazy bridge search refines an eager one, and exactly when), `Lockstep`, `TrackerResults` and
  `Divergence` (tracker and book agree, what the tracker answers, and how long), `Replay` and `BookReports` (what a VALID
  book means, what its changes say), `Checkpoint` and `Handoff` (one book across midnight).
- **A day.** `Ledger`, `Day`, `DayFacts`, `Reconstructor` (the run over rows and gap events), `Intervals`, `Quality`,
  `Finalize` (interval accounting), `EndToEnd`, which crosses all of them, `Completeness` (the rows hold all they should),
  `LedgerScope` (which gap events count), and `DayWitnesses` (runs that reach the exceptions).
- **Midnight.** `DayCheckpoints` (what a day's checkpoint holds), `Midnight` and `TwoDays` (two days through it are one),
  `MidnightLimits` (exactly when).
- **Gaps.** `GapRollover` (the journal), `GapRuns` (all its runs, with seals, refusals and crashes), `GapTiling` (the
  per-day pieces add up again in the quality step).
- **Transfer.** `Spool`, `SpoolRun` (ACK application as a crash-recoverable run), `DayIndex`, `TwoSites` (the whole
  protocol as a state machine), `AckVerdicts` (what an ACK is taken for in it), `SealRuns` (what a seal lists and what it misses), `Ingest` (the central side),
  `Rewrites` (chunks whose manifest is written again).
- **Deduplication.** `Dedup` (buckets, heaps, checkpoint), `DedupDays` (agreement with a plain map, cut at midnights).
- **Allocation.** `Lanes`, `LaneBounds`, `LongestFirst` (download lanes), `Sharder`, `ShardRun` (route shards),
  `HandOver` (live hand-over), `Universe`, `Selection` (the rolling universe).
- **Projection.** `Projection` (per-symbol files against the full scan).

Code that changes state is a class or a method with loops, proved against a function on values; the lemmas are about
those functions. Files are maps, and each rename, write or unlink is one step. `dafny verify dfyconfig.toml` checks
everything.

## What the proofs found

Where the code does not do what its documentation or its neighbours expect, the model keeps the code and states the exact
condition.

1. `_build_checkpoint` raises exactly when some book is VALID and still holds an anchor, which a snapshot received while
   VALID leaves behind (`EndToEnd.CheckpointIsPlausible`, `EndToEnd.SnapshotWhileValid`).
2. A CLOSED event without an open gap, on a day with an authority, moves `valid_from` forward; the validity before it is
   never written. The rows hold all valid time if and only if no such event comes later than the start of an open row
   (`Completeness.NothingIsLostExactly`, `DayWitnesses.StrayCloseLosesTime`).
3. A gap cut at midnight conflicts with a book that is valid again at day end in exactly one nanosecond, and the symbol is
   then rejected (`EndToEnd.RowsNeverMeetGaps`, `DayWitnesses.CutGapConflicts`).
4. A gap that closes at or before its last opening, for instance exactly at a midnight, leaves the rest of that day
   invalid, because CLOSED sorts before OPEN (`GapTiling.GapTiles`, `GapTiling.ClosingAtMidnightFloodsTheDay`).
5. A seal can miss chunks in two ways. A day whose journal file does not exist lists nothing, even when manifests exist;
   and a manifest that the writer, which does not hold the day index's lock, writes between the seal's listing of the
   ready tree and SEALED.json is not listed (`SealRuns.SealIsCompleteExactly`, `SealRuns.ChunkLostFromSeal`,
   `SealRuns.LateManifestHappens`).
6. After a buffered discontinuity the tracker keeps what follows the break and the book keeps only the newest diff. They
   agree on every continuation if and only if that has not happened (`Divergence.TogetherExactly`).
7. The shortcut around the bridge search is invisible in the state changes if and only if each snapshot is beyond what its
   predecessor let the book discard (`ShortcutLimits.FreesExactly`, `ShortcutLimits.InvisibleExactly`,
   `Shortcut.SnapshotStepBackTellsThemApart`).
8. An `affected_from` of zero is read as a time by the reconstructor and as absent by quality, so the two order the events
   differently (`Ledger.ZeroOpeningIsMisplaced`). The event is filed under 1970-01-01, so only that day can show time that
   is neither valid nor invalid (`DayWitnesses.ZeroOpeningIsUnaccounted`); the day of the observation sees no more than a
   stray CLOSED, finding 2.
9. A crash inside opening or closing a gap is visible. A gap announced without its state file is invalid time until
   midnight and not after (`GapTiling.ForgottenEndsAtMidnight`, `GapTiling.ForgottenHappens`). A state file that outlives
   its CLOSED lets the gap be carried on and closed again: it is still tiled exactly up to its first closing if and only if
   that comes after the last midnight it was carried over, and no closing observed earlier follows the opening of its day.
   When it is closed again on a later day, the time from the first closing to midnight is a hole, and the gap is invalid
   again from there
   (`GapTiling.GapTiles`, `GapTiling.FirstClosingCounts`, `GapTiling.ClosingTwiceLeavesAHole`,
   `GapTiling.ClosingTwiceHappens`).
10. A gap event that a repeated roll writes again gets a manifest with a new creation time. The central store, once it
    keeps the first one, refuses it for good (`Ingest.RewrittenChunkIsRefused`). The chunk can still leave the edge,
    because ACKs compare chunk id and hash only: as long as the kept manifest itself is not written again, which its
    creation time rules out, it can if and only if an ACK of it is on the edge, staged, in a transaction, or still to be
    had from a staged copy of the kept manifest; otherwise its data and a ready manifest stay
    (`Rewrites.RewrittenChunkLeavesExactly`, `Rewrites.RewrittenChunkCanLeave`, `Rewrites.RewrittenChunkCanStay`).
11. Market and poller plans start from the committed instruments and not from what their route holds, so after a removal
    that failed in part a symbol of the old and the new assignment can stay off the market route
    (`HandOver.StalePlanLeavesSymbolOut`).
12. Midnight loses what the checkpoint does not hold: a diff that waits for its snapshot, a VALID book that is not the
    authority, and any book with an empty side. Two days through the checkpoint are one day if and only if no book has
    that to lose (`TwoDays.TwoDaysAreOne`, `MidnightLimits.MidnightIsInvisibleExactly`, `MidnightLimits.BufferIsLost`).

## Model

| member | source | states |
|---|---|---|
| Bridge.LocateMeetsOfficialRule | src/miry/orderbook/bridge.py:36-57 | the located bridge is exactly the exchange's rule (discard older events, the first kept one covers the snapshot id); waiting and stale are characterised as well |
| Bridge.FirstDiscontinuity | src/miry/orderbook/bridge.py:131-143 | the scan finds the first event whose previous id does not continue the chain |
| Bridge.SnapshotBridgeTracker.OnDiff | src/miry/orderbook/bridge.py:90-108 | the new tracker state and result of a diff, buffered, contiguous or broken, which `TrackerResults` ties to the book's changes |
| Bridge.SnapshotBridgeTracker.OnSnapshot | src/miry/orderbook/bridge.py:85-88 | the new tracker state and result of a snapshot |
| Bridge.SnapshotBridgeTracker.Evaluate | src/miry/orderbook/bridge.py:115-147 | sorting only when out of order still evaluates the sorted buffer |
| Bridge.SnapshotBridgeTracker.Invalidate | src/miry/orderbook/bridge.py:110-113 | everything is forgotten but the buffer limit |
| Sorting.SortKeepsPairwise | src/miry/orderbook/bridge.py:118-122 | a buffer that passes the pairwise test is already sorted, so skipping the sort is safe |
| Book.StepKeepsWellFormed | src/miry/pipeline/l2.py:167-215 | every event keeps: VALID has a previous id and an empty buffer, an anchor has a previous id |
| Book.ApplyLevelsNoZeroes | src/miry/pipeline/l2.py:759-766 | applying levels never stores a zero quantity |
| ConnectionBooks.ConnectionBook.OnDiff | src/miry/pipeline/l2.py:167-198 | the mutable book's diff handler computes the book function: duplicate, continuous, gap, buffered or bridged |
| ConnectionBooks.ConnectionBook.OnSnapshot | src/miry/pipeline/l2.py:209-215 | the snapshot handler, a VALID book keeping its state while it takes the anchor |
| ConnectionBooks.ConnectionBook.TryBridge | src/miry/pipeline/l2.py:217-284 | the bridge search over the sorted buffer, with its discard, stale, bridge and discontinuity branches |
| ConnectionBooks.ConnectionBook.Replay | src/miry/pipeline/l2.py:243-284 | the replay loop over the candidates against the book function |
| ConnectionBooks.ConnectionBook.Invalidate | src/miry/pipeline/l2.py:200-207 | invalidation clears the book but not the diffs it has seen |
| ConnectionBooks.ConnectionBook.FromCheckpoint | src/miry/pipeline/l2.py:142-153 | the book restored from a VALID checkpoint |
| ConnectionBooks.ConnectionBook.FromAnchorCheckpoint | src/miry/pipeline/l2.py:154-165 | the book restored from an anchored checkpoint with its buffered diffs |
| ConnectionBooks.UpdatedSide | src/miry/pipeline/l2.py:759-766 | the level loop computes the side function |
| ConnectionBooks.SideOf | src/miry/pipeline/l2.py:664-669 | the snapshot side loop keeps non-zero levels |
| Shortcut.ShortcutRefines | src/miry/pipeline/l2.py:177-183 | skipping the bridge search for diffs that do not cover the anchor gives the state changes of an always searching book on every run of diffs in receive order and snapshots beyond what is discarded, and keeps their buffers related |
| Shortcut.OrderedRunIsSteady | src/miry/pipeline/l2.py:177-183 | non-decreasing snapshot ids are such a run |
| Shortcut.ShortcutIsInvisible | src/miry/pipeline/l2.py:177-183 | the same from a fresh book |
| Shortcut.SnapshotStepBackTellsThemApart | src/miry/pipeline/l2.py:177-183 | a run whose snapshot id steps back over a discarded diff, on which the two differ |
| ShortcutLimits.FreesExactly | src/miry/pipeline/l2.py:177-183 | a snapshot is beyond what was discarded if and only if on every steady continuation behind it the two books emit the same changes |
| ShortcutLimits.InvisibleExactly | src/miry/pipeline/l2.py:177-183 | along a run of diffs in receive order the two can nowhere be told apart by their changes if and only if each snapshot is so |
| ShortcutLimits.InvisibleExactlyFromStart | src/miry/pipeline/l2.py:177-183 | the same from a fresh book |
| Shortcut.SearchCases | src/miry/pipeline/l2.py:217-249 | the search of an ordered buffer: nothing left, stale, or replay from the first diff that is not older |
| Shortcut.DroppingStaleIsInvisible | src/miry/pipeline/l2.py:225-231 | diffs older than the anchor may be dropped before the search |
| Lockstep.TrackerAndBookAgree | src/miry/orderbook/bridge.py:85-147 | up to the first buffered break with diffs behind it, the tracker is bridged exactly when the book is VALID, with the same previous id |
| Lockstep.TrackerAndBookAgreeFromStart | src/miry/orderbook/bridge.py:85-147 | the same for a connection from its first event |
| Lockstep.DivergenceWitness | src/miry/pipeline/l2.py:263-264 | after such a break the tracker can be bridged while the book is not VALID |
| Divergence.TogetherExactly | src/miry/orderbook/bridge.py:131-143 | after an aligned run of rising diffs the two agree on every aligned continuation if and only if no step left diffs behind a buffered break |
| Divergence.TogetherExactlyFromStart | src/miry/orderbook/bridge.py:131-143 | the same from the start of a connection |
| Divergence.SplitDisagrees | src/miry/pipeline/l2.py:263-264 | after such a step any snapshot that the first kept diff covers makes them disagree |
| TrackerResults.StepTells | src/miry/orderbook/bridge.py:85-147 | a step of an aligned run answers SEQUENCE_GAP if and only if the book reports GAPPED, BRIDGED if and only if it reports VALID, CONTIGUOUS if and only if the tracker was bridged and stays so; a gap's expected id is the one it had reached and its received id the pu of the diff that breaks it |
| TrackerResults.AnswersAreTheChanges | src/miry/orderbook/bridge.py:85-147 | over a whole aligned run the gaps and bridges it announces are the book's changes, in order |
| TrackerResults.AnswersAreTheChangesFromStart | src/miry/orderbook/bridge.py:85-147 | the same from the start of a connection |
| TrackerResults.NewestAreKept | src/miry/orderbook/bridge.py:104-108 | over any run of diffs without a snapshot the tracker holds the newest that fit its buffer, in the order they came |
| Replay.ValidBookIsReplay | src/miry/pipeline/l2.py:217-289 | a VALID book's sides and previous id are one snapshot of its run replayed with a contiguous chain of distinct diffs of the run, whose head overlaps the snapshot or links to it |
| Replay.RunIsTracked | src/miry/pipeline/l2.py:167-289 | the invariant behind it, over every run |
| Replay.LastLevelDecides | src/miry/pipeline/l2.py:759-766 | what replayed levels mean: the last level of a price decides, and zero removes it |
| Replay.ChainIsContiguous | src/miry/pipeline/l2.py:250-266 | a replay without a break has each previous id equal to the prior final id |
| BookReports.ChangesAreNamed | src/miry/pipeline/l2.py:167-289 | every change names its connection, the state it leads to, the update id that state starts from, and its cause: a bridge, a break while VALID, or a break in the buffer |
| BookReports.RepeatsAreIgnoredExactly | src/miry/pipeline/l2.py:167-173 | after any run a diff leaves the book as it is, without a change, if and only if the run holds one with the same three ids and payload hash |
| BookReports.LastNonZeroLevelDecides | src/miry/pipeline/l2.py:664-669 | what snapshot levels mean: the last non-zero level of a price decides, a zero level is skipped |
| Book.ZeroTestIsExact | src/miry/pipeline/l2.py:773-775 | of decimal texts with sign and exponent, the zero test accepts exactly those of value zero |
| Checkpoint.SideRoundTrip | src/miry/pipeline/l2.py:664-669 | reading back a written side gives the side, when it stores no zero |
| Checkpoint.CheckpointLevelsAreSorted | src/miry/pipeline/l2.py:707-708 | written levels are the side's, in ascending price order |
| Handoff.RunKeepsClean | src/miry/pipeline/l2.py:759-766 | no run stores a zero quantity, so the round trip always applies |
| Handoff.MidnightIsInvisible | src/miry/pipeline/l2.py:499-535 | one book cut at midnight: restored, it gives the same state changes and the same levels as the uninterrupted one on every later run of fresh diffs |
| Handoff.MirrorsForever | src/miry/pipeline/l2.py:142-165 | a book that mirrors another does so after every event |
| Handoff.RestoredValidMirrors | src/miry/pipeline/l2.py:142-153 | a restored VALID book mirrors the original although it forgot the seen diffs |
| Handoff.RestoredAnchoredMirrors | src/miry/pipeline/l2.py:711-743 | so does a restored anchored book, although its checkpoint drops old buffered diffs |
| Reconstructor.Run | src/miry/pipeline/l2.py:332-449 | the whole day run over mutable books: start, merge of rows and gaps, close, checkpoint, against the day function, whose checkpoint `DayCheckpoints` and `TwoDays` characterise |
| Reconstructor.DayReconstructor.HandleGap | src/miry/pipeline/l2.py:364-402 | an OPEN or CLOSED event: intervals, books and authority afterwards |
| Reconstructor.DayReconstructor.HandleRow | src/miry/pipeline/l2.py:409-434 | one row: the book it moves and what its state change does to authority and intervals |
| Reconstructor.DayReconstructor.WalkDay | src/miry/pipeline/l2.py:404-438 | the merge loop: every gap effective by a row's time is handled before the row |
| Reconstructor.DayReconstructor.Restore | src/miry/pipeline/l2.py:347-359 | books and authority taken over from the previous day's checkpoint |
| Reconstructor.AnchoredOf | src/miry/pipeline/l2.py:499-535 | the anchored books of a checkpoint, in the order of the books, or its error |
| Reconstructor.KeepNonEmpty | src/miry/pipeline/l2.py:441-445 | only non-empty intervals are written, in order |
| Reconstructor.Close | src/miry/pipeline/l2.py:436-449 | the day's last interval and its checkpoint |
| DayFacts.WalkIsSound | src/miry/pipeline/l2.py:364-445 | in every reachable state a set authority has a VALID book, no active gap, and is the last valid connection; intervals are in order and in the day |
| DayFacts.StepHappensNow | src/miry/pipeline/l2.py:167-284 | a state change that makes or breaks validity is stamped with the event that caused it |
| DayFacts.WrittenRowsAreProper | src/miry/pipeline/quality.py:148-173 | the written intervals are non-empty, sorted, disjoint and inside the day |
| EndToEnd.RowsNeverMeetGaps | src/miry/pipeline/l2.py:364-449 | for time-ordered rows and any unambiguous ledger, the intervals of a day never meet a gap's span: the conflict that quality measures is empty, or the nanosecond before midnight, in exactly one case |
| EndToEnd.WalkKeepsApart | src/miry/pipeline/l2.py:364-445 | the invariant: intervals and gap spans share no nanosecond before the last of the day |
| EndToEnd.ConflictIsExact | src/miry/pipeline/quality.py:204-217 | when the added nanosecond of a continuing gap conflicts |
| EndToEnd.CheckpointIsPlausible | src/miry/pipeline/l2.py:499-535 | building the checkpoint fails exactly when a VALID book keeps an anchor; otherwise its anchored books are settled at the next day's start |
| EndToEnd.NextDayStarts | src/miry/pipeline/l2.py:341-359 | whatever checkpoint a day writes, the next day starts from it without an error |
| EndToEnd.DaysFollow | src/miry/pipeline/l2.py:499-535 | a sound day end, without the failing case, is followed by a sound start |
| EndToEnd.SnapshotWhileValid | src/miry/pipeline/l2.py:209-215 | a snapshot on a VALID book leaves it VALID with an anchor, the failing case above |
| EndToEnd.StartIsSound | src/miry/pipeline/l2.py:341-359 | a day started from such a checkpoint, or empty, is sound |
| DayCheckpoints.ValidPartIsTheAuthority | src/miry/pipeline/l2.py:508-535 | the checkpoint of a sound day end is VALID if and only if there is an authority and both sides of its book are non-empty, and then holds its connection, previous id and exactly its levels, ascending |
| DayCheckpoints.AnchoredMembers | src/miry/pipeline/l2.py:499-507 | its anchored part holds each book with an anchor and both sides, and no other |
| DayCheckpoints.NextDayHolds | src/miry/pipeline/l2.py:341-359 | the next day starts with exactly those books, each a mirror of the one it was taken from, and with the old authority if its book is among them |
| DayCheckpoints.StartIsExact | src/miry/pipeline/l2.py:341-359 | a day refuses to start if and only if it needs a checkpoint it lacks, or the checkpoint names a connection twice or has a VALID anchored book; the first such book decides the error |
| DayCheckpoints.OrderGrows | src/miry/pipeline/l2.py:404-409 | books come in the order of their first row and none is forgotten |
| TwoDays.TwoDaysAreOne | src/miry/pipeline/l2.py:332-535 | two whole days, the second started from the checkpoint that the first writes, against one day over both: the same changes on every connection, rows over the same nanoseconds, and the same VALID book in the last checkpoint, when no book has something to lose |
| TwoDays.WalkKeepsTwins | src/miry/pipeline/l2.py:404-438 | the invariant behind it, over every second day |
| Midnight.WalkStaysReady | src/miry/pipeline/l2.py:167-183 | every day of fresh diffs in receive order ends with books that midnight does not confuse |
| MidnightLimits.MidnightIsInvisibleExactly | src/miry/pipeline/l2.py:499-535 | the next day's first row causes the same changes as without midnight, whatever row it is, if and only if every book is in the checkpoint or has nothing to lose |
| MidnightLimits.BufferIsLost | src/miry/pipeline/l2.py:499-507 | a day of one diff whose snapshot comes after midnight, which loses it |
| MidnightLimits.AuthorityIsWritten | src/miry/pipeline/l2.py:524-535 | a day from an empty start that ends VALID at its last diff's id, with that checkpoint |
| Completeness.RowsAreComplete | src/miry/pipeline/l2.py:364-445 | at every nanosecond of a day, no gap is active and the connection that last became VALID still is if and only if the nanosecond is in a written row or in a span dropped by a stray CLOSED, and never in both |
| Completeness.NothingIsLostExactly | src/miry/pipeline/l2.py:395-402 | the rows hold all of that time if and only if no CLOSED without an active gap is handled later than the start of an open row |
| Completeness.AuthorityIsExact | src/miry/pipeline/l2.py:364-434 | an authority is set exactly while no gap is active and the connection that last became VALID still is |
| Completeness.PairedLosesNothing | src/miry/pipeline/l2.py:364-402 | a ledger whose CLOSED events each follow their OPEN loses nothing, whatever the rows |
| Completeness.EveryDayBegins | src/miry/pipeline/l2.py:341-362 | every day that starts, empty or from a checkpoint, meets what these theorems ask |
| DayWitnesses.StrayCloseLosesTime | src/miry/pipeline/l2.py:395-402 | a run from an empty start whose valid time before a stray CLOSED is never written |
| DayWitnesses.CutGapConflicts | src/miry/pipeline/quality.py:204-217 | a run from an empty start whose conflict is the nanosecond before midnight |
| Ledger.BothOrdersAgree | src/miry/pipeline/l2.py:589-593 | on an unambiguous ledger the reconstructor and the quality step walk gap events in the same order |
| Ledger.ListingIsForgotten | src/miry/pipeline/quality.py:186-203 | quality reads the same gaps from a ledger in whatever order its events are listed, when no two differ with equal time, gap, state and detail |
| LedgerScope.UnnamedEventsAreIgnored | src/miry/pipeline/l2.py:575-593 | an event about other symbols or other streams changes neither a run nor what quality takes for invalid |
| LedgerScope.NamedOpeningEndsValidTime | src/miry/pipeline/l2.py:364-394 | an OPEN that names the symbol, or none, and has no CLOSED leaves no later nanosecond of the day in a written row |
| LedgerScope.NamedOpeningIsInvalid | src/miry/pipeline/quality.py:204-217 | and makes each of them invalid for quality |
| Ledger.ZeroOpeningIsMisplaced | src/miry/pipeline/quality.py:196-200 | an OPEN with a zero affected_from changes places between the two orders with exactly the events between zero and its observation |
| DayWitnesses.ZeroOpeningIsUnaccounted | src/miry/pipeline/quality.py:196-217 | on the day of its ledger, started from a VALID checkpoint, every nanosecond before the observation is in neither the written rows nor the extended invalid intervals |
| Quality.UnionDuration | src/miry/pipeline/quality.py:220-241 | the sweep counts exactly the nanoseconds of the clipped union, for any list of intervals |
| Quality.IntersectionDuration | src/miry/pipeline/quality.py:262-279 | exactly the nanoseconds common to both lists |
| Quality.ExplicitInvalidIntervals | src/miry/pipeline/quality.py:176-217 | the invalid intervals of a symbol's gap events, clipped to the window |
| Quality.ExtendInvalidUntilValid | src/miry/pipeline/quality.py:244-259 | the loop over the intervals computes the extension |
| Quality.ExtensionIsExact | src/miry/pipeline/quality.py:244-259 | with any valid row, a nanosecond of the window is in the extended intervals if and only if it is invalid, or some invalid interval ends at or before it and none is valid from that end through it |
| Quality.ExtensionAddsNoConflict | src/miry/pipeline/quality.py:244-259 | the extension adds no conflict and removes no invalid nanosecond |
| Quality.ValidateValidity | src/miry/pipeline/quality.py:148-173 | validity rows are accepted exactly when non-empty, in the day and in order without overlap |
| Quality.AssessSymbol | src/miry/pipeline/quality.py:78-115 | accounted time is valid plus invalid minus conflicting, where invalid time reaches to the next valid time, and a symbol passes exactly when valid and invalid partition the window and 999 per mille are valid |
| Finalize.FinalizeDay | src/miry/pipeline/quality.py:15-145 | a day is processed exactly when the universe is the sealed one, the window is in the day and every symbol is readable and passes, its gaps counted up to the next valid time; the missing and the rejected symbols are exactly the named ones |
| Finalize.NamedInOrder | src/miry/pipeline/quality.py:56-115 | the symbols named are exactly those without outputs, or those that fail, in the order of the symbols |
| GapRollover.GapJournal.OpenNew | src/miry/collector/gaps.py:67-96 | a new gap is published, unless its day is sealed, and remembered |
| GapRollover.GapJournal.RollStateTo | src/miry/collector/gaps.py:150-180 | the day loop: CLOSED before each midnight unless that day is sealed, OPEN at it, state file, and the refusal that ends it |
| GapRollover.GapJournal.Close | src/miry/collector/gaps.py:98-126 | rolled to the closing day first, then CLOSED and forgotten |
| GapRollover.GapJournal.Rollover | src/miry/collector/gaps.py:134-141 | every open gap in turn, up to the first refusal |
| GapRollover.RolloverIsExact | src/miry/collector/gaps.py:134-141 | a rollover succeeds exactly when every open gap is carried past the day; a refusal leaves the gaps behind it as they were |
| GapRollover.RollSplits | src/miry/collector/gaps.py:150-180 | a roll in two steps is the roll in one |
| GapRollover.RolloverBeforeCloseIsInvisible | src/miry/collector/gaps.py:98-141 | rolling over at midnights or only when the gap closes leaves the same journal |
| GapRollover.RepeatedRollAddsNothing | src/miry/collector/gaps.py:150-180 | a roll that dies after any atomic step, run again, ends where the uninterrupted roll does |
| GapRuns.EveryRunIsInOrder | src/miry/collector/gaps.py:67-180 | in every run with seals, refusals and crashes while announcing, rolling or closing, each gap is an opening in each of its days, cuts, and closings published for it, the last of which stays once its state file is gone; one announced without its state file is one opening |
| GapTiling.SameScopeEverywhere | src/miry/collector/gaps.py:160-177 | in every run an event that a roll adds has the id, symbols, streams and reason of its gap, and the detail that tells it apart |
| GapTiling.GapTiles | src/miry/collector/gaps.py:150-180 | the intervals that quality derives day by day tile exactly [start, closing) if and only if that closing comes after the gap's start and the last midnight it was carried over, and none observed earlier follows the opening of its day |
| GapTiling.LedgersTileTheGaps | src/miry/pipeline/quality.py:204-217 | after any run that leaves no gap open and in which each gap's first closing comes so, a symbol's invalid nanoseconds of any day are exactly those inside some gap that concerns it |
| GapTiling.FirstClosingCounts | src/miry/collector/gaps.py:98-126 | of several closings, in the order they are observed, the first ends the gap for good if and only if it comes after all openings |
| GapTiling.OneClosingEndsAll | src/miry/collector/gaps.py:98-126 | a gap ended without a crash in between has one closing, so the same holds of it |
| GapTiling.ClosingTwiceLeavesAHole | src/miry/collector/gaps.py:111-126 | a closing behind the opening of its day, of a gap carried on past that day, leaves the time to midnight not invalid and the next day invalid from its start |
| GapTiling.ClosingTwiceHappens | src/miry/collector/gaps.py:111-126 | a run with such a closing, its state file left by a crash and the gap closed again the next day |
| GapTiling.ForgottenEndsAtMidnight | src/miry/collector/gaps.py:90-95 | a gap that a crash left without a state file is invalid time to the end of its day and no further |
| GapTiling.ForgottenHappens | src/miry/collector/gaps.py:90-95 | a run that gets there |
| GapTiling.GapsAreIndependent | src/miry/pipeline/quality.py:204-213 | a nanosecond is invalid exactly when some one gap's events make it so |
| GapTiling.ClosingAtMidnightFloodsTheDay | src/miry/pipeline/l2.py:589-593 | a gap that closes exactly at a midnight makes the whole new day invalid |
| GapTiling.ClosingAtMidnightHappens | src/miry/collector/gaps.py:98-126 | a run that gets there |
| Spool.ScanReady | src/miry/collector/spool.py:455-510 | the walk over ready manifests finds exactly the well placed, unrivalled ones, in any order |
| Spool.StepKeepsTarget | src/miry/collector/spool.py:238-301 | no atomic step of applying ACKs changes where the run ends |
| Spool.CrashKeepsTarget | src/miry/collector/spool.py:197-301 | nor does any number of them, wherever a crash stops the run |
| SpoolRun.EdgeSpool.ApplyAcks | src/miry/collector/spool.py:95-378 | the run settles every accepted or recorded chunk and judges each ACK as the state at the start demands |
| SpoolRun.EdgeSpool.Judge | src/miry/collector/spool.py:109-229 | the branches of one ACK: invalid, unknown, replayed, mismatched, conflicting or accepted |
| AckVerdicts.AcksAreNeverRefused | src/miry/collector/spool.py:109-229 | in every run of the protocol an ACK is taken exactly while a ready manifest names its chunk, else a replay exactly while a retired one does, else unknown and its day sealed; none is ever invalid or of a wrong hash |
| AckVerdicts.TakenExactly | src/miry/collector/spool.py:109-229 | on any spool whatever an ACK is invalid exactly when it does not name its chunk, and taken exactly when it confirms the hash of the one well placed ready manifest of its chunk |
| SpoolRun.EdgeSpool.ApplyTransaction | src/miry/collector/spool.py:238-301 | one transaction: quarantined, or its manifest moved or removed and then its data |
| SpoolRun.RerunReachesTheSameState | src/miry/collector/spool.py:197-378 | a run after a crash reaches the state an uninterrupted run reaches |
| DayIndex.ReadRefs | src/miry/collector/day_index.py:115-136 | the inventory read from journal, ready and acked manifests, empty without a journal |
| DayIndex.IndexAllFacts | src/miry/collector/day_index.py:119-136 | every ref is listed under its identity, and nothing else is |
| TwoSites.EveryRunIsSafe | src/miry/collector/spool.py:197-301 | the protocol invariant over all runs of writer, ACK application, seal, mirror and ingest with crashes anywhere |
| TwoSites.NoChunkIsLost | src/miry/collector/spool.py:298-301 | every published chunk has its data at the edge or a copy with its hash and size in the central store |
| TwoSites.SealsAndStoreAreFinal | src/miry/collector/day_index.py:80-94 | sealing again changes no seal, and no step changes the data and manifests that the central store holds |
| TwoSites.SafeIsCoherent | src/miry/collector/spool.py:95-301 | in every safe world the spool meets what the proof of the ACK run asks of it, so that run may start anywhere |
| TwoSites.RunStepsAreProtocolSteps | src/miry/collector/spool.py:197-301 | each step of applying ACKs is a step of the protocol |
| TwoSites.InterruptedRunIsSafe | src/miry/collector/spool.py:95-378 | a run of applying ACKs over a safe world, stopped after any of its steps, leaves a safe world |
| SealRuns.SealListsWhatItCameAcross | src/miry/collector/day_index.py:80-94 | a seal lists a chunk if and only if the day had a journal file and the chunk was in it when the seal began, in the ready tree at its listing, or in the acked tree at its listing |
| SealRuns.SealIsCompleteExactly | src/miry/collector/day_index.py:115-136 | of the chunks whose manifest is written when SEALED.json is, a seal lists all if and only if there are none, or the day had a journal and each was come across; those written by the ready listing are |
| SealRuns.SealListsEachChunkOnce | src/miry/collector/day_index.py:119-136 | it lists only chunks of the day, each once |
| SealRuns.UnjournaledSealIsEmpty | src/miry/collector/day_index.py:115-118 | a seal of any day without a journal file is empty |
| SealRuns.SealReadsTheIndex | src/miry/collector/day_index.py:115-136 | the three reads of a seal give the day index's inventory: acked manifests over ready ones over journal lines |
| SealRuns.ChunkLostFromSeal | src/miry/collector/day_index.py:115-118 | a run whose seal loses a written chunk so |
| SealRuns.LateManifestIsNotListed | src/miry/collector/writer.py:294-297 | a new manifest written between a seal's listing of the ready tree and SEALED.json is not listed |
| SealRuns.LateManifestHappens | src/miry/collector/writer.py:294-297 | such a run, of a day with a journal |
| SealRuns.PublishedDayIsComplete | src/miry/pipeline/pull.py:505-526 | a day published centrally has every chunk that its journaled seal came across, with its hash and size, and so every chunk written by the ready listing |
| Ingest.CentralStore.IngestChunk | src/miry/pipeline/pull.py:462-503 | a chunk is acknowledged exactly when no fault stops it, and then verified content and its own manifest are in place; nothing is replaced |
| Ingest.FaultIsExact | src/miry/pipeline/pull.py:462-503 | which fault a chunk meets: missing, mismatched or in conflict, by the bytes in place or else staged |
| Ingest.FirstUnheldDecides | src/miry/pipeline/pull.py:505-526 | the first chunk that is not held decides a day's verdict, a wrong hash only if it is there in its size |
| Ingest.CentralStore.Place | src/miry/pipeline/pull.py:120-144 | a staged file is promoted or copied only with the right size and hash |
| Ingest.CentralStore.PublishCompleteDay | src/miry/pipeline/pull.py:505-526 | a day manifest is kept once, and exactly when every listed chunk is present with size and hash |
| Ingest.IngestIsProtocol | src/miry/pipeline/pull.py:462-503 | whatever ingesting a chunk does, with any fault, is a sequence of the protocol's steps |
| Ingest.IngestIsSafe | src/miry/pipeline/pull.py:462-503 | so ingesting a chunk, with any fault, leaves a safe world |
| Ingest.PublishIsProtocol | src/miry/pipeline/pull.py:505-526 | over a listing of the seal, a day is published exactly when the protocol's step can be taken |
| Ingest.RewrittenChunkIsRefused | src/miry/pipeline/pull.py:490-492 | ingesting a chunk under another manifest than the one the central store keeps is refused in every continuation |
| Rewrites.RewrittenChunkLeavesExactly | src/miry/collector/spool.py:109-229 | a chunk ready under another manifest than the kept one can leave the edge, the kept one not written again, if and only if an ACK of it is in reach; otherwise its data and a ready manifest stay in every such continuation |
| Rewrites.RewrittenChunkCanLeave | src/miry/collector/gaps.py:182-211 | a run that writes a chunk's manifest again while its ACK is staged, and its continuation that takes the chunk off the edge |
| Rewrites.RewrittenChunkCanStay | src/miry/collector/gaps.py:182-211 | a run that writes it again after its ACK was applied, all whose continuations without the kept manifest keep it |
| Dedup.Deduplicator.Observe | src/miry/pipeline/normalize.py:511-531 | one event on buckets, heaps and both maps: verdict and new state |
| Dedup.Deduplicator.Prune | src/miry/pipeline/normalize.py:557-574 | everything a whole bucket below the cutoff expires, and only that |
| Dedup.ExpireThrough | src/miry/pipeline/normalize.py:563-574 | popping due buckets from the heap expires exactly the sightings of those buckets |
| Dedup.Deduplicator.Load | src/miry/pipeline/normalize.py:494-509 | the state restored from checkpoint entries |
| Dedup.Deduplicator.Checkpoint | src/miry/pipeline/normalize.py:533-555 | the live sightings, the newer one per key |
| Dedup.RememberConsistent | src/miry/pipeline/normalize.py:576-592 | scheduling keeps the heap equal to the bucket keys, without repeats, and every sighting scheduled |
| DedupDays.ObserveRefinesPlain | src/miry/pipeline/normalize.py:511-531 | one event in any order gives the verdict of a plain last-seen map with a 600 s window below the watermark |
| DedupDays.PruneKeepsLive | src/miry/pipeline/normalize.py:557-574 | pruning drops no sighting that is live at the cutoff |
| DedupDays.CheckpointIsTheLiveMap | src/miry/pipeline/normalize.py:533-555 | the checkpoint holds exactly the plain map's sightings inside the window before day end |
| DedupDays.LoadMirrors | src/miry/pipeline/normalize.py:494-509 | loading any listing of it mirrors the uncut map |
| DedupDays.EveryRunIsThePlainMap | src/miry/pipeline/normalize.py:481-592 | any number of days cut at midnights gives the verdicts, up to the first conflict, of one plain map over all of them |
| Lanes.PartitionDownloads | src/miry/pipeline/pull.py:400-412 | the lanes of the greedy assignment, longest file first |
| LongestFirst.EachDownloadInOneLane | src/miry/pipeline/pull.py:400-412 | each download is in exactly one lane, once |
| LongestFirst.ListingIsForgotten | src/miry/pipeline/pull.py:400-407 | the lanes do not depend on the order in which the downloads are listed |
| LaneBounds.GreedyBound | src/miry/pipeline/pull.py:408-411 | m times any lane is at most the total plus (m - 1) times the largest file |
| LaneBounds.GreedyIsTwiceOptimal | src/miry/pipeline/pull.py:408-411 | hence within (2 - 1/m) of what any assignment needs |
| LongestFirst.DownloadsAreNearOptimal | src/miry/pipeline/pull.py:400-412 | Graham's bound: 3m times any lane is at most (4m - 1) times what any assignment needs |
| Sharder.FindBestSwap | src/miry/collector/sharding.py:112-141 | the nested search finds the first swap with the least spread, and nothing exactly when no swap lowers it |
| Sharder.ImprovingKeeps | src/miry/collector/sharding.py:100-151 | any number of swaps keeps the partition and the shard sizes, and the spread falls with each |
| Sharder.SwapKeepsLoads | src/miry/collector/sharding.py:117-131 | the loads that the search predicts are the rate sums of the swapped shards |
| ShardRun.TrafficSharder.ImproveBalance | src/miry/collector/sharding.py:100-151 | it ends, within the swap limit, where no swap lowers the spread |
| ShardRun.TrafficSharder.Shards | src/miry/collector/sharding.py:16-50 | a partition of the instruments; surviving symbols keep their shard; a first assignment is locally optimal; no shard that took a new symbol exceeds ceil(symbols / shards) + 1; on later calls with non-negative rates each shard that took new symbols has one without which it carries at most what any shard with room does |
| ShardRun.TrafficSharder.Roomiest | src/miry/collector/sharding.py:38-41 | there is always a shard with room, and the first least loaded of them is chosen |
| ShardRun.TrafficSharder.Rebalance | src/miry/collector/sharding.py:52-82 | refused exactly when the live shards are no partition; otherwise the swap that lowers the spread most is made exactly when the busiest shard carries over 5/4 of the mean and some swap helps |
| ShardRun.UnbalancedExactly | src/miry/collector/sharding.py:67-73 | that is: some shard's rate sum is more than 5/4 of the mean of them all |
| ShardRun.SizesAddUp | src/miry/collector/sharding.py:28-45 | the shards of a partition hold as many symbols as are assigned |
| HandOver.SharedSymbolsStayCovered | src/miry/collector/sources.py:349-410 | whatever completes or fails in whatever order, a symbol of the old and the new assignment of any part of the routes, such as the public ones, that its routes there hold is on some route of that part at every step |
| HandOver.HeldSymbolsStay | src/miry/collector/sources.py:144-162 | also for plans that do not start from what their routes hold, a symbol of a plan's old and new assignment that its route holds stays on it |
| HandOver.ChangedRoutesReachTarget | src/miry/collector/sources.py:349-410 | a call without failures ends with a route at its target if and only if its plan changes something or it was there |
| HandOver.StalePlanLeavesSymbolOut | src/miry/collector/sources.py:144-162 | two updates after which the market route lacks a symbol of the committed and the wanted instruments |
| HandOver.RemovalWaitsForExpansion | src/miry/collector/sources.py:364-397 | in any part of the routes, while expanding or rolling back every route keeps a symbol of its old assignment, and removal starts only when every route that shall hold it does |
| HandOver.EveryCallIsExact | src/miry/collector/sources.py:349-410 | at every point of every call a route holds its old, its joint or its new symbols, which of them depending on the updates completed so far |
| HandOver.FailedCallsEndExactly | src/miry/collector/sources.py:364-410 | a failed expansion leaves each route as it was, or joint if and only if it was expanded and its own rollback failed; a failed removal leaves each at its target, or joint if its own removal failed |
| HandOver.DoneSaysWhetherChanged | src/miry/collector/sources.py:358-410 | a call that is done answers that it changed something if and only if some plan does |
| HandOver.RollbackRestores | src/miry/collector/sources.py:371-380 | a call whose expansion failed and whose rollbacks all succeeded ends with every route as it was |
| HandOver.ReconcileRestores | src/miry/collector/sources.py:178-182 | a reconcile without failures ends at the committed assignment |
| HandOver.RebalancingNeverUncovers | src/miry/collector/sources.py:165-193 | through any number of failed or unfinished attempts no symbol of the assignment of any part of the routes is without a route of that part |
| Universe.ReconcileBucket | src/miry/universe/evidence.py:384-424 | the chosen members, five and distinct; who stays, comes and goes; swaps end only at the limit, with the five preferred all in, or with nobody left who may go; the first error exactly when too few are available, the second never |
| Universe.LastRemovable | src/miry/universe/evidence.py:406-414 | the last member outside the five preferred whose dwell time is over, and none exactly when there is none |
| Universe.BetterAreIn | src/miry/universe/evidence.py:398-402 | vacancies are filled in order of preference |
| Universe.StayingKeepsOrder | src/miry/universe/evidence.py:395-396 | those who stay keep their order, which decides who is last |
| Selection.ReplaceInactive | src/miry/universe/selection.py:231-237 | inactive core members are replaced in place by the best of the pool, everyone else stays; it fails only without enough candidates |
| Selection.PromoteCore | src/miry/universe/selection.py:239-265 | promotions respect entry rank, retain rank, dwell and the weekly limit, and each lowers the rank sum; the best candidates come for the worst who may go, and they stop only at the limit, without candidates, or when the next improves on nobody |
| Selection.SelectCore | src/miry/universe/selection.py:231-265 | core changes are at most the larger of forced and weekly; at most as many newcomers as inactive members rank beyond the entry rank; promotions happen on a Monday that is not frozen, and then as many as should; the pool always suffices |
| Selection.SelectBoundary | src/miry/universe/selection.py:286-331 | the boundary rule, one change less than a day allows but one at least, none when frozen; no active member within the retain rank is lost |
| Selection.SelectProbe | src/miry/universe/selection.py:267-290 | the probe rule with at most one voluntary change, none when frozen, and as many as should |
| Selection.SelectRollingUniverse | src/miry/universe/selection.py:150-342 | never an error; the active universe is preserved, with the first reason, exactly when evidence or reserves are incomplete, nothing may change, or fewer than five candidates are left for probe or boundary, and never when the pools hold 60 and 55; a selected universe is the chosen one and obeys the rules of all three roles |
| Selection.SelectedIsSixtyActive | src/miry/universe/selection.py:332-342 | sixty distinct symbols, none inactive |
| Projection.BuildInputs | deploy/campus-107/build-l2-inputs.py:123-156 | each symbol's rows are exactly those of the full scan, in order; other symbols are ignored with exactly as many; an error exactly when an expected symbol has none |
| Projection.GroupingKeepsOrder | deploy/campus-107/build-l2-inputs.py:283-301 | sort, run-length encoding and slices give one group per symbol with all its rows in order |
| Projection.SortKeepsOnly | deploy/campus-107/build-l2-inputs.py:286-293 | the index sort keeps each symbol's rows in batch order |

## Left out

- Network code: WebSocket and REST clients, timeouts, liveness, polling, and the part of a route update that a failed
  update may already have sent.
- Parquet, JSON, gzip, pydantic validation and SHA-256: rows are sequences, digests are injective, a file write is atomic,
  and a torn journal line is not modelled.
- Decimal text: prices are reals and print canonically; quantities are text with a zero test.
- Names that are only compared (gap ids, chunk ids, symbols outside the book) are numbers, and each directory listing is
  read in one step.
- Data files with different suffixes that share a manifest path: a manifest belongs to one data path.
- Retention deletes and projection pruning, which would weaken the copy invariant on purpose.
- Counters, ledgers and status files of the transfer, and the chunk and byte limits of the writer.
- Percentiles, depth metrics and the market regime: ranked pools, dwell tests and the freeze decision are inputs.
- The message rate of a symbol without evidence (an upper median) is part of the rate function; the 1.25 trigger is the
  exact ratio 5/4.
- Clocks and fresh ids: times, gap ids and the order in which updates complete are arguments.
- Lockstep.TrackerAndBookAgree: stated up to the first buffered break with diffs behind it; `Divergence` shows that it
  fails right after.
- The symbols of a route plan are sets: a plan that only changes their order, which the source treats as a change, is none.
- EndToEnd.RowsNeverMeetGaps: the ledger holds one event per time, gap and state, and rows arrive in time order.
