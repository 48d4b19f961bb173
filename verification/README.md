# YSpot: the filename index, its searches, and three smaller cores

YSpot is a file launcher. A service keeps one in-memory index per volume that maps NTFS file reference numbers (FRNs) to
a parent, a name and flags, answers every keystroke from it, and keeps it current from the change journal. The index is
one logical map held as a dozen columns that are edited in place: a slot table with tombstones and a free list, two byte
arenas, a record table with a 64-byte block index, fixed-stride columns for initials and first bytes, bit slices of
character classes, n-gram presence sets and packed depths. A slip in any of them answers wrongly and silently. These
Dafny files model that index and prove that it never does.

## What is proved

**The index is one map** (`Journal`, `Table`, `Records`, `Columns`, `Presence`, `ClassBits`, `IndexState`,
`VolumeIndex`). `VolumeIndex.VolumeIndex` is a class with the source's fields. Its invariant `Valid` says that every
column agrees with the slot table: the FRN map is a bijection onto the live slots, dead slots are exactly the free list,
the folded arena is NUL-fenced with vacated records erased, the block index names the last record starting at or before
each block, lanes, head pairs and class bits are exactly those of the live names and zero elsewhere, presence sets cover
every live text, and name bytes plus folded bytes are live bytes plus dead bytes plus fences. Every create, delete,
rename and re-create keeps it, and every run of events refines `Journal.Run`, a four-field ledger over the abstract file
table.

**Searches are exact** (`Ranking`, `Scanning`, `Ordering`, `Selecting`, `HeadScan`, `ArenaScan`, `ArenaPass`,
`LaneScan`, `FuzzyTier`, `FuzzyScan`, `Reference`, `TieredSearch`). `Reference.ReferencePage` scores every accepted live
row by its best tier, sorts by score and then lower slot, and truncates. `VolumeIndex.Search` runs the source's passes,
with floor pruning, a heap of twice (three times for one-byte queries) the page, whole-pass skips, presence gates, poll
windows, the class prefilter and the fuzzy budget, and an uncancelled search returns exactly the reference page whenever
no candidate was let go; so in particular whenever no more live rows carry the query's character classes than the budget
holds. Past the budget it is the page of everything but the candidates let go, none of which is shallower than one kept.
A cancelled search still returns only matching, accepted rows, none scored above its best.

**And they answer the question** (`Relevance`, `Answering`, `Finding`). `Answering.IsAnswer` says what the hits are from
the file table alone, without tiers, heaps or passes: held files whose accepted name answers the query, each at its
worth, the worthier first, and anything left out is behind a full page. The worth is told by how the name answers (it is
the query, starts with it, has it at a word, among its initials, inside, or its characters in order), how deep the file
stands and whether it is hidden; `Search` ensures it. So at one key the name itself comes first
(`Answering.AnswerOrder`), a deeper or hidden file strictly later (`ShallowerFirst`), and every file is found by its own
name in any case (`Finding.FindByName`).

**Compaction changes nothing** (`Compaction`, `ArenaMove`, `Refill`, `Stability`). Every column is rewritten in place
with write cursors behind read cursors. The file table, hence every path, and the order of the survivors are unchanged,
the invariant holds again with no dead weight, and if depths were exact every reference page keeps its files and scores.
Two searches with a compaction between them give the same hits, within the fuzzy budget (`Runs.SearchAcrossCompaction`).

**Depths and their repair** (`Depth`, `Paths`, `Repair`, `Shifts`, `Verdict`, `Runs`). The memoized, cycle-guarded sweep
gives every live slot the depth the parent walk gives, clamped at 127, on any parent graph, settling each slot once. A
repair slice neither repairs nor spoils the slots already marked done, and draining the repair ends exact if and only if
the marked slots were exact. Events may come between the slices. A slot nothing outstanding will look at again is called
trusted: a marked one while a repair is armed, any one otherwise. `Verdict.EventVerdict` says, from the state before an
event, exactly when the event leaves every trusted depth right, and `VolumeIndex.Apply` carries it: the event arms the
repair anew; or the slot it fills is untrusted or starts at its true depth, and no other trusted file hangs below the
event's FRN so that its depth changes. `Runs.RepairUnderEvents` composes it over any schedule of events and slices.
Ordinary events meet the condition (`Placing`): a file nothing hangs below, placed under a parent whose cached depth is
right, is ranked at its depth in the new table, and a volume entered parents first is exact without any sweep.

The code does not always meet that condition, so a repair that runs to its end can leave a depth wrong. Two runs show
it, each from an empty index through events and slices over more than 65536 slots. In `Runs.OrphanStaysWrong` a
directory is deleted, the orphan below it swept, and the directory created again. In `Runs.RecycledStaysWrong` a swept
slot is freed and recycled under a directory whose own cached depth is stale.

**The generation protocol** (`Session`, `Replies`). Reader thread, search worker, one-slot mailbox and watermark are a
state machine whose steps are the atomic actions of the two threads. The invariant holds in every state of every
interleaving. In every run the reader answers exactly what it rejected and the worker only what was accepted, a query is
carried through if nothing comes after it and the watermark has not passed it, and a stale one is dropped at the next
check (`Replies`).

**The calculator** (`Calc`, `Operators`, `Printing`, `Calendar`). The precedence climber reads exactly the expression
trees that need no further parentheses, each in one way, and inverts a printer that adds no more parentheses than any
that reads back must; `Operators` says which machine operation each operator is, on what, and when there is no value.
The civil-calendar arithmetic is a bijection over all the integers that agrees with the day-after rule. A `<month>
<day>` date is promised to be the nearest valid one in the direction asked, this year or the one beside it. It is not
always: a leap day may be moved into a common year or refused in one although the year beside it has it, and dates go
wrong at the edge of the years 1 to 9999. `Calendar.ResolveKeepsPromise` gives the condition, both ways.

**Journal records and highlights** (`UsnRecords`, `Highlights`). The packed-record walk is total on any bytes, stays in
disjoint frames and reads back any list of encoded records. Range merging returns the one spaced list with the same
cover.

Where the code and its documentation differ, the code is followed. The header of `matching.rs` (lines 28-30) describes
trigram postings; candidates come from the class bit slices. `SearchWorker::drop` promises a watermark above every
generation; it is not above the last one (`Session.CancelKills`). The comment on `resweep_recycled` (index.rs:1724-1735)
says a rewind puts a reused slot back in the sweep's path; a slot already marked is not walked again
(`Runs.RecycledStaysWrong`). `date_math` promises the next such date, this year or next (calc.rs:606); a 29 February
moved by a year does not exist (`Calendar.LeapDayMissing`), and from 10 January 2023 that of 2024 is refused
(`Calendar.LeapDayRefused`). The note above `adjacent_records_cannot_hide_a_real_match` (matching.rs:1872-1879) says
that no resume point can skip a match; a match can be skipped behind one of its own name that overlaps it, which costs
it its word tier only if the query holds a separator (`Relevance.WordIsAnyWord`, `OverlapHidesWord`).

## Modelling choices

- Words of 64 bits are sets of bit positions; byte offsets, slots and FRNs are natural numbers, with the 32-bit limits on
  arenas and slots and the saturating generation arithmetic written out.
- Scores are reals. `Unicode` is a record of arbitrary answers: normalisation, lowercasing and case tests are never
  assumed to be anything in particular. Names are encoded to UTF-8 by `Utf8`, with its round trip proved.
- The heap is a best-first sequence whose last element is the binary heap's root, which is all the source observes of it.
- The cancellation flag is a function of time read at arbitrary moments: a search may stop early only if the flag is raised at
  some moment. Whether the soft deadline has passed is a nondeterministic choice.
- The class groups its fields in five records. Rows, record numbers and arena ends are ghost.
- Passes and sweeps take the columns they read as values and return the columns they write; the class assigns them.

## Model

| member | source | states |
|---|---|---|
| Journal.RunStaysBounded | crates/yspot-index/src/index.rs:1352-1391 | over any run, the slots ever opened are at least the files held and stay within 32 bits, and both arenas grow only and stay within 32-bit offsets |
| Journal.UnnamedFileStays | crates/yspot-index/src/index.rs:1791-1808 | a run leaves every file none of its events names exactly as it was |
| Journal.LastWord | crates/yspot-index/src/index.rs:1694-1788 | the last event naming a file decides it: deleted means gone, a create or rename the index takes leaves the parent and stored name given, a rename keeps the flags, and a refused event or a security change leaves the file as it was |
| Journal.UsableIs | crates/yspot-index/src/index.rs:1352-1391 | a name can be stored exactly if something of it and of its fold is left within 65535 bytes and no folded character is a control character |
| Journal.DroppedOnlyWhenFull | crates/yspot-index/src/index.rs:1352-1391 | a create of a storable name is dropped exactly if an arena would outgrow 32-bit offsets or a new slot 32-bit numbers |
| VolumeIndex.VolumeIndex.constructor | crates/yspot-index/src/index.rs:582-611 | a new index is empty and every column already agrees with it |
| VolumeIndex.VolumeIndex.Intern | crates/yspot-index/src/index.rs:1352-1391 | interning succeeds exactly when the name is usable and both arenas have room; a refusal changes nothing, a success stages the name and its fenced record and disturbs no table |
| VolumeIndex.VolumeIndex.UnregisterSlot | crates/yspot-index/src/index.rs:1609-1667 | tombstoning clears the slot's pieces in every column, erases its record and charges its bytes, and keeps every column's rule |
| VolumeIndex.VolumeIndex.RegisterSlot | crates/yspot-index/src/index.rs:1401-1548 | binding a free slot to a staged name adds exactly that file to the abstract table and keeps every column's rule |
| VolumeIndex.VolumeIndex.AddEntry | crates/yspot-index/src/index.rs:1694-1722 | a create, a recycled slot and an FRN reused in place all refine the ledger's create, refusals included; the file takes its own slot, else the last freed, else the next, starts one below its parent's cached depth, and rewinds an armed repair to it; a held directory that moves arms the repair anew |
| VolumeIndex.VolumeIndex.RemoveEntry | crates/yspot-index/src/index.rs:1754-1771 | a delete removes exactly that file, an unknown FRN nothing; the slot joins the free list and a directory's going arms the repair anew |
| VolumeIndex.VolumeIndex.RenameEntry | crates/yspot-index/src/index.rs:1773-1788 | a rename changes parent and name, keeps flags and slot, and changes nothing when refused; the depth starts afresh from the new parent's, a directory that moves arms the repair anew, and the repair is not rewound |
| VolumeIndex.VolumeIndex.ResweepRecycled | crates/yspot-index/src/index.rs:1724-1740 | if only the refilled slot breaks the rule that every live slot behind the cursor is marked, the rule holds again; the repair stays armed or not, and no mark changes |
| VolumeIndex.VolumeIndex.Apply | crates/yspot-index/src/index.rs:1791-1808 | one decoded event refines one ledger step and keeps the invariant; given every trusted depth right before it, every one is after it if and only if the event's condition on the state before holds |
| VolumeIndex.VolumeIndex.ApplyAll | crates/yspot-index/src/index.rs:1791-1808 | every run of events refines the ledger's run, all columns agreeing with it throughout |
| VolumeIndex.VolumeIndex.PathOf | crates/yspot-index/src/index.rs:1813-1845 | the path built from the columns is the path of the abstract table: a function of the files alone |
| VolumeIndex.VolumeIndex.Search | crates/yspot-index/src/index.rs:1990-1998 | cancelled only if the flag is raised; uncancelled with no candidate let go, so always within the fuzzy budget, exactly the answer told from the file table; past it, the page of all but the candidates let go; cancelled, only held files whose accepted name answers, at no more than their worth; nothing for an empty query or one with control characters |
| IndexState.InternOk | crates/yspot-index/src/index.rs:1352-1391 | appending a fenced record leaves every existing record and name where the tables say |
| IndexState.VacateOk | crates/yspot-index/src/index.rs:1609-1667 | the invariant after a tombstone, and the file table less that file |
| IndexState.FillOk | crates/yspot-index/src/index.rs:1401-1548 | the invariant after a fill, and the file table plus that file |
| Table.FreeCount | crates/yspot-index/src/index.rs:1754-1771 | live files and free slots together are the whole table |
| Records.SlotAt | crates/yspot-index/src/matching.rs:529-553 | for a byte of any record, the record's slot if it is some live slot's current one, else none |
| Records.LivenessTest | crates/yspot-index/src/matching.rs:529-553 | comparing the offset and the dead bit tells current records from superseded and tombstoned ones, both ways |
| Records.LiveByteInRec | crates/yspot-index/src/matching.rs:529-553 | every byte of a live record lies in that record and no other |
| Records.PushArenaRec | crates/yspot-index/src/index.rs:1571-1586 | appending keeps `owner[b]` the last record starting at or before block `b` |
| Presence.Note | crates/yspot-index/src/index.rs:738-748 | every byte, bigram and held trigram of the text is recorded, and nothing already recorded is lost |
| Presence.GateSound | crates/yspot-index/src/index.rs:684-704 | a recorded text that contains the query passes the gate |
| Presence.ArenaGate | crates/yspot-index/src/index.rs:684-704 | a negative arena gate means no live record contains the query |
| Presence.LanesGate | crates/yspot-index/src/index.rs:721-733 | a negative initials gate means no single live lane contains the query |
| Presence.ResizeTri | crates/yspot-index/src/index.rs:1308-1331 | the trigram set is held exactly from the size threshold on, and a set allocated and filled covers every text |
| ClassBits.Apply | crates/yspot-index/src/index.rs:1027-1042 | exactly the named classes' bits of that slot change |
| ClassBits.Grow | crates/yspot-index/src/index.rs:987-1004 | the in-place top-down restride keeps every slot's bits and leaves the new room clear |
| ClassBits.BsiAfterApply | crates/yspot-index/src/index.rs:1027-1042 | setting a filled slot's mask or clearing a vacated one's keeps the slices exact |
| ClassBits.SupersetSlots | crates/yspot-index/src/matching.rs:569-603 | the word sweep visits, in ascending order, exactly the slots with every class of the query |
| ClassBits.SweepIsExact | crates/yspot-index/src/matching.rs:569-603 | those are exactly the live slots whose name's classes include the query's |
| ClassBits.PrefilterSound | crates/yspot-index/src/index.rs:202-223 | a subsequence's classes are among the text's, so the prefilter misses no fuzzy match |
| ClassBits.OwnClasses | crates/yspot-index/src/index.rs:202-223 | each small letter, digit and separator has a class to itself |
| Names.FindSegments | crates/yspot-index/src/matching.rs:292-320 | the walk reports exactly the segment starts, in order |
| Names.SegmentStartsAre | crates/yspot-index/src/matching.rs:292-320 | a segment starts exactly at a character that is no dash, underscore, dot or space and stands first, behind one of those, or as an upper-case letter behind a lower-case one; reported in ascending order |
| Names.InitialsLane | crates/yspot-index/src/matching.rs:348-380 | the staged lane is the packed whole initials, padded |
| Names.PackIsLongest | crates/yspot-index/src/matching.rs:348-380 | the packed initials are the longest run of whole initials that fits, and one more would not |
| Utf8.RoundTrip | crates/yspot-index/src/index.rs:663-669 | decoding an encoded name gives the name back |
| Utf8.Layout | crates/yspot-index/src/index.rs:663-669 | each character has the bytes of the table in section 3 of RFC 3629, in the shortest form |
| Ranking.DeeperIsNoBetter | crates/yspot-index/src/index.rs:93-110 | a deeper key never carries the larger factor, hidden or not |
| Ranking.ScoreMonotone | crates/yspot-index/src/matching.rs:886-913 | at one key, a strictly better base is a strictly better score |
| Scanning.FindInWindow | crates/yspot-index/src/matching.rs:1090-1092 | a search confined to a window sees exactly the occurrences that end in it |
| Scanning.NoCrossing | crates/yspot-index/src/matching.rs:1076-1140 | no occurrence of a delimiter-free query crosses a fence |
| Scanning.RecordScan | crates/yspot-index/src/matching.rs:2505-2594 | the hits of the arena-wide non-overlapping scan inside a record give the tier of the record's own scan |
| Scanning.RecordTierExists | crates/yspot-index/src/matching.rs:2505-2594 | a record has a tier exactly when the query occurs in it |
| Ordering.DedupKeepsBest | crates/yspot-index/src/matching.rs:917-924 | deduplicating in slot order keeps each slot's best offer |
| Ordering.SameTop | crates/yspot-index/src/matching.rs:917-924 | two rankings agree on the first k rows when one holds those of the other and nothing better |
| Selecting.TopRowHeld | crates/yspot-index/src/matching.rs:783-828 | with at most m offers a slot, none of the best k rows is crowded out of a heap of m * k |
| Selecting.RowsDrained | crates/yspot-index/src/matching.rs:917-924 | every row of the front of the exhaustive ranking survives the drain |
| Selecting.RowsBounded | crates/yspot-index/src/matching.rs:917-924 | no drained row outranks the exhaustive ranking's row for its slot |
| Selecting.TopIsPage | crates/yspot-index/src/matching.rs:917-924 | sorting by slot, deduplicating, ranking and cutting gives such a page of any heap |
| Selecting.DrainIsTop | crates/yspot-index/src/matching.rs:917-924 | draining a heap that covers every best offer gives the front of the exhaustive ranking |
| Selecting.Selector.Offer | crates/yspot-index/src/matching.rs:886-913 | an accepted offer is held or crowded out by better, and nothing covered is ever uncovered |
| Selecting.Selector.RejectedIsCovered | crates/yspot-index/src/matching.rs:857-859 | an offer under a rejected bound is already crowded out |
| Selecting.Selector.Drain | crates/yspot-index/src/matching.rs:917-924 | the page holds only held offers, best first, one a slot and none beaten by a held offer of its slot, at most as many as asked; whatever slot it leaves out, the page is full of offers at least as good |
| HeadScan.HeadSplits | crates/yspot-index/src/matching.rs:1012-1024 | for one byte, a record's tier is what its first two bytes decide, else the scan that skips record starts |
| HeadScan.HeadPass | crates/yspot-index/src/matching.rs:935-962 | every row's exact or prefix tier is held or crowded out, at one offer a slot |
| LaneScan.StraddleSkips | crates/yspot-index/src/matching.rs:1184-1195 | resuming one byte past a straddling hit hides no lane's own occurrence |
| LaneScan.LanePass | crates/yspot-index/src/matching.rs:1163-1211 | every slot whose own lane contains the query is done; while the heap has room, exactly those slots are offered, once each |
| ArenaScan.HitOwner | crates/yspot-index/src/matching.rs:1107-1114 | an occurrence lies in one record, and in a live slot's text exactly if that record is current |
| ArenaPass.ScanWindow | crates/yspot-index/src/matching.rs:1090-1127 | a window's hits are the arena's own next hits, none skipped or repeated |
| ArenaPass.ScanArena | crates/yspot-index/src/matching.rs:1074-1140 | every live record's own tier is done after the chunked scan, at one offer a slot, for every needle length |
| FuzzyTier.EarliestEnd | crates/yspot-index/src/matching.rs:621-654 | the forward pass ends at the earliest possible place, exactly when the query is a subsequence |
| FuzzyTier.LatestStart | crates/yspot-index/src/matching.rs:621-654 | the backward pass always completes, at the latest start for that end |
| FuzzyTier.WindowUnique | crates/yspot-index/src/matching.rs:621-654 | there is only one such window |
| FuzzyTier.FuzzyDensity | crates/yspot-index/src/matching.rs:621-654 | some density exactly on subsequences, in (0, 1], over that window |
| FuzzyTier.TighterIsDenser | crates/yspot-index/src/matching.rs:621-654 | of two windows the tighter is strictly denser, and only an unbroken match has density 1 |
| FuzzyTier.FuzzyBase | crates/yspot-index/src/matching.rs:475-484 | a fuzzy offer's base lies above the tier's floor and within its bound |
| FuzzyTier.FuzzyCapCut | crates/yspot-index/src/matching.rs:107-122 | everything above the cut plus the quota at it is exactly min(survivors, cap) |
| FuzzyScan.DepthCeiling | crates/yspot-index/src/matching.rs:1251-1254 | past the ceiling no fuzzy offer can reach the page |
| FuzzyScan.SweepVisits | crates/yspot-index/src/matching.rs:1256-1278 | every row with a fuzzy match is among the candidates swept |
| FuzzyScan.CountByDepth | crates/yspot-index/src/matching.rs:1270-1278 | the histogram counts the admitted candidates at each depth, and the survivors are their sum |
| FuzzyScan.Drain | crates/yspot-index/src/matching.rs:1282-1323 | uncancelled, every candidate within the budget is verified whatever the heap does, and none past it is shallower |
| FuzzyScan.FuzzyPass | crates/yspot-index/src/matching.rs:1222-1324 | every row no earlier pass claimed has its fuzzy offer done or is one of the candidates let go, within the budget's accounts |
| TieredSearch.BestDone | crates/yspot-index/src/matching.rs:1010-1324 | after the stages every slot's best offer is held or crowded out, unless let go |
| TieredSearch.PageIsReference | crates/yspot-index/src/matching.rs:966-1343 | the drained page is the exhaustive page over all but the candidates let go |
| TieredSearch.SearchColumns | crates/yspot-index/src/matching.rs:966-1343 | the whole pruned search against the exhaustive ranking, and the hits against the page |
| Relevance.RecordTierIs | crates/yspot-index/src/matching.rs:486-505 | a record's tier: it is the query, starts with it, has it behind a dash, underscore, dot or space in the leftmost search, or has it inside |
| Relevance.WordIsAnyWord | crates/yspot-index/src/matching.rs:1107-1127 | for a query without separators any occurrence behind one counts |
| Relevance.OverlapHidesWord | crates/yspot-index/src/matching.rs:1107-1127 | with one it need not: an occurrence behind a hit that overlaps it is passed over |
| Relevance.SameFold | crates/yspot-index/src/index.rs:296-302 | queries whose normal forms lower-case alike, character by character, are one query |
| Relevance.LowerByCharacter | crates/yspot-index/src/index.rs:296-302 | folding lowercases the normal form character by character, in order, nothing added or lost |
| Relevance.FindsItsName | crates/yspot-index/src/index.rs:1352-1368 | a query that is a name up to case is that name's whole folded record, if that fits its field |
| Relevance.StoredInNormalForm | crates/yspot-index/src/index.rs:1352-1357 | a name is stored in its normal form, cut only past 65535 bytes and then after the last whole character that fits |
| Relevance.AnswersInitials | crates/yspot-index/src/matching.rs:348-380 | a name answers every run of its segments' first letters, lowercased, that lies within the first eight bytes of them all |
| Answering.TierIsMatch | crates/yspot-index/src/matching.rs:453-505 | the tier a row earns is the way its name answers, read off the name alone |
| Answering.OfferIsWorth | crates/yspot-index/src/matching.rs:453-484 | a row's best score is 1.0, 0.9, 0.8, 0.7, 0.55 or 0.3 and a fifth of the density, over 1 and a fiftieth of the depth, less 15 percent if hidden or system |
| Answering.PageIsAnswer | crates/yspot-index/src/matching.rs:966-1343 | the reference page holds wanted files only, each at its worth, the better first and none twice, and what it leaves out is behind a full page |
| Answering.AnswerOrder | crates/yspot-index/src/matching.rs:453-505 | at one key the name itself comes first, then names that start with the query, then those with it at a word, among the initials, inside, then the rest |
| Answering.ShallowerFirst | crates/yspot-index/src/index.rs:93-110 | of two files that answer as well the shallower comes first, and at one depth the one not hidden or system |
| Answering.TighterFirst | crates/yspot-index/src/matching.rs:605-654 | of two names with the query's characters only in order, the one with the tighter window comes first |
| Finding.WorthAtDepth | crates/yspot-index/src/index.rs:1860-1877 | with exact depths a file is worth what its depth in the file table makes it worth |
| Finding.FindByName | crates/yspot-index/src/index.rs:1990-1998 | searching a held name in any case finds its file on a page with room for all, before every file at its key that is not named so, unless stopped |
| Finding.SearchIgnoresCase | crates/yspot-index/src/index.rs:1990-1998 | two queries that differ in case alone get the same hits, unless stopped |
| Depth.DepthOf | crates/yspot-index/src/index.rs:1860-1877 | the walk counts the links followed, to the cap |
| Depth.RankDepthIsClampedDepth | crates/yspot-index/src/index.rs:1860-1877 | the depth a key can carry is that count clamped at 127 |
| Depth.DepthSweep | crates/yspot-index/src/index.rs:814-869 | every live slot in the range ends settled, each slot is pushed at most once, and settling on exact slots stays exact: chains, roots, orphans, cycles and tails into cycles |
| Paths.PathOf | crates/yspot-index/src/index.rs:1813-1845 | the collected spans written from the top are the abstract table's path |
| Paths.PathIs | crates/yspot-index/src/index.rs:1813-1845 | a file at the top of its chain has the root, one backslash and its name for a path; any other whose chain ends within the cap its parent's path, a backslash and its name; a file not held none |
| Paths.CutPath | crates/yspot-index/src/index.rs:1813-1845 | a chain that goes on past the cap is spelled from its nearest files, as many as the cap |
| Paths.StepsAreDepth | crates/yspot-index/src/index.rs:1860-1877 | the depth the columns count is a property of the abstract table alone |
| VolumeIndex.VolumeIndex.SweepAllDepths | crates/yspot-index/src/index.rs:791-800 | every live depth exact, no repair outstanding, files unchanged |
| VolumeIndex.VolumeIndex.Finalize | crates/yspot-index/src/index.rs:759-781 | after a bulk load depths are exact and the trigram set is held exactly from its threshold on |
| VolumeIndex.VolumeIndex.RepairDepthsSlice | crates/yspot-index/src/index.rs:906-934 | more work remains exactly if slots lie past the slice; a slice leaves the trusted depths right if and only if they were, and the last one leaves every depth exact if and only if the marked ones were |
| VolumeIndex.VolumeIndex.DrainRepair | crates/yspot-index/src/index.rs:906-934 | slices in a row end, push each slot at most once, and leave every depth exact if and only if every marked slot was |
| Repair.SliceOutcome | crates/yspot-index/src/index.rs:906-934 | the same for one sweep over marks carried in |
| Repair.ExactKeysAgree | crates/yspot-index/src/index.rs:791-800 | a drained exact repair and one full sweep leave the same bytes |
| Repair.RewindRestores | crates/yspot-index/src/index.rs:1736-1740 | rewinding to the one slot that breaks the cursor's rule restores the rule |
| Shifts.NewDepthIs | crates/yspot-index/src/index.rs:1860-1877 | given a parent, a file's depth is one more than the parent's was, zero under itself or a missing parent, and the clamp if the new chain comes back to it |
| Shifts.KeepsDepthIs | crates/yspot-index/src/index.rs:1742-1752 | another file keeps its depth when one is placed under a parent exactly if no link of its chain names the placed file, or the chain led through it already and the move cancels out or is past the clamp |
| Shifts.RemovalIs | crates/yspot-index/src/index.rs:1754-1771 | taking a file away moves exactly the depths of the files whose chain names it |
| Placing.DepthBelow | crates/yspot-index/src/index.rs:1860-1877 | zero at the top of a chain, else one more than the parent's, clamped at 127 |
| Verdict.PlacementVerdict | crates/yspot-index/src/index.rs:1694-1722 | filling a slot keeps the trusted depths right if and only if it arms the repair anew, or the slot is untrusted or starts at its true depth and no other trusted file moves |
| Verdict.RemovalVerdict | crates/yspot-index/src/index.rs:1754-1771 | a delete keeps them right if and only if it takes a directory or no trusted file hangs below it |
| Verdict.EventVerdict | crates/yspot-index/src/index.rs:1694-1808 | for every kind of event, taken or refused, the condition on the state before it under which the trusted depths right before it are right after it, both ways |
| Verdict.ArmedByDirectories | crates/yspot-index/src/index.rs:1742-1771 | the repair is armed only by the move or deletion of a held directory |
| Verdict.SlotTaken | crates/yspot-index/src/index.rs:1694-1722 | a created file takes the slot its FRN has, else the one freed last, else a new one at the end |
| Placing.PlaceOrdinary | crates/yspot-index/src/index.rs:1401-1440 | a create or rename of a file nothing hangs below, under itself, a missing parent or one whose cached depth is trusted, keeps every trusted depth right and ranks the file at its depth in the new table |
| Placing.CreateStaysExact | crates/yspot-index/src/index.rs:1694-1722 | with every depth exact and no repair outstanding, a new file no held file names as parent leaves every depth exact |
| Placing.ParentsFirstIsExact | crates/yspot-index/src/index.rs:1401-1440 | creates in any order that puts parents first leave every depth exact without any sweep |
| Placing.ExactFileByFile | crates/yspot-index/src/index.rs:791-800 | depths are exact exactly if every held file is ranked at its depth in the file table |
| Runs.KeptIsExact | crates/yspot-index/src/index.rs:906-934 | over any schedule of events and slices in which every event since the repair was last armed anew meets its condition, every trusted depth ends right |
| Runs.RepairUnderEvents | crates/yspot-index/src/index.rs:906-934 | any schedule carried out on the index goes through the states the ledger and the slices prescribe, and after a drain every depth is exact if and only if the trusted ones were when the schedule ended; so they are if the schedule met its conditions |
| Runs.DrainAfter | crates/yspot-index/src/index.rs:1736-1740 | one event under an armed repair and then a drain end with every depth exact if and only if the event met its condition |
| Runs.OrphanStaysWrong | crates/yspot-index/src/index.rs:1742-1771 | a run that deletes a directory, sweeps its orphan and creates the directory again ends with the repair finished and a depth wrong |
| Runs.RecycledStaysWrong | crates/yspot-index/src/index.rs:1724-1740 | a run that recycles a swept slot under a directory with a stale cached depth ends with the repair finished and a depth wrong |
| Compaction.PackMove | crates/yspot-index/src/index.rs:1099-1120 | the write cursor trails the read cursor, so moving one slot's piece spoils nothing still to be read |
| Compaction.PackColumns | crates/yspot-index/src/index.rs:1099-1120 | every fixed-stride column ends as the survivors' pieces, in order |
| ArenaMove.MoveRecord | crates/yspot-index/src/index.rs:1122-1175 | sliding one record keeps the moved prefix a well-formed arena, both write cursors behind, and everything ahead as it was |
| ArenaMove.MoveArenas | crates/yspot-index/src/index.rs:1122-1175 | after the pass the arenas are those of the survivors alone, with no dead bytes |
| Refill.RebuildOwner | crates/yspot-index/src/index.rs:1177-1201 | the separate rebuild loop gives the same block index rule as incremental appends |
| Refill.RefillRecords | crates/yspot-index/src/index.rs:1203-1260 | refilled class slices are exact and the arena sets cover every record |
| Refill.RefillLanes | crates/yspot-index/src/index.rs:1215-1231 | the refilled initials sets cover every lane |
| Refill.SameKeys | crates/yspot-index/src/index.rs:1262-1293 | exact keys are the same bytes before and after, slot for surviving slot |
| Refill.NothingToCompact | crates/yspot-index/src/index.rs:1335-1343 | no dead bytes, records or slots means nothing to compact |
| Refill.CompactionIsDue | crates/yspot-index/src/index.rs:1335-1343 | compaction is due exactly if more than a quarter of the bytes are dead, a quarter of the records superseded or an eighth of the slots vacant |
| VolumeIndex.VolumeIndex.Compact | crates/yspot-index/src/index.rs:1083-1293 | same files, same survivor order, invariant restored, depths exact, no dead weight, bytes accounted for, nothing left to compact; same keys if depths were exact |
| Stability.RankedRenamed | crates/yspot-index/src/index.rs:1083-1293 | ranking commutes with an order-keeping renumbering of slots |
| Stability.CompactionKeepsPages | crates/yspot-index/src/index.rs:1083-1293 | the reference page over the survivors names the same files at the same scores as over all the rows |
| Stability.CandidatesKept | crates/yspot-index/src/index.rs:1083-1293 | a compaction adds nothing for the fuzzy budget to count |
| Runs.SearchAcrossCompaction | crates/yspot-index/src/index.rs:1083-1293 | with exact depths and within the fuzzy budget, a search before and one after a compaction return the same hits, unless stopped |
| Session.StepKeepsInv | crates/yspot-indexd/src/session.rs:152-210 | every step of either thread keeps the invariant and never lowers the watermark |
| Session.RunKeepsInv | crates/yspot-indexd/src/session.rs:257-324 | in every reachable state: worker batches in strictly increasing generation order, none stale at its final check, no generation answered twice, and the query the watermark names never lost while the connection is open |
| Session.DeadStaysSilent | crates/yspot-indexd/src/session.rs:472-585 | once a generation is dead, nothing it or anything older would say is written in the rest of any run |
| Session.CancelKills | crates/yspot-indexd/src/session.rs:318-323 | a cancel leaves its generation behind if and only if it is not the last 64-bit one, and so does closing |
| Session.LastGenerationAnswers | crates/yspot-indexd/src/session.rs:318-323 | a run in which the last generation is cancelled and answered all the same |
| Session.WorkerWindsDown | crates/yspot-indexd/src/session.rs:166-210 | once the mailbox is closed the worker can always move and every move brings its exit nearer |
| Session.JoinedIsFinal | crates/yspot-indexd/src/session.rs:166-182 | after the join nothing moves and nothing more is written |
| Replies.AnswersFollowQueries | crates/yspot-indexd/src/session.rs:270-317 | in every run an inline batch answers a query the reader rejected and a worker's batch one it accepted, never the other way round |
| Replies.CarriedThrough | crates/yspot-indexd/src/session.rs:312-317 | from every reachable state, an accepted query the watermark has not passed, with nothing after it, is brought onto the wire by the worker alone, after at most what it had in hand |
| Replies.EveryGenerationCanBeAnswered | crates/yspot-indexd/src/session.rs:312-317 | from the start of a connection that is a run for every 64-bit generation |
| Replies.NeverAnswered | crates/yspot-indexd/src/session.rs:472-585 | a query read when the watermark has passed it is answered by the worker in no run |
| Replies.StaleIsDropped | crates/yspot-indexd/src/session.rs:198-210 | a stale generation is dropped, unwritten, at the worker's next check |
| Replies.RejectedIsAnsweredInline | crates/yspot-indexd/src/session.rs:276-310 | a rejected query gets its empty batch at once, the worker and the mailbox untouched |
| Replies.LeavingIsFinal | crates/yspot-indexd/src/session.rs:283-310 | after a failed inline send, or once leaving, the reader reads, answers and hands over nothing more |
| Calc.Parser.Expr | apps/shell/src-tauri/src/calc.rs:281-327 | the climber's value and resting place are those of the tree the grammar reads |
| Calc.Parser.Climb | apps/shell/src-tauri/src/calc.rs:299-325 | the operator loop against the grammar, failures included |
| Calc.Evaluate | apps/shell/src-tauri/src/calc.rs:588-596 | the finite value of the one tree that reads every token, else none |
| Calc.ReadsExactly | apps/shell/src-tauri/src/calc.rs:281-327 | a tree is read off the tokens if and only if they are its yield, it needs no further parentheses there and no operator goes on; so no two readings |
| Calc.PrintParses | apps/shell/src-tauri/src/calc.rs:281-327 | printing any tree and evaluating consumes every token and gives the tree's value |
| Calc.BarePrint | apps/shell/src-tauri/src/calc.rs:301-311 | the printer adds no parentheses exactly when the bare tokens already read as the tree |
| Printing.PrintIsShortest | apps/shell/src-tauri/src/calc.rs:281-327 | whatever parentheses are put into a tree, if the tokens read back as they stand they are at least as many as the printer's |
| Printing.GuardExtends | apps/shell/src-tauri/src/calc.rs:281-327 | the printer's own tree is one of those: the given one with parentheses put in |
| Calc.Grouping | apps/shell/src-tauri/src/calc.rs:255-268 | two operators group by tightness, to the left on a tie, except that powers group to the right |
| Calc.PrefixGrouping | apps/shell/src-tauri/src/calc.rs:281-288 | a prefix operator takes a power and nothing looser |
| Calc.PercentGrouping | apps/shell/src-tauri/src/calc.rs:299-311 | a percent sign takes a power and otherwise only the operand before it |
| Calc.PercentOfLeft | apps/shell/src-tauri/src/calc.rs:342-357 | without rounding, plus and minus a percentage scale the left operand, times one multiplies by the fraction |
| Calc.TwoNumbers | apps/shell/src-tauri/src/calc.rs:342-357 | without rounding, two numbers and an operator are the sum, difference, product or quotient |
| Operators.PrefixAnswers | apps/shell/src-tauri/src/calc.rs:281-288 | minus is the machine's negation of the value behind it, plus the value, tilde the machine's flip of a whole one; no value behind, none in front |
| Operators.PrefixValue | apps/shell/src-tauri/src/calc.rs:281-288 | without rounding minus negates, plus keeps, and tilde takes a whole number below 2^53 from -1 and has no value for any other |
| Operators.PrefixTwice | apps/shell/src-tauri/src/calc.rs:281-288 | two minuses cancel; so do two tildes on whole numbers, except at the largest |
| Operators.InfixAnswers | apps/shell/src-tauri/src/calc.rs:342-357 | each infix operator is its machine operation on the left value and then the right; the bitwise five take whole numbers only and may have no value; plus and minus take an operand written as a percentage of the left |
| Operators.PercentageIsWritten | apps/shell/src-tauri/src/calc.rs:299-325 | an operand counts as a percentage exactly if written as one, in any parentheses |
| Operators.PercentAnswers | apps/shell/src-tauri/src/calc.rs:299-311 | a percent sign divides by a hundred |
| Calendar.DaysOfCivil | apps/shell/src-tauri/src/calc.rs:684-706 | every integer is the day number of the date it converts to |
| Calendar.CivilOfDays | apps/shell/src-tauri/src/calc.rs:684-706 | every real date comes back from its day number |
| Calendar.CivilFromDays | apps/shell/src-tauri/src/calc.rs:695-706 | always a real date: the month and the day in range |
| Calendar.DaysIncrease | apps/shell/src-tauri/src/calc.rs:684-692 | day numbers increase strictly with date order |
| Calendar.NextDayIsNext | apps/shell/src-tauri/src/calc.rs:668-692 | the calendar's next day has the next number, and 1970-01-01 has number 0 |
| Calendar.ResolveAccepts | apps/shell/src-tauri/src/calc.rs:645-666 | a month and day is answered if and only if this year has it, and the answer is a valid date if and only if it did not move a leap day or leave the years 1 to 9999 |
| Calendar.PromisedIsNearest | apps/shell/src-tauri/src/calc.rs:605-624 | what is promised is the nearest of all the valid dates of that month and day in the direction asked, in this year or the one beside it, and nothing only if there is none |
| Calendar.ResolveKeepsPromise | apps/shell/src-tauri/src/calc.rs:645-666 | the promise is kept if and only if no leap day is moved or refused beside a leap year and no date leaves the years 1 to 9999 or is asked for just outside them |
| Calendar.LeapDayMissing | apps/shell/src-tauri/src/calc.rs:650-659 | from 2024-03-01 the next 29 February is answered 2025-02-29, which does not exist |
| Calendar.LeapDayRefused | apps/shell/src-tauri/src/calc.rs:645-649 | on 2023-01-10 the next 29 February is refused, though 2024-02-29 answers |
| Calendar.ResolveDirection | apps/shell/src-tauri/src/calc.rs:650-659 | the answer never lies against the direction asked |
| Calendar.ResolveNearest | apps/shell/src-tauri/src/calc.rs:626-659 | a valid answer is the nearest such date in that direction |
| UsnRecords.ForEachRecord | crates/yspot-index/src/mft.rs:369-392 | on any bytes the loop ends and reports the walk's records |
| UsnRecords.FieldsStandAt | crates/yspot-index/src/mft.rs:397-435 | where each field stands, as little-endian bytes, and exactly when a frame reports its record |
| UsnRecords.WalkStaysInFrames | crates/yspot-index/src/mft.rs:369-435 | frames are aligned, ordered, disjoint and inside the buffer, and the records are theirs |
| UsnRecords.ReportedInside | crates/yspot-index/src/mft.rs:397-435 | a record depends on no byte outside its frame |
| UsnRecords.CutIsPrefix | crates/yspot-index/src/mft.rs:369-392 | a buffer cut anywhere reports a prefix of the records |
| UsnRecords.WalkEncodedAll | crates/yspot-index/src/mft.rs:471-502 | any encoded records, each padded or not, are read back in order, whatever follows them |
| UsnRecords.ReadsBack | crates/yspot-index/src/mft.rs:471-502 | with nothing or a zero length after them, exactly that list |
| Highlights.MergeRanges | crates/yspot-index/src/matching.rs:431-441 | the same positions, in ascending ranges that neither overlap nor touch |
| Highlights.OneNormalForm | crates/yspot-index/src/matching.rs:431-441 | for non-empty ranges there is only one such list |

## Left out

- The fuzzy soft deadline (matching.rs:1304-1312): whether overtime ends is nondeterministic, so past the budget nothing is promised about how many extra candidates are verified.
- f32 and f64 rounding: scores are reals, and the calculator's arithmetic, remainder, power and bitwise operations included, is arbitrary except where a lemma asks for exact sums, products, quotients, negation and flips.
- The polls themselves: how soon a raised flag is seen, and the counters that space the polls out.
- Runs.RepairUnderEvents: one way only over a whole schedule, because a later event may put a spoiled depth right again by chance; each single event has the exact condition (Verdict.EventVerdict).
- The repair debounce clock (index.rs:899-901): the writer may run a slice whenever it likes.
- Aliasing among the columns while one is rewritten: passes take and return values, and the class assigns the results.
- Flag bits other than directory, hidden, system and dead.
- UTF-8 validity of the arenas as strings, and the unsafe writes that rely on it.
- Capacity and growth policy, memory accounting and the memory-pressure form of the compaction test.
- VolumeIndex.VolumeIndex.Search: the hits carry FRN and score; their highlight ranges and UTF-16 offsets are not modelled, except the merge of overlapping ranges.
- TieredSearch.SearchColumns: leaves out the same highlight ranges.
- The two probes and the debug counters.
- The size limits by which the reader rejects a query (session.rs:270-310): whether it does is part of the step.
- Session's inline fallback when the worker thread cannot be spawned, the handshake, status, pause and subscription messages, and the filters a search applies to names and paths.
- Order between inline empty replies and worker replies: check and send are separate steps.
- The calculator's tokenizer, unit tables, number formatting and date words; 64-bit overflow of years and day numbers.
- Lossy UTF-16 decoding of record names: names are compared as 16-bit units. Record names over 32767 units do not fit the length field and are not encoded.
- Volume enumeration, journal reading, pipes, the shell and its front end.
