/** The whole state of an index as a value: its invariant, its abstract contents, and what each mutation step
    does to it. */
module IndexState {
  import opened Bytes
  import opened Utf8
  import opened Names
  import opened Ranking
  import opened Table
  import opened Records
  import opened Columns
  import opened Presence
  import opened ClassBits
  import opened Depth
  import opened Journal

  /** Offsets and lengths of a freshly interned name. */
  datatype Interned = Interned(nameOff: nat, nameLen: nat, foldedOff: nat, foldedLen: nat)

  /** Every column of the index. `rows`, `recOf` and the two ends are specification state: what each slot stands for,
      each live slot's record, and how far the record tables describe the arenas. */
  datatype State = State(
    entries: seq<Entry>, nameArena: seq<byte>, foldedArena: seq<byte>,
    frnMap: map<nat, nat>, liveCount: nat, freeSlots: seq<nat>, deadBytes: nat,
    rankKey: seq<byte>, arenaRecs: seq<ArenaRec>, owner: seq<nat>,
    initials: seq<byte>, head: seq<byte>, bsi: seq<Word>, bsiWords: nat,
    arenaGrams: Grams, laneGrams: Grams,
    repairArmed: bool, repairCursor: nat, repairState: seq<Mark>,
    rows: seq<Row>, recOf: map<nat, nat>, arenaEnd: nat, namesEnd: nat)

  /** The specification part on its own. */
  datatype Spec = Spec(rows: seq<Row>, recOf: map<nat, nat>, arenaEnd: nat, namesEnd: nat)

  // ---- invariant -------------------------------------------------------------------

  predicate TableOk(uni: Unicode, st: State, pending: set<nat>) {
    && RowsOk(uni, st.rows)
    && EntriesOk(st.entries, st.rows, st.nameArena, st.namesEnd)
    && MapOk(st.rows, st.frnMap) && st.liveCount == |st.frnMap|
    && FreeOk(st.rows, st.freeSlots, pending)
    && |st.entries| <= U32_MAX
  }

  /** Fenced records in order, the block index over them, and every arena byte accounted for. */
  predicate ArenasOk(st: State) {
    && RecsOk(st.foldedArena, st.arenaEnd, st.arenaRecs)
    && LiveRecs(st.rows, st.entries, st.foldedArena, st.arenaEnd, st.arenaRecs, st.recOf)
    && OwnerOk(st.owner, st.arenaRecs, st.arenaEnd)
    && NamesAscend(st.entries, st.recOf)
    && st.namesEnd <= |st.nameArena| <= U32_MAX && st.arenaEnd <= |st.foldedArena| <= U32_MAX
    && st.namesEnd + st.arenaEnd == LiveBytes(st.rows) + st.deadBytes + Fences(st.arenaRecs)
  }

  predicate ColumnsOk(uni: Unicode, st: State) {
    && RankOk(st.rows, st.rankKey)
    && LanesOk(uni, st.rows, st.initials)
    && HeadOk(st.rows, st.head)
    && BsiOk(st.rows, st.bsi, st.bsiWords)
    && ArenaNoted(st.rows, st.arenaGrams)
    && LanesNoted(uni, st.rows, st.laneGrams)
  }

  predicate MarksOk(marks: seq<Mark>) {
    forall s :: 0 <= s < |marks| ==> !marks[s].OnStack?
  }

  /** Sweep marks never outrun the table and are never left on the stack. */
  predicate RepairOk(st: State) {
    |st.repairState| <= |st.entries| && st.repairCursor <= |st.entries| && MarksOk(st.repairState)
  }

  predicate StateOk(uni: Unicode, st: State, pending: set<nat>) {
    TableOk(uni, st, pending) && ArenasOk(st) && ColumnsOk(uni, st) && RepairOk(st)
  }

  /** The state between public calls: no slot in mid-update and nothing staged. */
  predicate AtRest(uni: Unicode, st: State): (ok: bool)
    ensures ok ==> MapOk(st.rows, st.frnMap)
  {
    StateOk(uni, st, {}) && st.arenaEnd == |st.foldedArena| && st.namesEnd == |st.nameArena|
  }

  /** The abstract file table. */
  function Contents(st: State): map<nat, File>
    requires MapOk(st.rows, st.frnMap)
  {
    Files(st.rows, st.frnMap)
  }

  /** Delimiters laid down for a record table: one per record and the opening fence. */
  function Fences(recs: seq<ArenaRec>): nat {
    if recs == [] then 0 else |recs| + 1
  }

  function Empty(): State {
    State([], [], [], map[], 0, [], 0, [], [], [], [], [], [], 0, Grams({}, {}, Some({})), Grams({}, {}, None),
          false, 0, [], [], map[], 0, 0)
  }

  lemma EmptyAtRest(uni: Unicode)
    ensures AtRest(uni, Empty()) && Contents(Empty()) == map[]
  {
    EmptyTableOk(uni);
    EmptyArenasOk();
    EmptyColumnsOk(uni);
    hide TableOk, ArenasOk, ColumnsOk;
  }

  lemma EmptyTableOk(uni: Unicode)
    ensures TableOk(uni, Empty(), {}) && Contents(Empty()) == map[]
  {
    hide RowsOk, EntriesOk, FreeOk;
    EmptyTable(uni);
  }

  lemma EmptyArenasOk()
    ensures ArenasOk(Empty())
  {
    hide RecsOk, LiveRecs, OwnerOk, NamesAscend;
    EmptyArenas([], [], [], [], map[], []);
  }

  lemma EmptyColumnsOk(uni: Unicode)
    ensures ColumnsOk(uni, Empty())
  {
    hide RankOk, LanesOk, HeadOk, BsiOk, ArenaNoted, LanesNoted;
    EmptyColumns(uni);
    EmptyGrams(uni, Grams({}, {}, Some({})));
    EmptyGrams(uni, Grams({}, {}, None));
  }

  /** An empty index satisfies every column's rule. */
  lemma EmptyTable(uni: Unicode)
    ensures RowsOk(uni, []) && EntriesOk([], [], [], 0) && MapOk([], map[]) && FreeOk([], [], {})
    ensures Files([], map[]) == map[] && LiveBytes([]) == 0 && Fences([]) == 0
  {
  }

  lemma EmptyArenas(rows: seq<Row>, entries: seq<Entry>, arena: seq<byte>, recs: seq<ArenaRec>, recOf: map<nat, nat>,
                    owner: seq<nat>)
    requires |rows| == |entries| == |arena| == |recs| == |owner| == 0 && recOf == map[]
    ensures RecsOk(arena, 0, recs) && LiveRecs(rows, entries, arena, 0, recs, recOf) && OwnerOk(owner, recs, 0)
    ensures NamesAscend(entries, recOf)
  {
    hide Holds, Settled;
  }

  lemma EmptyColumns(uni: Unicode)
    ensures RankOk([], []) && LanesOk(uni, [], []) && HeadOk([], []) && BsiOk([], [], 0)
  {
  }

  lemma EmptyGrams(uni: Unicode, g: Grams)
    ensures ArenaNoted([], g) && LanesNoted(uni, [], g)
  {
  }

  /** Appending to the arenas disturbs nothing the tables describe, and stages the new record. */
  lemma InternOk(entries: seq<Entry>, rows: seq<Row>, names: seq<byte>, nend: nat, arena: seq<byte>, end: nat,
                 recs: seq<ArenaRec>, recOf: map<nat, nat>, bytes: seq<byte>, folded: seq<byte>)
    requires EntriesOk(entries, rows, names, nend) && nend <= |names|
    requires RecsOk(arena, end, recs) && LiveRecs(rows, entries, arena, end, recs, recOf) && end == |arena|
    ensures var opening := if arena == [] then [DELIM] else [];
            var arena' := arena + opening + folded + [DELIM];
            && EntriesOk(entries, rows, names + bytes, nend)
            && RecsOk(arena', end, recs) && LiveRecs(rows, entries, arena', end, recs, recOf)
            && Staged(arena', end, folded) && |arena + opening| == NextOff(end)
  {
    var opening := if arena == [] then [DELIM] else [];
    var more := opening + folded + [DELIM];
    EntriesAfterIntern(entries, rows, names, nend, bytes);
    RecsAfterIntern(arena, end, recs, more);
    LiveAfterIntern(rows, entries, arena, end, recs, recOf, more);
    hide RecsOk, LiveRecs, EntriesOk;
    assert arena + opening + folded + [DELIM] == arena + more;
    var arena' := arena + opening + folded + [DELIM];
    assert arena'[NextOff(end)..NextOff(end) + |folded|] == folded;
  }

  /** What the table knows of a live slot. */
  lemma LiveEntryFacts(rows: seq<Row>, entries: seq<Entry>, names: seq<byte>, nend: nat, frnMap: map<nat, nat>,
                       slot: nat)
    requires EntriesOk(entries, rows, names, nend) && MapOk(rows, frnMap) && slot < |rows| && rows[slot].Live?
    ensures slot < |entries| && rows[slot].frn in frnMap && frnMap[rows[slot].frn] == slot
    ensures var e, row := entries[slot], rows[slot];
            && e.frn == row.frn && e.parent == row.parent && e.flags == row.flags && !e.flags.dead
            && e.nameOff + e.nameLen <= nend <= |names| && names[e.nameOff..e.nameOff + e.nameLen] == Encode(row.name)
            && e.nameLen == |Encode(row.name)| && e.foldedLen == |row.folded|
  {
    assert EntryOk(entries[slot], rows[slot], names, nend);
  }

  /** What the arenas know of a live slot. */
  lemma LiveRecordFacts(rows: seq<Row>, entries: seq<Entry>, arena: seq<byte>, end: nat, recs: seq<ArenaRec>,
                        recOf: map<nat, nat>, slot: nat)
    requires RecsOk(arena, end, recs) && LiveRecs(rows, entries, arena, end, recs, recOf) && slot < |rows|
    requires rows[slot].Live?
    ensures slot < |entries| && slot in recOf && recOf[slot] < |recs|
    ensures recs[recOf[slot]] == ArenaRec(entries[slot].foldedOff, slot)
    ensures var e, row := entries[slot], rows[slot];
            && e.foldedLen == |row.folded| && RecEnd(end, recs, recOf[slot]) == e.foldedOff + e.foldedLen
            && 1 <= e.foldedOff && e.foldedOff + e.foldedLen < end <= |arena|
            && arena[e.foldedOff..e.foldedOff + e.foldedLen] == row.folded
            && arena[e.foldedOff - 1] == DELIM && arena[e.foldedOff + e.foldedLen] == DELIM
  {
    hide RecsOk, RecEnd, Settled;
    assert Holds(rows, entries, arena, end, recs, slot, recOf[slot]);
    FenceBefore(arena, end, recs, recOf[slot]);
  }

  lemma VacateTable(uni: Unicode, entries: seq<Entry>, rows: seq<Row>, names: seq<byte>, nend: nat, frnMap: map<nat,
                    nat>,
                    free: seq<nat>, pending: set<nat>, slot: nat, dead: Entry)
    requires RowsOk(uni, rows) && EntriesOk(entries, rows, names, nend) && nend <= |names| && MapOk(rows, frnMap)
    requires FreeOk(rows, free, pending)
    requires slot < |rows| && rows[slot].Live? && dead.flags.dead
    ensures RowsOk(uni, rows[slot := Vacant]) && EntriesOk(entries[slot := dead], rows[slot := Vacant], names, nend)
    ensures MapOk(rows[slot := Vacant], frnMap - {rows[slot].frn}) && |frnMap - {rows[slot].frn}| == |frnMap| - 1
    ensures Files(rows[slot := Vacant], frnMap - {rows[slot].frn}) == Files(rows, frnMap) - {rows[slot].frn}
    ensures FreeOk(rows[slot := Vacant], free, pending + {slot})
    ensures LiveBytes(rows[slot := Vacant]) == LiveBytes(rows) - RowBytes(rows[slot])
  {
    EntriesAfterPut(entries, rows, names, nend, nend, slot, dead, Vacant);
    MapAfterRemove(rows, frnMap, slot);
    FreeAfterVacate(rows, free, pending, slot);
    LiveBytesPut(rows, slot, Vacant);
  }

  lemma VacateArenas(rows: seq<Row>, entries: seq<Entry>, arena: seq<byte>, end: nat, recs: seq<ArenaRec>,
                     recOf: map<nat, nat>, slot: nat, dead: Entry)
    requires RecsOk(arena, end, recs) && LiveRecs(rows, entries, arena, end, recs, recOf) && NamesAscend(entries, recOf)
    requires slot in recOf && slot < |entries| == |rows|
    requires entries[slot].foldedOff + entries[slot].foldedLen <= end <= |arena|
    ensures var arena' := Splice(arena, entries[slot].foldedOff, Repeat(DELIM, entries[slot].foldedLen));
            && RecsOk(arena', end, recs)
            && LiveRecs(rows[slot := Vacant], entries[slot := dead], arena', end, recs, recOf - {slot})
            && NamesAscend(entries[slot := dead], recOf - {slot})
            && |arena'| == |arena| && arena'[end..] == arena[end..]
  {
    hide RecsOk, LiveRecs, NamesAscend;
    RecsAfterErase(arena, end, recs, entries[slot].foldedOff, entries[slot].foldedLen);
    LiveAfterErase(rows, entries, arena, end, recs, recOf, slot, dead);
    NamesAfterErase(entries, recOf, slot, dead);
    SpliceApart(arena, entries[slot].foldedOff, Repeat(DELIM, entries[slot].foldedLen), end, |arena|);
  }

  lemma VacateColumns(uni: Unicode, rows: seq<Row>, rankKey: seq<byte>, initials: seq<byte>, head: seq<byte>, a: Grams,
                      l: Grams, slot: nat)
    requires RankOk(rows, rankKey) && LanesOk(uni, rows, initials) && HeadOk(rows, head) && ArenaNoted(rows, a)
    requires LanesNoted(uni, rows, l)
    requires slot < |rows|
    ensures |rankKey| == |rows| && |initials| == 8 * |rows| && |head| == 2 * |rows|
    ensures RankOk(rows[slot := Vacant], rankKey[slot := 255])
    ensures LanesOk(uni, rows[slot := Vacant], PutPiece(initials, 8 * slot, Repeat(DELIM, INITIALS_STRIDE)))
    ensures HeadOk(rows[slot := Vacant], PutPiece(head, 2 * slot, [DELIM, DELIM]))
    ensures ArenaNoted(rows[slot := Vacant], a) && LanesNoted(uni, rows[slot := Vacant], l)
  {
    RankPut(rows, rankKey, slot, Vacant, 255);
    LanesPut(uni, rows, initials, slot, Vacant);
    HeadPut(rows, head, slot, Vacant);
    ArenaNotedPut(rows, a, a, slot, Vacant);
    LanesNotedPut(uni, rows, l, l, slot, Vacant);
  }

  // ---- vacating a slot ----------------------------------------------------------------

  /** Every column reaches `slot` and the arena holds its record. */
  predicate CanVacate(st: State, slot: nat) {
    && slot < |st.entries| == |st.rows| == |st.rankKey| && |st.initials| == 8 * |st.rows| && |st.head| == 2 * |st.rows|
    && st.entries[slot].foldedOff + st.entries[slot].foldedLen <= |st.foldedArena| && st.liveCount > 0
  }

  /** `slot` tombstoned: out of the FRN map, its pieces zeroed or poisoned, its folded record erased, its
      bytes charged dead. */
  function Vacated(st: State, slot: nat, bsi: seq<Word>): State {
    if !CanVacate(st, slot) then st else
    var e := st.entries[slot];
    st.(entries := st.entries[slot := e.(flags := e.flags.(dead := true))],
        frnMap := st.frnMap - {e.frn},
        liveCount := st.liveCount - 1,
        deadBytes := st.deadBytes + e.nameLen + e.foldedLen,
        rankKey := st.rankKey[slot := 255],
        initials := PutPiece(st.initials, 8 * slot, Repeat(DELIM, INITIALS_STRIDE)),
        head := PutPiece(st.head, 2 * slot, [DELIM, DELIM]),
        bsi := bsi,
        foldedArena := Splice(st.foldedArena, e.foldedOff, Repeat(DELIM, e.foldedLen)),
        rows := st.rows[slot := Vacant],
        recOf := st.recOf - {slot})
  }

  lemma Vacatable(uni: Unicode, st: State, pending: set<nat>, slot: nat)
    requires StateOk(uni, st, pending) && slot < |st.rows| && st.rows[slot].Live?
    ensures CanVacate(st, slot) && BsiOk(st.rows, st.bsi, st.bsiWords)
    ensures slot < |st.entries| == |st.rows| == |st.rankKey| && |st.initials| == 8 * |st.rows|
    ensures |st.head| == 2 * |st.rows|
    ensures st.entries[slot].foldedOff + st.entries[slot].foldedLen <= |st.foldedArena| && st.liveCount > 0
    ensures st.foldedArena[st.entries[slot].foldedOff..st.entries[slot].foldedOff + st.entries[slot].foldedLen] ==
              st.rows[slot].folded
    ensures st.entries[slot].frn == st.rows[slot].frn && slot < 64 * st.bsiWords
  {
    hide RowsOk, EntriesOk, MapOk, FreeOk, RecsOk, LiveRecs, OwnerOk, NamesAscend, RankOk, LanesOk, HeadOk, BsiOk;
    hide ArenaNoted, LanesNoted;
    hide LiveBytes, Fences, Encode, MarksOk;
    LiveEntryFacts(st.rows, st.entries, st.nameArena, st.namesEnd, st.frnMap, slot);
    LiveRecordFacts(st.rows, st.entries, st.foldedArena, st.arenaEnd, st.arenaRecs, st.recOf, slot);
    TableShape(st.entries, st.rows, st.nameArena, st.namesEnd);
    ColumnsShape(uni, st.rows, st.rankKey, st.initials, st.head, st.bsi, st.bsiWords);
    RemoveCount(st.frnMap, st.rows[slot].frn);
  }

  lemma TableShape(entries: seq<Entry>, rows: seq<Row>, names: seq<byte>, nend: nat)
    requires EntriesOk(entries, rows, names, nend)
    ensures |entries| == |rows|
  {
  }

  lemma ColumnsShape(uni: Unicode, rows: seq<Row>, rankKey: seq<byte>, initials: seq<byte>, head: seq<byte>,
                     bsi: seq<Word>, words: nat)
    requires RankOk(rows, rankKey) && LanesOk(uni, rows, initials) && HeadOk(rows, head) && BsiOk(rows, bsi, words)
    ensures |rankKey| == |rows| && |initials| == 8 * |rows| && |head| == 2 * |rows| && |rows| <= 64 * words
    ensures SliceShape(bsi, words)
  {
  }

  lemma VacateOk(uni: Unicode, st: State, pending: set<nat>, slot: nat, bsi: seq<Word>)
    requires StateOk(uni, st, pending) && slot < |st.rows| && st.rows[slot].Live?
    requires BsiOk(st.rows[slot := Vacant], bsi, st.bsiWords)
    ensures StateOk(uni, Vacated(st, slot, bsi), pending + {slot})
    ensures Contents(Vacated(st, slot, bsi)) == Contents(st) - {st.rows[slot].frn}
    ensures 0 < st.arenaEnd <= |st.foldedArena| == |Vacated(st, slot, bsi).foldedArena|
    ensures Vacated(st, slot, bsi).foldedArena[st.arenaEnd..] == st.foldedArena[st.arenaEnd..]
  {
    hide RowsOk, EntriesOk, MapOk, FreeOk, RecsOk, LiveRecs, OwnerOk, NamesAscend, RankOk, LanesOk, HeadOk, BsiOk;
    hide ArenaNoted, LanesNoted;
    hide LiveBytes, Fences, Files, PutPiece, Splice, Encode, MarksOk;
    LiveEntryFacts(st.rows, st.entries, st.nameArena, st.namesEnd, st.frnMap, slot);
    LiveRecordFacts(st.rows, st.entries, st.foldedArena, st.arenaEnd, st.arenaRecs, st.recOf, slot);
    var e := st.entries[slot];
    var dead := e.(flags := e.flags.(dead := true));
    Vacatable(uni, st, pending, slot);
    VacateTable(uni, st.entries, st.rows, st.nameArena, st.namesEnd, st.frnMap, st.freeSlots, pending, slot, dead);
    VacateArenas(st.rows, st.entries, st.foldedArena, st.arenaEnd, st.arenaRecs, st.recOf, slot, dead);
    VacateColumns(uni, st.rows, st.rankKey, st.initials, st.head, st.arenaGrams, st.laneGrams, slot);
  }

  // ---- staging a name ----------------------------------------------------------------

  /** A name and its folded record appended to the arenas, not yet described by any table. */
  function StagedName(st: State, bytes: seq<byte>, folded: seq<byte>): State {
    st.(nameArena := st.nameArena + bytes,
        foldedArena := st.foldedArena + (if st.foldedArena == [] then [DELIM] else []) + folded + [DELIM])
  }

  lemma StageOk(uni: Unicode, st: State, bytes: seq<byte>, folded: seq<byte>)
    requires AtRest(uni, st) && |StagedName(st, bytes, folded).nameArena| <= U32_MAX
    requires |StagedName(st, bytes, folded).foldedArena| <= U32_MAX
    ensures StateOk(uni, StagedName(st, bytes, folded), {})
    ensures Staged(StagedName(st, bytes, folded).foldedArena, st.arenaEnd, folded)
    ensures |st.foldedArena + (if st.foldedArena == [] then [DELIM] else [])| == NextOff(st.arenaEnd)
  {
    hide RowsOk, EntriesOk, MapOk, FreeOk, RecsOk, LiveRecs, OwnerOk, NamesAscend, RankOk, LanesOk, HeadOk, BsiOk;
    hide ArenaNoted, LanesNoted;
    hide LiveBytes, Fences, MarksOk, Staged;
    InternOk(st.entries, st.rows, st.nameArena, st.namesEnd, st.foldedArena, st.arenaEnd, st.arenaRecs, st.recOf, bytes,
             folded);
  }

  // ---- filling a slot -----------------------------------------------------------------

  /** The pieces of a fill that loops compute: record table, block index, class bits and presence sets. */
  datatype Derived = Derived(arenaRecs: seq<ArenaRec>, owner: seq<nat>, bsi: seq<Word>, bsiWords: nat,
                             arenaGrams: Grams, laneGrams: Grams)

  /** Every column ends at or reaches past `slot`. */
  predicate CanFill(st: State, slot: nat) {
    slot <= |st.entries| == |st.rows| == |st.rankKey| && |st.initials| == 8 * |st.rows| && |st.head| == 2 * |st.rows|
  }

  /** `slot` bound to a live row: every column written, the staged record published. */
  function Filled(uni: Unicode, st: State, slot: nat, row: Row, e: Entry, key: byte, d: Derived): State {
    if !(row.Live? && CanFill(st, slot)) then st else
    st.(entries := Put(st.entries, slot, e),
        frnMap := st.frnMap[row.frn := slot],
        liveCount := st.liveCount + 1,
        rankKey := Put(st.rankKey, slot, key),
        arenaRecs := d.arenaRecs, owner := d.owner,
        initials := PutPiece(st.initials, 8 * slot, LaneFor(uni, row)),
        head := PutPiece(st.head, 2 * slot, HeadFor(row)),
        bsi := d.bsi, bsiWords := d.bsiWords,
        arenaGrams := d.arenaGrams, laneGrams := d.laneGrams,
        rows := Put(st.rows, slot, row),
        recOf := st.recOf[slot := |st.arenaRecs|],
        arenaEnd := |st.foldedArena|, namesEnd := |st.nameArena|)
  }

  lemma FilledIs(uni: Unicode, st: State, slot: nat, row: Row, e: Entry, key: byte, d: Derived)
    requires row.Live? && CanFill(st, slot)
    ensures Filled(uni, st, slot, row, e, key, d) ==
              st.(entries := Put(st.entries, slot, e), frnMap := st.frnMap[row.frn := slot], liveCount := st.liveCount + 1,
                  rankKey := Put(st.rankKey, slot, key), arenaRecs := d.arenaRecs, owner := d.owner,
                  initials := PutPiece(st.initials, 8 * slot, LaneFor(uni, row)),
                  head := PutPiece(st.head, 2 * slot, HeadFor(row)),
                  bsi := d.bsi, bsiWords := d.bsiWords, arenaGrams := d.arenaGrams, laneGrams := d.laneGrams,
                  rows := Put(st.rows, slot, row), recOf := st.recOf[slot := |st.arenaRecs|],
                  arenaEnd := |st.foldedArena|, namesEnd := |st.nameArena|)
  {
    hide Put, PutPiece;
  }

  lemma FilledSizes(uni: Unicode, st: State, slot: nat, row: Row, e: Entry, key: byte, d: Derived)
    requires row.Live? && CanFill(st, slot)
    ensures var st' := Filled(uni, st, slot, row, e, key, d);
            && SizesOf(st') == SizesOf(st).(slots := if slot == |st.entries| then slot + 1 else |st.entries|)
            && st'.arenaEnd == |st'.foldedArena| && st'.namesEnd == |st'.nameArena|
  {
    hide PutPiece;
  }

  /** What a fill needs of its entry: the staged name and record, a free slot, an unused FRN. */
  predicate Fillable(uni: Unicode, st: State, pending: set<nat>, slot: nat, row: Row, e: Entry, key: byte) {
    && StateOk(uni, st, pending) && (slot in pending || slot == |st.rows| < U32_MAX)
    && row.Live? && RowOk(uni, row) && row.frn !in st.frnMap
    && EntryOk(e, row, st.nameArena, |st.nameArena|) && KeyOk(row, key)
    && e.nameOff == st.namesEnd && |st.nameArena| == st.namesEnd + |Encode(row.name)|
    && e.foldedOff == NextOff(st.arenaEnd) && Staged(st.foldedArena, st.arenaEnd, row.folded)
  }

  /** What the loops must have computed. */
  predicate DerivedOk(uni: Unicode, st: State, slot: nat, row: Row, d: Derived)
    requires slot <= |st.rows| && row.Live?
  {
    && d.arenaRecs == st.arenaRecs + [ArenaRec(NextOff(st.arenaEnd), slot)]
    && OwnerOk(d.owner, d.arenaRecs, |st.foldedArena|)
    && BsiOk(Put(st.rows, slot, row), d.bsi, d.bsiWords)
    && GramsCover(st.arenaGrams, d.arenaGrams) && Noted(d.arenaGrams, row.folded)
    && GramsCover(st.laneGrams, d.laneGrams) && Noted(d.laneGrams, LaneFor(uni, row))
  }

  lemma FillShape(uni: Unicode, st: State, pending: set<nat>, slot: nat)
    requires StateOk(uni, st, pending) && (slot in pending || slot == |st.rows|)
    ensures CanFill(st, slot)
    ensures slot < |st.rows| ==> st.rows[slot].Vacant?
    ensures slot in pending ==> slot < |st.rows|
  {
    hide RowsOk, EntriesOk, MapOk, RecsOk, LiveRecs, OwnerOk, NamesAscend, RankOk, LanesOk, HeadOk, BsiOk, ArenaNoted;
    hide LanesNoted;
    hide LiveBytes, Fences, MarksOk;
    TableShape(st.entries, st.rows, st.nameArena, st.namesEnd);
    ColumnsShape(uni, st.rows, st.rankKey, st.initials, st.head, st.bsi, st.bsiWords);
  }

  lemma FillTable(uni: Unicode, st: State, pending: set<nat>, slot: nat, row: Row, e: Entry, key: byte)
    requires Fillable(uni, st, pending, slot, row, e, key)
    requires slot <= |st.entries| == |st.rows| && (slot < |st.rows| ==> st.rows[slot].Vacant?)
    ensures var rows := Put(st.rows, slot, row);
            var frnMap := st.frnMap[row.frn := slot];
            && RowsOk(uni, rows) && EntriesOk(Put(st.entries, slot, e), rows, st.nameArena, |st.nameArena|)
            && MapOk(rows, frnMap) && |frnMap| == st.liveCount + 1 && FreeOk(rows, st.freeSlots, pending - {slot})
            && Files(rows, frnMap) == Files(st.rows, st.frnMap)[row.frn := FileOf(row)]
            && LiveBytes(rows) == LiveBytes(st.rows) + RowBytes(row)
  {
    hide LiveRecs, RecsOk, OwnerOk, NamesAscend, ColumnsOk, EntryOk, EntriesOk, MapOk, FreeOk, Files, LiveBytes;
    hide MarksOk, Staged, RowOk;
    EntriesAfterPut(st.entries, st.rows, st.nameArena, st.namesEnd, |st.nameArena|, slot, e, row);
    MapAfterInsert(st.rows, st.frnMap, slot, row);
    FilesAfterInsert(st.rows, st.frnMap, slot, row);
    FreeAfterFill(st.rows, st.freeSlots, pending, slot, row);
    LiveBytesPut(st.rows, slot, row);
  }

  lemma FillArenas(uni: Unicode, st: State, pending: set<nat>, slot: nat, row: Row, e: Entry, key: byte)
    requires Fillable(uni, st, pending, slot, row, e, key)
    requires slot <= |st.entries| == |st.rows| && (slot < |st.rows| ==> st.rows[slot].Vacant?)
    ensures var recs := st.arenaRecs + [ArenaRec(NextOff(st.arenaEnd), slot)];
            && RecsOk(st.foldedArena, |st.foldedArena|, recs)
            && LiveRecs(Put(st.rows, slot, row), Put(st.entries, slot, e), st.foldedArena, |st.foldedArena|, recs,
                        st.recOf[slot := |st.arenaRecs|])
            && NamesAscend(Put(st.entries, slot, e), st.recOf[slot := |st.arenaRecs|])
            && |st.foldedArena| + Fences(st.arenaRecs) == st.arenaEnd + |row.folded| + Fences(recs)
  {
    hide RowsOk, MapOk, FreeOk, OwnerOk, NamesAscend, ColumnsOk, EntriesOk, LiveBytes, MarksOk;
    assert row.folded != [] && e.foldedLen == |row.folded|;
    assert slot !in st.recOf by {
      if slot in st.recOf {
        HoldsFacts(st.rows, st.entries, st.foldedArena, st.arenaEnd, st.arenaRecs, slot, st.recOf[slot]);
      }
    }
    assert st.arenaEnd == 0 <==> st.arenaRecs == [];
    hide LiveRecs, RecsOk, EntryOk, RowOk;
    RecsAfterPush(st.foldedArena, st.arenaEnd, st.arenaRecs, slot, row.folded);
    LiveAfterPush(st.rows, st.entries, st.foldedArena, st.arenaEnd, st.arenaRecs, st.recOf, slot, row, e);
    NamesAfterPush(st.rows, st.entries, st.nameArena, st.namesEnd, st.foldedArena, st.arenaEnd, st.arenaRecs, st.recOf,
                   slot, e);
  }

  lemma FillColumns(uni: Unicode, st: State, slot: nat, row: Row, key: byte, d: Derived)
    requires ColumnsOk(uni, st) && row.Live? && KeyOk(row, key)
    requires slot <= |st.rows| == |st.rankKey| && |st.initials| == 8 * |st.rows| && |st.head| == 2 * |st.rows|
    requires DerivedOk(uni, st, slot, row, d)
    ensures var rows := Put(st.rows, slot, row);
            && RankOk(rows, Put(st.rankKey, slot, key))
            && LanesOk(uni, rows, PutPiece(st.initials, 8 * slot, LaneFor(uni, row)))
            && HeadOk(rows, PutPiece(st.head, 2 * slot, HeadFor(row)))
            && BsiOk(rows, d.bsi, d.bsiWords)
            && ArenaNoted(rows, d.arenaGrams) && LanesNoted(uni, rows, d.laneGrams)
  {
    hide RankOk, LanesOk, HeadOk, BsiOk, ArenaNoted, LanesNoted, PutPiece, Noted, GramsCover, LaneFor, HeadFor, OwnerOk;
    RankPut(st.rows, st.rankKey, slot, row, key);
    LanesPut(uni, st.rows, st.initials, slot, row);
    HeadPut(st.rows, st.head, slot, row);
    ArenaNotedPut(st.rows, st.arenaGrams, d.arenaGrams, slot, row);
    LanesNotedPut(uni, st.rows, st.laneGrams, d.laneGrams, slot, row);
  }

  lemma FillOk(uni: Unicode, st: State, pending: set<nat>, slot: nat, row: Row, e: Entry, key: byte, d: Derived)
    requires Fillable(uni, st, pending, slot, row, e, key) && CanFill(st, slot)
    requires DerivedOk(uni, st, slot, row, d)
    ensures StateOk(uni, Filled(uni, st, slot, row, e, key, d), pending - {slot})
    ensures Contents(Filled(uni, st, slot, row, e, key, d)) == Contents(st)[row.frn := FileOf(row)]
  {
    hide RowsOk, EntriesOk, MapOk, FreeOk, RecsOk, LiveRecs, OwnerOk, NamesAscend, RankOk, LanesOk, HeadOk, BsiOk;
    hide ArenaNoted, LanesNoted;
    hide LiveBytes, Fences, MarksOk, Files, PutPiece, Encode, Staged, RowOk, Noted, GramsCover, LaneFor, HeadFor;
    FillShape(uni, st, pending, slot);
    FillTable(uni, st, pending, slot, row, e, key);
    FillArenas(uni, st, pending, slot, row, e, key);
    FillColumns(uni, st, slot, row, key, d);
    var st' := Filled(uni, st, slot, row, e, key, d);
    assert TableOk(uni, st', pending - {slot});
    assert ArenasOk(st');
    assert ColumnsOk(uni, st');
    assert RepairOk(st');
    hide TableOk, ArenasOk, ColumnsOk, RepairOk, Fillable, DerivedOk, EntryOk;
  }

  /** The entry a fill writes for an interned name. */
  function EntryFor(row: Row, it: Interned): Entry
    requires row.Live?
  {
    Entry(row.frn, row.parent, it.nameOff, it.nameLen, it.foldedOff, it.foldedLen, row.flags)
  }

  /** A row ready to be bound to `slot`: its name staged at the ends of both arenas. */
  predicate Ready(uni: Unicode, st: State, pending: set<nat>, slot: nat, row: Row, it: Interned) {
    && StateOk(uni, st, pending) && (slot in pending || slot == |st.rows| < U32_MAX)
    && row.Live? && RowOk(uni, row) && row.frn !in st.frnMap
    && it == Interned(st.namesEnd, |Encode(row.name)|, NextOff(st.arenaEnd), |row.folded|)
    && |st.nameArena| == st.namesEnd + |Encode(row.name)| && st.nameArena[st.namesEnd..] == Encode(row.name)
    && Staged(st.foldedArena, st.arenaEnd, row.folded)
  }

  /** What the fill's loops may rely on. */
  lemma ReadyFacts(uni: Unicode, st: State, pending: set<nat>, slot: nat, row: Row, it: Interned)
    requires Ready(uni, st, pending, slot, row, it)
    ensures row.Live? && CanFill(st, slot) && slot <= |st.entries| == |st.rows| == |st.rankKey|
    ensures |st.initials| == 8 * |st.rows| && |st.head| == 2 * |st.rows|
    ensures slot < |st.rows| ==> st.rows[slot].Vacant?
    ensures MapLive(st.entries, st.frnMap)
    ensures BsiOk(st.rows, st.bsi, st.bsiWords) && OwnerOk(st.owner, st.arenaRecs, st.arenaEnd)
    ensures (st.arenaEnd == 0 <==> st.arenaRecs == []) && forall i :: 0 <= i < |st.arenaRecs| ==>
              st.arenaRecs[i].off < st.arenaEnd
    ensures it.nameOff + it.nameLen == |st.nameArena|
    ensures st.nameArena[it.nameOff..it.nameOff + it.nameLen] == Encode(row.name)
    ensures 1 <= |row.folded| && it.foldedOff + it.foldedLen < |st.foldedArena|
    ensures st.foldedArena[it.foldedOff..it.foldedOff + it.foldedLen] == row.folded
    ensures it.foldedOff == NextOff(st.arenaEnd)
  {
    hide RowsOk, EntriesOk, MapOk, RecsOk, LiveRecs, OwnerOk, NamesAscend, RankOk, LanesOk, HeadOk, BsiOk, ArenaNoted;
    hide LanesNoted, FreeOk;
    hide LiveBytes, Fences, MarksOk, Encode, FoldedRecord, NoControl;
    FillShape(uni, st, pending, slot);
    RecsShape(st.foldedArena, st.arenaEnd, st.arenaRecs);
    MapIsLive(st.entries, st.rows, st.nameArena, st.namesEnd, st.frnMap);
    assert st.nameArena[st.namesEnd..] == st.nameArena[it.nameOff..it.nameOff + it.nameLen];
  }

  lemma ReadyMap(uni: Unicode, st: State, pending: set<nat>, slot: nat, row: Row, it: Interned)
    requires Ready(uni, st, pending, slot, row, it)
    ensures MapOk(st.rows, st.frnMap)
  {
    hide RowsOk, EntriesOk, MapOk, RecsOk, LiveRecs, OwnerOk, NamesAscend, RankOk, LanesOk, HeadOk, BsiOk, ArenaNoted;
    hide LanesNoted, FreeOk, RowOk, Staged, Encode;
  }

  lemma RecsShape(arena: seq<byte>, end: nat, recs: seq<ArenaRec>)
    requires RecsOk(arena, end, recs)
    ensures (end == 0 <==> recs == []) && forall i :: 0 <= i < |recs| ==> recs[i].off < end
  {
  }

  /** `frnMap` never holds a tombstone. */
  lemma MapIsLive(entries: seq<Entry>, rows: seq<Row>, names: seq<byte>, nend: nat, frnMap: map<nat, nat>)
    requires EntriesOk(entries, rows, names, nend) && MapOk(rows, frnMap)
    ensures MapLive(entries, frnMap)
  {
    forall f | f in frnMap ensures frnMap[f] < |entries| && !entries[frnMap[f]].flags.dead {
      assert EntryOk(entries[frnMap[f]], rows[frnMap[f]], names, nend);
    }
  }

  lemma ReadyIsFillable(uni: Unicode, st: State, pending: set<nat>, slot: nat, row: Row, it: Interned, key: byte)
    requires Ready(uni, st, pending, slot, row, it) && KeyOk(row, key)
    ensures Fillable(uni, st, pending, slot, row, EntryFor(row, it), key)
  {
    hide StateOk, Staged, Encode, FoldedRecord, NoControl;
    ReadyFacts(uni, st, pending, slot, row, it);
  }

  /** The depth a new slot starts with: one below its parent's cached depth, or the root's. */
  function StartDepth(st: State, frn: nat, parent: nat, slot: nat): (d: nat)
    ensures d <= RANK_DEPTH_MAX
  {
    if parent == frn then 0
    else if parent in st.frnMap && st.frnMap[parent] != slot && st.frnMap[parent] < |st.rankKey| then
      Min(st.rankKey[st.frnMap[parent]] as int % 128 + 1, RANK_DEPTH_MAX)
    else 0
  }

  // ---- from an event to a fill ---------------------------------------------------------

  /** The row an accepted name gives. */
  function RowFor(uni: Unicode, frn: nat, parent: nat, raw: string, flags: Flags): (row: Row)
    ensures row.Live?
  {
    Live(frn, parent, StoredName(uni, raw), FoldedRecord(uni, StoredName(uni, raw)), flags.(dead := false))
  }

  function StagedFor(uni: Unicode, st: State, raw: string): State {
    StagedName(st, Encode(StoredName(uni, raw)), FoldedRecord(uni, StoredName(uni, raw)))
  }

  function InternedFor(uni: Unicode, st: State, raw: string): Interned {
    Interned(st.namesEnd, |Encode(StoredName(uni, raw))|, NextOff(st.arenaEnd), |FoldedRecord(uni, StoredName(uni, raw))|)
  }

  /** A directory reparent arms the depth repair, from slot 0 with no marks. */
  function Armed(st: State): State {
    st.(repairArmed := true, repairCursor := 0, repairState := [])
  }

  function ArmedIf(st: State, arm: bool): State {
    if arm then Armed(st) else st
  }

  lemma ArmOk(uni: Unicode, st: State, pending: set<nat>, arm: bool)
    requires StateOk(uni, st, pending)
    ensures StateOk(uni, ArmedIf(st, arm), pending)
    ensures Contents(ArmedIf(st, arm)) == Contents(st)
  {
    hide RowsOk, EntriesOk, MapOk, RecsOk, LiveRecs, OwnerOk, NamesAscend, RankOk, LanesOk, HeadOk, BsiOk, ArenaNoted;
    hide LanesNoted, FreeOk, Files;
  }

  /** What staging a usable name leaves for the fill. */
  predicate StagedReady(uni: Unicode, st: State, s1: State, raw: string) {
    && AtRest(uni, st) && Usable(uni, raw) && HasRoom(uni, |st.nameArena|, |st.foldedArena|, raw)
    && s1 == StagedFor(uni, st, raw)
  }

  lemma StagedReadyOk(uni: Unicode, st: State, s1: State, raw: string)
    requires StagedReady(uni, st, s1, raw)
    ensures StateOk(uni, s1, {}) && Contents(s1) == Contents(st)
    ensures Staged(s1.foldedArena, s1.arenaEnd, FoldedRecord(uni, StoredName(uni, raw)))
    ensures |s1.nameArena| == s1.namesEnd + |Encode(StoredName(uni, raw))|
    ensures s1.nameArena[s1.namesEnd..] == Encode(StoredName(uni, raw))
  {
    hide StateOk, StoredName, FoldedRecord, Encode, Staged, Usable;
    StageOk(uni, st, Encode(StoredName(uni, raw)), FoldedRecord(uni, StoredName(uni, raw)));
  }

  lemma ReadyFresh(uni: Unicode, st: State, s1: State, frn: nat, parent: nat, raw: string, flags: Flags)
    requires StagedReady(uni, st, s1, raw) && frn !in st.frnMap && |st.rows| < U32_MAX
    ensures Ready(uni, s1, {}, |st.rows|, RowFor(uni, frn, parent, raw, flags), InternedFor(uni, st, raw))
  {
    hide StateOk, StoredName, FoldedRecord, Encode, Staged, NoControl;
    StagedReadyOk(uni, st, s1, raw);
  }

  function Popped(st: State): State {
    if st.freeSlots == [] then st else st.(freeSlots := st.freeSlots[..|st.freeSlots| - 1])
  }

  lemma PopOk(uni: Unicode, st: State)
    requires StateOk(uni, st, {}) && st.freeSlots != []
    ensures StateOk(uni, Popped(st), {st.freeSlots[|st.freeSlots| - 1]}) && Contents(Popped(st)) == Contents(st)
  {
    hide RowsOk, EntriesOk, MapOk, RecsOk, LiveRecs, OwnerOk, NamesAscend, RankOk, LanesOk, HeadOk, BsiOk, ArenaNoted;
    hide LanesNoted, FreeOk, Files, MarksOk;
    FreeAfterPop(st.rows, st.freeSlots, {});
    assert {} + {st.freeSlots[|st.freeSlots| - 1]} == {st.freeSlots[|st.freeSlots| - 1]};
  }

  lemma ReadyRecycled(uni: Unicode, st: State, s1: State, frn: nat, parent: nat, raw: string, flags: Flags)
    requires StagedReady(uni, st, s1, raw) && frn !in st.frnMap && st.freeSlots != []
    ensures var slot := st.freeSlots[|st.freeSlots| - 1];
            Ready(uni, Popped(s1), {slot}, slot, RowFor(uni, frn, parent, raw, flags), InternedFor(uni, st, raw))
            && Contents(Popped(s1)) == Contents(st) && slot < |st.rows|
  {
    hide StateOk, StoredName, FoldedRecord, Encode, Staged, NoControl, Contents;
    StagedReadyOk(uni, st, s1, raw);
    PopOk(uni, s1);
    FillShape(uni, Popped(s1), {st.freeSlots[|st.freeSlots| - 1]}, st.freeSlots[|st.freeSlots| - 1]);
  }

  lemma ReadyReused(uni: Unicode, st: State, s1: State, arm: bool, bsi: seq<Word>, frn: nat, parent: nat, raw: string,
                    flags: Flags)
    requires StagedReady(uni, st, s1, raw) && frn in st.frnMap && st.frnMap[frn] < |st.rows|
    requires BsiOk(st.rows[st.frnMap[frn] := Vacant], bsi, st.bsiWords)
    ensures var slot := st.frnMap[frn];
            var s2 := Vacated(ArmedIf(s1, arm), slot, bsi);
            && Ready(uni, s2, {slot}, slot, RowFor(uni, frn, parent, raw, flags), InternedFor(uni, st, raw))
            && MapOk(st.rows, st.frnMap) && Contents(s2) == Contents(st) - {frn}
  {
    var slot := st.frnMap[frn];
    var s2 := Vacated(ArmedIf(s1, arm), slot, bsi);
    hide StateOk, StoredName, FoldedRecord, Encode, NoControl, BsiOk, Contents, MapOk, Staged, Vacated, ArmedIf, Files;
    ReusedState(uni, st, s1, arm, bsi, frn, raw);
  }

  lemma ReusedState(uni: Unicode, st: State, s1: State, arm: bool, bsi: seq<Word>, frn: nat, raw: string)
    requires StagedReady(uni, st, s1, raw) && frn in st.frnMap && st.frnMap[frn] < |st.rows|
    requires BsiOk(st.rows[st.frnMap[frn] := Vacant], bsi, st.bsiWords)
    ensures MapOk(st.rows, st.frnMap)
    ensures var slot := st.frnMap[frn];
            var s2 := Vacated(ArmedIf(s1, arm), slot, bsi);
            && StateOk(uni, s2, {slot}) && Contents(s2) == Contents(st) - {frn} && frn !in s2.frnMap
            && s2.nameArena == s1.nameArena && s2.namesEnd == s1.namesEnd == st.namesEnd
            && s2.arenaEnd == s1.arenaEnd == st.arenaEnd
            && |s1.nameArena| == s1.namesEnd + |Encode(StoredName(uni, raw))|
            && s1.nameArena[s1.namesEnd..] == Encode(StoredName(uni, raw))
            && Staged(s2.foldedArena, s2.arenaEnd, FoldedRecord(uni, StoredName(uni, raw)))
  {
    var slot := st.frnMap[frn];
    var s2 := Vacated(ArmedIf(s1, arm), slot, bsi);
    MapFacts(uni, st, frn);
    hide StateOk, StoredName, FoldedRecord, Encode, NoControl, BsiOk, Contents, MapOk, Staged, Vacated, Usable, HasRoom;
    StagedReadyOk(uni, st, s1, raw);
    ArmOk(uni, s1, {}, arm);
    VacateStaged(uni, ArmedIf(s1, arm), slot, bsi, FoldedRecord(uni, StoredName(uni, raw)));
  }

  /** Vacating a slot leaves a staged name alone. */
  lemma VacateStaged(uni: Unicode, st: State, slot: nat, bsi: seq<Word>, folded: seq<byte>)
    requires StateOk(uni, st, {}) && slot < |st.rows| && st.rows[slot].Live?
    requires Staged(st.foldedArena, st.arenaEnd, folded)
    requires BsiOk(st.rows[slot := Vacant], bsi, st.bsiWords)
    ensures var s2 := Vacated(st, slot, bsi);
            && StateOk(uni, s2, {slot}) && Contents(s2) == Contents(st) - {st.rows[slot].frn}
            && st.rows[slot].frn !in s2.frnMap
            && s2.nameArena == st.nameArena && s2.namesEnd == st.namesEnd && s2.arenaEnd == st.arenaEnd
            && Staged(s2.foldedArena, s2.arenaEnd, folded)
  {
    hide StateOk, BsiOk, Contents, Staged, CanVacate, Splice, PutPiece, Repeat;
    VacateOk(uni, st, {}, slot, bsi);
    Vacatable(uni, st, {}, slot);
    assert {} + {slot} == {slot};
    StagedAfterErase(st.foldedArena, st.arenaEnd, folded, Vacated(st, slot, bsi).foldedArena);
  }

  lemma MapFacts(uni: Unicode, st: State, frn: nat)
    requires StateOk(uni, st, {}) && frn in st.frnMap
    ensures MapOk(st.rows, st.frnMap) && st.frnMap[frn] < |st.rows| && st.rows[st.frnMap[frn]].Live?
    ensures st.rows[st.frnMap[frn]].frn == frn
    ensures st.frnMap[frn] < |st.entries| == |st.rows|
    ensures var e, row := st.entries[st.frnMap[frn]], st.rows[st.frnMap[frn]];
            e.flags == row.flags && e.parent == row.parent && e.frn == frn && !e.flags.dead
  {
    hide RowsOk, EntriesOk, RecsOk, LiveRecs, OwnerOk, NamesAscend, RankOk, LanesOk, HeadOk, BsiOk, ArenaNoted;
    hide LanesNoted, FreeOk, MarksOk, Encode;
    TableShape(st.entries, st.rows, st.nameArena, st.namesEnd);
    LiveEntryFacts(st.rows, st.entries, st.nameArena, st.namesEnd, st.frnMap, st.frnMap[frn]);
  }

  lemma StagedAfterErase(arena: seq<byte>, end: nat, folded: seq<byte>, arena': seq<byte>)
    requires Staged(arena, end, folded) && 0 < end <= |arena| && |arena'| == |arena| && arena'[end..] == arena[end..]
    ensures Staged(arena', end, folded)
  {
    assert arena'[end..end + |folded|] == arena'[end..][..|folded|] == arena[end..][..|folded|] ==
             arena[end..end + |folded|];
    assert arena'[|arena| - 1] == arena'[end..][|arena| - 1 - end];
  }

  /** A repair rewound to a reused slot. */
  function Rewound(st: State, slot: nat): State {
    if st.repairArmed && slot < st.repairCursor then st.(repairCursor := slot) else st
  }

  lemma RewoundOk(uni: Unicode, st: State, slot: nat)
    requires AtRest(uni, st)
    ensures AtRest(uni, Rewound(st, slot)) && LedgerOf(Rewound(st, slot)) == LedgerOf(st)
  {
    hide RowsOk, EntriesOk, MapOk, RecsOk, LiveRecs, OwnerOk, NamesAscend, RankOk, LanesOk, HeadOk, BsiOk, ArenaNoted;
    hide LanesNoted, FreeOk, MarksOk, Files;
  }

  lemma MapOf(uni: Unicode, st: State, pending: set<nat>)
    requires StateOk(uni, st, pending)
    ensures MapOk(st.rows, st.frnMap) && |st.entries| == |st.rows|
  {
    hide RowsOk, MapOk, RecsOk, LiveRecs, OwnerOk, NamesAscend, RankOk, LanesOk, HeadOk, BsiOk, ArenaNoted, LanesNoted;
    hide FreeOk, MarksOk;
    TableShape(st.entries, st.rows, st.nameArena, st.namesEnd);
  }

  /** What staging leaves alone. */
  lemma StagedShape(uni: Unicode, st: State, s1: State, raw: string)
    requires StagedReady(uni, st, s1, raw)
    ensures s1.frnMap == st.frnMap && s1.freeSlots == st.freeSlots && s1.entries == st.entries && s1.rows == st.rows
    ensures s1.recOf == st.recOf && s1.bsi == st.bsi && s1.bsiWords == st.bsiWords
    ensures MapOk(st.rows, st.frnMap) && |st.entries| == |st.rows|
    ensures forall f :: f in st.frnMap ==> st.frnMap[f] < |st.rows|
  {
    hide StateOk, StoredName, FoldedRecord, Encode;
    MapOf(uni, st, {});
  }

  /** The FRN's own slot can be torn down under the staged name. */
  lemma ReuseStart(uni: Unicode, st: State, s1: State, arm: bool, frn: nat, raw: string)
    requires StagedReady(uni, st, s1, raw) && frn in st.frnMap
    ensures var s := ArmedIf(s1, arm); StateOk(uni, s, {}) && st.frnMap[frn] < |s.rows| && s.rows[st.frnMap[frn]].Live?
  {
    hide StateOk, StoredName, FoldedRecord, Encode, Contents, Staged, Usable, HasRoom, StagedName;
    MapFacts(uni, st, frn);
    StagedReadyOk(uni, st, s1, raw);
    ArmOk(uni, s1, {}, arm);
    StagedShape(uni, st, s1, raw);
  }

  lemma ReuseSlot(uni: Unicode, st: State, s1: State, arm: bool, bsi: seq<Word>, frn: nat, parent: nat, raw: string,
                  flags: Flags)
    requires StagedReady(uni, st, s1, raw) && frn in st.frnMap
    requires StateOk(uni, Vacated(ArmedIf(s1, arm), st.frnMap[frn], bsi), {} + {st.frnMap[frn]})
    ensures var slot := st.frnMap[frn];
            var s2 := Vacated(ArmedIf(s1, arm), slot, bsi);
            && Ready(uni, s2, {slot}, slot, RowFor(uni, frn, parent, raw, flags), InternedFor(uni, st, raw))
            && MapOk(st.rows, st.frnMap) && Contents(s2) == Contents(st) - {frn}
  {
    var slot := st.frnMap[frn];
    hide StateOk, StoredName, FoldedRecord, Encode, Contents, Staged, Usable, HasRoom, StagedName, Ready, RowFor;
    hide InternedFor;
    ReuseStart(uni, st, s1, arm, frn, raw);
    StagedShape(uni, st, s1, raw);
    VacatedBits(uni, ArmedIf(s1, arm), slot, bsi);
    ReadyReused(uni, st, s1, arm, bsi, frn, parent, raw, flags);
  }

  lemma VacatedBits(uni: Unicode, st: State, slot: nat, bsi: seq<Word>)
    requires StateOk(uni, st, {}) && slot < |st.rows| && st.rows[slot].Live?
    requires StateOk(uni, Vacated(st, slot, bsi), {} + {slot})
    ensures BsiOk(st.rows[slot := Vacant], bsi, st.bsiWords)
  {
    hide RowsOk, EntriesOk, MapOk, RecsOk, LiveRecs, OwnerOk, NamesAscend, RankOk, LanesOk, HeadOk, BsiOk, ArenaNoted;
    hide LanesNoted, FreeOk, MarksOk;
    hide LiveBytes, Fences, Splice, PutPiece, CanVacate;
    Vacatable(uni, st, {}, slot);
  }

  lemma PoppedIs(st: State)
    requires st.freeSlots != []
    ensures Popped(st) == st.(freeSlots := st.freeSlots[..|st.freeSlots| - 1])
  {
  }

  lemma NotHeld(st: State, frn: nat)
    requires MapOk(st.rows, st.frnMap) && frn !in st.frnMap
    ensures Contents(st) - {frn} == Contents(st)
  {
  }

  lemma ArmedShape(uni: Unicode, st: State, pending: set<nat>, arm: bool)
    requires StateOk(uni, st, pending)
    ensures StateOk(uni, ArmedIf(st, arm), pending) && ArmedIf(st, arm).rows == st.rows
    ensures ArmedIf(st, arm).frnMap == st.frnMap
    ensures ArmedIf(st, arm).entries == st.entries && ArmedIf(st, arm).freeSlots == st.freeSlots
  {
    hide StateOk, Contents;
    ArmOk(uni, st, pending, arm);
  }

  /** `slot` vacated and on the free list. */
  function Freed(st: State, arm: bool, slot: nat, bsi: seq<Word>): State {
    var s1 := Vacated(ArmedIf(st, arm), slot, bsi);
    s1.(freeSlots := s1.freeSlots + [slot])
  }

  lemma FreedIs(st: State, arm: bool, slot: nat, bsi: seq<Word>)
    ensures var s1 := Vacated(ArmedIf(st, arm), slot, bsi);
            Freed(st, arm, slot, bsi) == s1.(freeSlots := s1.freeSlots + [slot])
  {
  }

  lemma RemoveOk(uni: Unicode, st: State, arm: bool, frn: nat, bsi: seq<Word>)
    requires AtRest(uni, st) && frn in st.frnMap
    requires StateOk(uni, Vacated(ArmedIf(st, arm), st.frnMap[frn], bsi), {} + {st.frnMap[frn]})
    ensures AtRest(uni, Freed(st, arm, st.frnMap[frn], bsi)) && MapOk(st.rows, st.frnMap)
    ensures Contents(Freed(st, arm, st.frnMap[frn], bsi)) == Contents(st) - {frn}
  {
    var slot, s1 := st.frnMap[frn], ArmedIf(st, arm);
    hide StateOk, Contents, Vacated, ArmedIf;
    MapFacts(uni, st, frn);
    ArmOk(uni, st, {}, arm);
    ArmedShape(uni, st, {}, arm);
    VacatedBits(uni, s1, slot, bsi);
    VacateOk(uni, s1, {}, slot, bsi);
    VacatedEnds(uni, st, arm, slot, bsi);
    FreedOk(uni, Vacated(s1, slot, bsi), slot);
  }

  lemma VacatedEnds(uni: Unicode, st: State, arm: bool, slot: nat, bsi: seq<Word>)
    requires AtRest(uni, st)
    ensures var s1 := Vacated(ArmedIf(st, arm), slot, bsi); s1.arenaEnd == |s1.foldedArena| && s1.namesEnd == |s1.nameArena|
  {
    hide StateOk;
  }

  lemma FreedOk(uni: Unicode, st: State, slot: nat)
    requires StateOk(uni, st, {} + {slot})
    ensures var s1 := st.(freeSlots := st.freeSlots + [slot]); StateOk(uni, s1, {}) && Contents(s1) == Contents(st)
  {
    hide RowsOk, EntriesOk, MapOk, RecsOk, LiveRecs, OwnerOk, NamesAscend, RankOk, LanesOk, HeadOk, BsiOk, ArenaNoted;
    hide LanesNoted, FreeOk, MarksOk, Files;
    FreeAfterPush(st.rows, st.freeSlots, {} + {slot}, slot);
    assert {} + {slot} - {slot} == {};
  }

  /** A rename keeps the file's flags. */
  lemma FileHeld(st: State, frn: nat)
    requires MapOk(st.rows, st.frnMap) && frn in st.frnMap
    ensures frn in Contents(st) && Contents(st)[frn].flags == st.rows[st.frnMap[frn]].flags
    ensures Contents(st)[frn].parent == st.rows[st.frnMap[frn]].parent
  {
  }

  // ---- the ledger ------------------------------------------------------------------

  function LedgerOf(st: State): Ledger
    requires MapOk(st.rows, st.frnMap)
  {
    Ledger(Contents(st), |st.nameArena|, |st.foldedArena|, |st.entries|)
  }

  /** The lengths a ledger records. */
  datatype Sizes = Sizes(names: nat, folded: nat, slots: nat)

  function SizesOf(st: State): Sizes {
    Sizes(|st.nameArena|, |st.foldedArena|, |st.entries|)
  }

  /** Free slots are the ones the file table leaves over. */
  lemma LedgerFacts(uni: Unicode, st: State)
    requires AtRest(uni, st)
    ensures |Contents(st)| == |st.frnMap| && |st.freeSlots| + |st.frnMap| == |st.entries|
    ensures forall f :: f in Contents(st) <==> f in st.frnMap
  {
    hide RowsOk, RecsOk, LiveRecs, OwnerOk, NamesAscend, RankOk, LanesOk, HeadOk, BsiOk, ArenaNoted, LanesNoted, FreeOk;
    hide MarksOk, EntriesOk, MapOk;
    MapOf(uni, st, {});
    FreeCount(st.rows, st.frnMap, st.freeSlots);
    FilesCount(st.rows, st.frnMap);
  }

  lemma StagedSizes(uni: Unicode, st: State, raw: string)
    requires AtRest(uni, st)
    ensures var name := StoredName(uni, raw);
            SizesOf(StagedFor(uni, st, raw)) == Sizes(|st.nameArena| + |Encode(name)|,
              |st.foldedArena| + |FoldedRecord(uni, name)| + (1 + if |st.foldedArena| == 0 then 1 else 0), |st.entries|)
  {
    hide StateOk, Encode, StoredName, FoldedRecord;
  }

  /** A create that went through is the ledger's step. */
  lemma CreateStep(uni: Unicode, st: State, st': State, frn: nat, parent: nat, raw: string, flags: Flags)
    requires AtRest(uni, st) && Usable(uni, raw) && HasRoom(uni, |st.nameArena|, |st.foldedArena|, raw)
    requires frn in st.frnMap || st.freeSlots != [] || |st.entries| < U32_MAX
    requires AtRest(uni, st')
    requires Contents(st') == (Contents(st) - {frn})[frn := FileOf(RowFor(uni, frn, parent, raw, flags))]
    requires SizesOf(st') ==
               SizesOf(StagedFor(uni, st, raw)).(
                 slots := if frn in st.frnMap || st.freeSlots != [] then |st.entries| else |st.entries| + 1)
    ensures LedgerOf(st') == Step(uni, LedgerOf(st), Create(frn, parent, raw, flags))
  {
    hide StateOk, Encode, StoredName, FoldedRecord, Contents, Usable, HasRoom;
    LedgerFacts(uni, st);
    StagedSizes(uni, st, raw);
    assert (Contents(st) - {frn})[frn := FileOf(RowFor(uni, frn, parent, raw, flags))] ==
             Contents(st)[frn := FileOf(RowFor(uni, frn, parent, raw, flags))];
  }

  lemma RenameStep(uni: Unicode, st: State, st': State, frn: nat, parent: nat, raw: string, flags: Flags)
    requires AtRest(uni, st) && Usable(uni, raw) && HasRoom(uni, |st.nameArena|, |st.foldedArena|, raw)
    requires frn in st.frnMap && flags == st.rows[st.frnMap[frn]].flags
    requires AtRest(uni, st')
    requires Contents(st') == (Contents(st) - {frn})[frn := FileOf(RowFor(uni, frn, parent, raw, flags))]
    requires SizesOf(st') == SizesOf(StagedFor(uni, st, raw))
    ensures LedgerOf(st') == Step(uni, LedgerOf(st), Rename(frn, parent, raw))
  {
    hide StateOk, Encode, StoredName, FoldedRecord, Contents, Usable, HasRoom;
    LedgerFacts(uni, st);
    FileHeld(st, frn);
    StagedSizes(uni, st, raw);
    assert (Contents(st) - {frn})[frn := FileOf(RowFor(uni, frn, parent, raw, flags))] ==
             Contents(st)[frn := FileOf(RowFor(uni, frn, parent, raw, flags))];
  }

  /** A create the index refuses leaves the ledger alone. */
  lemma RefusedStep(uni: Unicode, st: State, ev: Event)
    requires AtRest(uni, st)
    requires match ev
             case Create(frn, _, raw, _) =>
               !(Usable(uni, raw) && HasRoom(uni, |st.nameArena|, |st.foldedArena|, raw))
               || (frn !in st.frnMap && st.freeSlots == [] && |st.entries| >= U32_MAX)
             case Rename(frn, _, raw) =>
               frn !in st.frnMap || !(Usable(uni, raw) && HasRoom(uni, |st.nameArena|, |st.foldedArena|, raw))
             case Delete(frn) => frn !in st.frnMap
             case SecurityChange(_) => true
    ensures Step(uni, LedgerOf(st), ev) == LedgerOf(st)
  {
    hide StateOk, Encode, StoredName, FoldedRecord, Contents, Usable, HasRoom;
    LedgerFacts(uni, st);
  }

  /** The offsets interning hands back, as the fill expects them. */
  lemma InternedIs(uni: Unicode, st: State, raw: string, it: Interned)
    requires var name := StoredName(uni, raw);
             var folded := FoldedRecord(uni, name);
             it == Interned(st.namesEnd, |Encode(name)|, NextOff(st.arenaEnd), |folded|)
    ensures it == InternedFor(uni, st, raw)
    ensures StagedFor(uni, st, raw) == StagedName(st, Encode(StoredName(uni, raw)),
                                                  FoldedRecord(uni, StoredName(uni, raw)))
    ensures forall frn, parent, flags ::
              RowFor(uni, frn, parent, raw, flags).frn == frn && RowFor(uni, frn, parent, raw, flags).parent == parent
                                      && RowFor(uni, frn, parent, raw, flags).flags == flags.(dead := false)
  {
    hide Encode, StoredName, FoldedRecord;
  }
}
