/** The depth cache across whole operations: full sweeps, the sliced repair, and what its carried-over marks promise. */
module Repair {
  import opened Bytes
  import opened Names
  import opened Ranking
  import opened Table
  import opened Records
  import opened Columns
  import opened Presence
  import opened ClassBits
  import opened Depth
  import opened Journal
  import opened IndexState

  /** Slots one repair slice visits. */
  const DEPTH_REPAIR_SLICE: nat := 65536

  /** An outstanding repair has settled every live slot below its cursor, and the slots in `also` with them. */
  predicate CursorOk(st: State, also: set<nat>) {
    st.repairArmed ==> forall s: nat ::
      s < st.repairCursor && s < |st.entries| && (!st.entries[s].flags.dead || s in also) ==>
      s < |st.repairState| && st.repairState[s].Done?
  }

  /** The promise but for one slot below the cursor, which a repair has to come back to. */
  predicate CursorBut(st: State, slot: nat) {
    st.repairArmed ==> forall s: nat ::
      s < st.repairCursor && s < |st.entries| && s != slot && !st.entries[s].flags.dead ==>
      s < |st.repairState| && st.repairState[s].Done?
  }

  lemma RewindRestores(st: State, slot: nat)
    requires CursorBut(st, slot)
    ensures CursorOk(Rewound(st, slot), {})
  {
  }

  // ---- events keep the cursor's promise ---------------------------------------------

  lemma CursorVacated(uni: Unicode, st: State, arm: bool, slot: nat, bsi: seq<Word>)
    requires CursorOk(st, {}) && CanVacate(st, slot) && !st.entries[slot].flags.dead
    ensures CursorOk(Vacated(ArmedIf(st, arm), slot, bsi), {slot})
  {
    hide PutPiece, Splice;
  }

  lemma CursorFilled(uni: Unicode, st: State, slot: nat, row: Row, e: Entry, key: byte, d: Derived)
    requires CursorOk(st, {slot}) && CanFill(st, slot) && row.Live? && st.repairCursor <= |st.entries|
    ensures CursorOk(Filled(uni, st, slot, row, e, key, d), {})
  {
    hide PutPiece, LaneFor, HeadFor;
  }

  /** Rewinding puts a recycled slot back in the sweep's way, so the promise holds without its mark. */
  lemma CursorRewound(uni: Unicode, st: State, slot: nat, row: Row, e: Entry, key: byte, d: Derived)
    requires CursorOk(st, {}) && CanFill(st, slot) && row.Live? && st.repairCursor <= |st.entries|
    ensures CursorOk(Rewound(Filled(uni, st, slot, row, e, key, d), slot), {})
  {
    hide PutPiece, LaneFor, HeadFor;
  }

  lemma CursorStaged(st: State, bytes: seq<byte>, folded: seq<byte>)
    requires CursorOk(st, {})
    ensures CursorOk(StagedName(st, bytes, folded), {})
  {
  }

  lemma CursorTornDown(uni: Unicode, st: State, arm: bool, slot: nat, bsi: seq<Word>)
    requires CursorOk(st, {}) && StateOk(uni, ArmedIf(st, arm), {}) && slot < |st.rows| && st.rows[slot].Live?
    ensures CursorOk(Vacated(ArmedIf(st, arm), slot, bsi), {slot})
  {
    hide StateOk, CursorOk, Vacated;
    Vacatable(uni, ArmedIf(st, arm), {}, slot);
    LiveIsNotDead(uni, ArmedIf(st, arm), slot);
    CursorVacated(uni, st, arm, slot, bsi);
  }

  lemma LiveIsNotDead(uni: Unicode, st: State, slot: nat)
    requires StateOk(uni, st, {}) && slot < |st.rows| && st.rows[slot].Live?
    ensures slot < |st.entries| && !st.entries[slot].flags.dead
  {
    hide RowsOk, RecsOk, LiveRecs, OwnerOk, NamesAscend, RankOk, LanesOk, HeadOk, BsiOk, ArenaNoted, LanesNoted, FreeOk;
    hide MarksOk, EntriesOk, MapOk;
    LiveEntryFacts(st.rows, st.entries, st.nameArena, st.namesEnd, st.frnMap, slot);
  }

  lemma CursorAdded(uni: Unicode, st: State, pending: set<nat>, slot: nat, row: Row, it: Interned, key: byte,
                    d: Derived)
    requires Ready(uni, st, pending, slot, row, it) && CursorOk(st, {})
    ensures CursorOk(Rewound(Filled(uni, st, slot, row, EntryFor(row, it), key, d), slot), {})
  {
    hide CursorOk, Filled, TableOk, ArenasOk, ColumnsOk, MarksOk;
    ReadyFacts(uni, st, pending, slot, row, it);
    CursorRewound(uni, st, slot, row, EntryFor(row, it), key, d);
  }

  lemma CursorRenamed(uni: Unicode, st: State, pending: set<nat>, slot: nat, row: Row, it: Interned, key: byte,
                      d: Derived)
    requires Ready(uni, st, pending, slot, row, it) && CursorOk(st, {slot})
    ensures CursorOk(Filled(uni, st, slot, row, EntryFor(row, it), key, d), {})
  {
    hide CursorOk, Filled, TableOk, ArenasOk, ColumnsOk, MarksOk;
    ReadyFacts(uni, st, pending, slot, row, it);
    CursorFilled(uni, st, slot, row, EntryFor(row, it), key, d);
  }

  lemma CursorFreed(uni: Unicode, st: State, arm: bool, slot: nat, bsi: seq<Word>)
    requires CursorOk(Vacated(ArmedIf(st, arm), slot, bsi), {slot})
    ensures CursorOk(Freed(st, arm, slot, bsi), {})
  {
    hide Vacated, ArmedIf;
  }

  lemma CursorPopped(st: State)
    requires CursorOk(st, {})
    ensures CursorOk(Popped(st), {})
  {
  }

  lemma CursorLess(st: State, slot: nat)
    requires CursorOk(st, {slot})
    ensures CursorOk(st, {})
  {
  }

  // ---- what a sweep leaves -----------------------------------------------------------

  /** Sweeps keep the penalty bits and leave tombstones alone. */
  predicate KeysKept(entries: seq<Entry>, key0: seq<byte>, key: seq<byte>) {
    && |key| == |key0|
    && (forall s :: 0 <= s < |key| ==> (key[s] >= RANK_PENALIZED <==> key0[s] >= RANK_PENALIZED))
    && (forall s :: 0 <= s < |key| && s < |entries| && entries[s].flags.dead ==> key[s] == key0[s])
  }

  lemma SweptKeys(entries: seq<Entry>, state0: seq<Mark>, key0: seq<byte>, state: seq<Mark>, key: seq<byte>,
                  pushed: seq<nat>)
    requires Swept(entries, state0, key0, state, key, pushed)
    ensures KeysKept(entries, key0, key) && MarksOk(state)
  {
  }

  /** The columns a sweep writes. */
  function Resettled(st: State, key: seq<byte>, armed: bool, cursor: nat, marks: seq<Mark>): State {
    st.(rankKey := key, repairArmed := armed, repairCursor := cursor, repairState := marks)
  }

  lemma SweptOk(uni: Unicode, st: State, key: seq<byte>, armed: bool, cursor: nat, marks: seq<Mark>)
    requires AtRest(uni, st) && KeysKept(st.entries, st.rankKey, key)
    requires |marks| <= |st.entries| && cursor <= |st.entries| && MarksOk(marks)
    ensures AtRest(uni, Resettled(st, key, armed, cursor, marks))
    ensures LedgerOf(Resettled(st, key, armed, cursor, marks)) == LedgerOf(st)
  {
    hide RowsOk, MapOk, RecsOk, LiveRecs, OwnerOk, NamesAscend, RankOk, LanesOk, HeadOk, BsiOk, ArenaNoted, LanesNoted;
    hide FreeOk, MarksOk, EntriesOk, Files, KeysKept;
    RankKept(st.entries, st.rows, st.nameArena, st.namesEnd, st.rankKey, key);
  }

  lemma RankKept(entries: seq<Entry>, rows: seq<Row>, names: seq<byte>, nend: nat, key0: seq<byte>, key: seq<byte>)
    requires EntriesOk(entries, rows, names, nend) && RankOk(rows, key0) && KeysKept(entries, key0, key)
    ensures RankOk(rows, key)
  {
    forall s | 0 <= s < |rows| ensures KeyOk(rows[s], key[s]) {
      assert EntryOk(entries[s], rows[s], names, nend);
    }
  }

  lemma SweepShape(uni: Unicode, st: State)
    requires AtRest(uni, st)
    ensures MapLive(st.entries, st.frnMap) && |st.entries| == |st.rows| == |st.rankKey|
    ensures |st.repairState| <= |st.entries| && st.repairCursor <= |st.entries| && MarksOk(st.repairState)
    ensures EntriesOk(st.entries, st.rows, st.nameArena, |st.nameArena|)
  {
    hide RowsOk, MapOk, RecsOk, LiveRecs, OwnerOk, NamesAscend, RankOk, LanesOk, HeadOk, BsiOk, ArenaNoted, LanesNoted;
    hide FreeOk, MarksOk, EntriesOk, MapLive;
    MapIsLive(st.entries, st.rows, st.nameArena, st.namesEnd, st.frnMap);
    TableShape(st.entries, st.rows, st.nameArena, st.namesEnd);
    ColumnsShape(uni, st.rows, st.rankKey, st.initials, st.head, st.bsi, st.bsiWords);
  }

  /** Every live slot's cached depth is the true one. */
  predicate DepthsExact(st: State) {
    MapLive(st.entries, st.frnMap) && AllLiveExact(st.entries, st.frnMap, st.rankKey)
  }

  /** Every live slot the outstanding repair has marked done carries its true depth. */
  predicate MarkedExact(st: State) {
    MapLive(st.entries, st.frnMap) && DoneExact(st.entries, st.frnMap, st.rankKey, st.repairState)
  }

  /** One slice neither repairs nor spoils an already marked slot; the last one decides the whole table. */
  lemma SliceOutcome(entries: seq<Entry>, frnMap: map<nat, nat>, state0: seq<Mark>, key0: seq<byte>, state: seq<Mark>,
                     key: seq<byte>,
                     pushed: seq<nat>, start: nat, end: nat)
    requires MapLive(entries, frnMap) && |state0| == |entries| == |key0| && start <= end <= |entries|
    requires Swept(entries, state0, key0, state, key, pushed)
    requires forall s :: 0 <= s < start && !entries[s].flags.dead ==> state0[s].Done?
    requires forall s :: start <= s < end && !entries[s].flags.dead ==> state[s].Done?
    requires DoneExact(entries, frnMap, key0, state0) ==> DoneExact(entries, frnMap, key, state)
    ensures DoneExact(entries, frnMap, key, state) <==> DoneExact(entries, frnMap, key0, state0)
    ensures forall s :: 0 <= s < end && !entries[s].flags.dead ==> state[s].Done?
    ensures end == |entries| ==> (AllLiveExact(entries, frnMap, key) <==> DoneExact(entries, frnMap, key0, state0))
  {
    hide RankDepth, Steps, Up;
    forall s | 0 <= s < |entries| && state0[s].Done? ensures state[s].Done? && key[s] == key0[s] {
      assert s !in pushed;
    }
  }

  /** The marks a slice starts from: slots appended since are unknown. */
  function Extended(marks: seq<Mark>, n: nat): seq<Mark>
    requires |marks| <= n
  {
    marks + Repeat(Unknown, n - |marks|)
  }

  lemma ExtendedFacts(entries: seq<Entry>, frnMap: map<nat, nat>, key: seq<byte>, marks: seq<Mark>)
    requires MapLive(entries, frnMap) && |marks| <= |entries| && MarksOk(marks)
    ensures MarksOk(Extended(marks, |entries|)) && |Extended(marks, |entries|)| == |entries|
    ensures DoneExact(entries, frnMap, key, Extended(marks, |entries|)) <==> DoneExact(entries, frnMap, key, marks)
    ensures forall s: nat :: s < |entries| ==> (Extended(marks, |entries|)[s].Done? <==> s < |marks| && marks[s].Done?)
  {
    var more := Extended(marks, |entries|);
    assert forall s :: 0 <= s < |marks| ==> more[s] == marks[s];
    hide ExactDepth;
  }

  lemma AllUnknown(entries: seq<Entry>, frnMap: map<nat, nat>, key: seq<byte>)
    requires MapLive(entries, frnMap)
    ensures MarksOk(Repeat(Unknown, |entries|)) && DoneExact(entries, frnMap, key, Repeat(Unknown, |entries|))
  {
  }

  lemma AllDone(entries: seq<Entry>, frnMap: map<nat, nat>, key: seq<byte>, state: seq<Mark>)
    requires MapLive(entries, frnMap) && DoneExact(entries, frnMap, key, state) && |state| >= |entries|
    requires forall s :: 0 <= s < |entries| && !entries[s].flags.dead ==> state[s].Done?
    ensures AllLiveExact(entries, frnMap, key)
  {
  }

  /** Exact depths leave the ranking column no freedom: a drained repair and a full sweep end with the same bytes. */
  lemma ExactKeysAgree(entries: seq<Entry>, frnMap: map<nat, nat>, key0: seq<byte>, key1: seq<byte>, key2: seq<byte>)
    requires MapLive(entries, frnMap) && |key0| == |entries|
    requires KeysKept(entries, key0, key1) && KeysKept(entries, key0, key2)
    requires AllLiveExact(entries, frnMap, key1) && AllLiveExact(entries, frnMap, key2)
    ensures key1 == key2
  {
    hide RankDepth;
    forall s | 0 <= s < |entries| ensures key1[s] == key2[s] {
      if !entries[s].flags.dead {
        assert ExactDepth(entries, frnMap, key1, s) && ExactDepth(entries, frnMap, key2, s);
        SplitKey(key1[s]);
        SplitKey(key2[s]);
      }
    }
  }

  lemma SplitKey(k: byte)
    ensures k as int == k as int % 128 + if k >= RANK_PENALIZED then 128 else 0
  {
  }

  lemma SweptShape(entries: seq<Entry>, state0: seq<Mark>, key0: seq<byte>, state: seq<Mark>, key: seq<byte>,
                   pushed: seq<nat>)
    requires Swept(entries, state0, key0, state, key, pushed)
    ensures |state| == |state0| && |key| == |key0|
  {
  }

  // ---- each slot is pushed at most once ----------------------------------------------

  function DoneSlot(st: State, s: nat): bool {
    s < |st.repairState| && st.repairState[s].Done?
  }

  /** Slots pushed between two states of one repair: distinct, not settled before, and settled after unless the
      repair is over. */
  ghost predicate Pushed(st: State, st': State, pushed: seq<nat>) {
    && Distinct(pushed)
    && (forall s :: s in pushed ==> s < |st.entries| && !DoneSlot(st, s) && (st'.repairArmed ==> DoneSlot(st', s)))
    && (st'.repairArmed ==> forall s: nat :: DoneSlot(st, s) ==> DoneSlot(st', s))
  }

  lemma PushedIs(st: State, marks0: seq<Mark>, marks: seq<Mark>, keys: seq<byte>, pushed: seq<nat>, more: bool,
                 end: nat)
    requires |st.repairState| <= |st.entries| && marks0 == Extended(st.repairState, |st.entries|)
    requires Swept(st.entries, marks0, st.rankKey, marks, keys, pushed)
    ensures Pushed(st, Resettled(st, keys, more, if more then end else 0, if more then marks else []), pushed)
  {
    forall s | s in pushed ensures s < |st.entries| && !DoneSlot(st, s) {
      assert s < |marks| && !marks0[s].Done?;
    }
    forall s: nat | DoneSlot(st, s) ensures s < |marks| && marks[s].Done? {
      assert marks0[s] == st.repairState[s];
    }
  }

  lemma NothingSwept(st: State)
    ensures Pushed(st, st, []) && Resettled(st, st.rankKey, st.repairArmed, st.repairCursor, st.repairState) == st
    ensures KeysKept(st.entries, st.rankKey, st.rankKey)
  {
  }

  lemma PushedNone(st: State)
    ensures Pushed(st, st, []) && Resettled(st, st.rankKey, st.repairArmed, st.repairCursor, st.repairState) == st
  {
  }

  lemma PushedMore(st: State, mid: State, st': State, pushed: seq<nat>, slice: seq<nat>)
    requires mid.repairArmed && mid.entries == st.entries
    requires Pushed(st, mid, pushed) && Pushed(mid, st', slice)
    ensures Pushed(st, st', pushed + slice)
  {
    forall i, j | 0 <= i < j < |pushed + slice| ensures (pushed + slice)[i] != (pushed + slice)[j] {
      if i < |pushed| <= j {
        assert pushed[i] in pushed && slice[j - |pushed|] in slice;
      }
    }
  }

  lemma PushedFacts(st: State, st': State, pushed: seq<nat>)
    requires Pushed(st, st', pushed)
    ensures Distinct(pushed) && forall s :: s in pushed ==>
              s < |st.entries| && !(s < |st.repairState| && st.repairState[s].Done?)
  {
  }

  lemma KeptRefl(st: State)
    ensures KeysKept(st.entries, st.rankKey, st.rankKey)
  {
  }

  lemma KeptTrans(entries: seq<Entry>, k0: seq<byte>, k1: seq<byte>, k2: seq<byte>)
    requires KeysKept(entries, k0, k1) && KeysKept(entries, k1, k2)
    ensures KeysKept(entries, k0, k2)
  {
  }

  // ---- the trigram set at finalize ------------------------------------------------------

  /** The live rows' folded texts, in slot order. */
  function LiveTexts(rows: seq<Row>): seq<seq<byte>> {
    if rows == [] then []
    else LiveTexts(rows[..|rows| - 1]) + if rows[|rows| - 1].Live? then [rows[|rows| - 1].folded] else []
  }

  /** Read every live record off the arena, in slot order. */
  method FoldedTexts(uni: Unicode, entries: seq<Entry>, arena: seq<byte>, ghost st: State)
    returns (texts: seq<seq<byte>>)
    requires AtRest(uni, st) && entries == st.entries && arena == st.foldedArena
    ensures texts == LiveTexts(st.rows)
  {
    hide AtRest, LiveTexts;
    texts := [];
    SweepShape(uni, st);
    LiveTextsNone();
    for s := 0 to |entries|
      invariant texts == LiveTexts(st.rows[..s])
    {
      SlotFacts(uni, st, s);
      LiveTextsSnoc(st.rows, s);
      var e := entries[s];
      if !e.flags.dead {
        texts := texts + [arena[e.foldedOff..e.foldedOff + e.foldedLen]];
      }
    }
    assert st.rows[..|st.rows|] == st.rows;
  }

  lemma LiveTextsNone()
    ensures LiveTexts([]) == []
  {
  }

  lemma LiveTextsSnoc(rows: seq<Row>, s: nat)
    requires s < |rows|
    ensures LiveTexts(rows[..s + 1]) == LiveTexts(rows[..s]) + if rows[s].Live? then [rows[s].folded] else []
  {
    assert rows[..s + 1][..s] == rows[..s];
  }

  /** An entry is dead exactly where its row is vacant; a live one spans its folded text. */
  lemma SlotFacts(uni: Unicode, st: State, s: nat)
    requires AtRest(uni, st) && s < |st.entries|
    ensures |st.entries| == |st.rows| && (st.entries[s].flags.dead <==> st.rows[s].Vacant?)
    ensures !st.entries[s].flags.dead ==>
              var e := st.entries[s];
              e.foldedOff + e.foldedLen <= |st.foldedArena| && st.foldedArena[e.foldedOff..e.foldedOff + e.foldedLen] ==
                st.rows[s].folded
  {
    hide RowsOk, RecsOk, LiveRecs, OwnerOk, NamesAscend, RankOk, LanesOk, HeadOk, BsiOk, ArenaNoted, LanesNoted, FreeOk;
    hide MarksOk, MapOk;
    assert EntryOk(st.entries[s], st.rows[s], st.nameArena, st.namesEnd);
    if st.rows[s].Live? {
      LiveRecordFacts(st.rows, st.entries, st.foldedArena, st.arenaEnd, st.arenaRecs, st.recOf, s);
    }
  }

  lemma {:induction false} TextsNoted(rows: seq<Row>, g: Grams)
    ensures AllNoted(g, LiveTexts(rows)) <==> ArenaNoted(rows, g)
  {
    hide Noted;
    if rows != [] {
      var n := |rows| - 1;
      TextsNoted(rows[..n], g);
      assert rows == rows[..n] + [rows[n]];
      assert forall i :: 0 <= i < |LiveTexts(rows[..n])| ==> LiveTexts(rows)[i] == LiveTexts(rows[..n])[i];
      assert rows[n].Live? ==> LiveTexts(rows)[|LiveTexts(rows[..n])|] == rows[n].folded;
      assert forall s :: 0 <= s < n ==> rows[..n][s] == rows[s];
    }
  }

  lemma NotedTexts(uni: Unicode, st: State)
    requires AtRest(uni, st)
    ensures AllNoted(st.arenaGrams, LiveTexts(st.rows))
  {
    hide RowsOk, RecsOk, LiveRecs, OwnerOk, NamesAscend, RankOk, LanesOk, HeadOk, BsiOk, ArenaNoted, LanesNoted, FreeOk;
    hide MarksOk, MapOk, EntriesOk, AllNoted;
    TextsNoted(st.rows, st.arenaGrams);
  }

  lemma GramsOk(uni: Unicode, st: State, grams: Grams)
    requires AtRest(uni, st) && AllNoted(grams, LiveTexts(st.rows))
    ensures AtRest(uni, st.(arenaGrams := grams)) && LedgerOf(st.(arenaGrams := grams)) == LedgerOf(st)
    ensures CursorOk(st, {}) ==> CursorOk(st.(arenaGrams := grams), {})
  {
    hide RowsOk, RecsOk, LiveRecs, OwnerOk, NamesAscend, RankOk, LanesOk, HeadOk, BsiOk, ArenaNoted, LanesNoted, FreeOk;
    hide MarksOk, MapOk, EntriesOk, AllNoted, Files;
    TextsNoted(st.rows, grams);
  }

  lemma BitsOf(uni: Unicode, st: State)
    requires AtRest(uni, st)
    ensures BsiOk(st.rows, st.bsi, st.bsiWords) && SliceShape(st.bsi, st.bsiWords) && |st.rows| <= 64 * st.bsiWords
  {
    hide TableOk, ArenasOk, RankOk, LanesOk, HeadOk, ArenaNoted, LanesNoted, MarksOk, SliceShape;
  }
}
