/** What one journal event does to the cached depths nothing outstanding will look at again, told from the
    state before it. */
module Verdict {
  import opened Bytes
  import opened Utf8
  import opened Names
  import opened Ranking
  import opened Table
  import opened Records
  import opened Columns
  import opened Presence
  import opened ClassBits
  import opened Depth
  import opened Journal
  import opened IndexState
  import opened Repair
  import opened Shifts
  import Paths

  // ---- exactness, told from the file table -----------------------------------------------

  /** A live slot's cached depth is its file's depth in the abstract table. */
  predicate KeyRight(st: State, s: nat)
    requires MapOk(st.rows, st.frnMap) && s < |st.rows| && st.rows[s].Live?
  {
    && s < |st.rankKey| && st.rows[s].frn in Contents(st)
    && st.rankKey[s] as int % 128 == Paths.DepthIn(Contents(st), st.rows[s].frn, RANK_DEPTH_MAX)
  }

  lemma ExactIsRight(uni: Unicode, st: State, s: nat)
    requires AtRest(uni, st) && s < |st.rows| && st.rows[s].Live?
    ensures s < |st.entries| && !st.entries[s].flags.dead && MapLive(st.entries, st.frnMap)
    ensures st.rows[s].frn in Contents(st)
    ensures ExactDepth(st.entries, st.frnMap, st.rankKey, s) <==> KeyRight(st, s)
  {
    hide RowsOk, RecsOk, LiveRecs, OwnerOk, NamesAscend, RankOk, LanesOk, HeadOk, BsiOk, ArenaNoted, LanesNoted;
    hide FreeOk, MarksOk, EntriesOk, Files, MapLive, Encode;
    SweepShape(uni, st);
    LiveEntryFacts(st.rows, st.entries, st.nameArena, st.namesEnd, st.frnMap, s);
    SlotFacts(uni, st, s);
    Paths.StepsAreDepth(st.entries, st.rows, st.nameArena, st.namesEnd, st.frnMap, st.rows[s].frn, RANK_DEPTH_MAX);
  }

  /** A slot whose cached depth nothing outstanding will look at again: every one when no repair is armed,
      else the marked. */
  predicate Trusted(st: State, s: nat) {
    !st.repairArmed || DoneSlot(st, s)
  }

  /** Every settled live slot carries its file's depth. */
  ghost predicate TrustedRight(st: State)
    requires MapOk(st.rows, st.frnMap)
  {
    forall s: nat :: s < |st.rows| && st.rows[s].Live? && Trusted(st, s) ==> KeyRight(st, s)
  }

  /** The same, told from the columns. */
  predicate TrustedExact(st: State) {
    if st.repairArmed then MarkedExact(st) else DepthsExact(st)
  }

  lemma TrustedIsRight(uni: Unicode, st: State)
    requires AtRest(uni, st)
    ensures TrustedExact(st) <==> TrustedRight(st)
  {
    hide TableOk, ArenasOk, ColumnsOk, ExactDepth, KeyRight, MapLive;
    SweepShape(uni, st);
    forall s: nat | s < |st.rows|
      ensures st.rows[s].Live? <==> !st.entries[s].flags.dead
      ensures st.rows[s].Live? ==> (ExactDepth(st.entries, st.frnMap, st.rankKey, s) <==> KeyRight(st, s))
    {
      SlotFacts(uni, st, s);
      if st.rows[s].Live? {
        ExactIsRight(uni, st, s);
      }
    }
  }

  // ---- what an event does ------------------------------------------------------------------

  /** The slot a create fills: the FRN's own, else the last one freed, else the next. */
  function SlotFor(st: State, frn: nat): nat {
    if frn in st.frnMap then st.frnMap[frn]
    else if st.freeSlots != [] then st.freeSlots[|st.freeSlots| - 1]
    else |st.entries|
  }

  /** A held directory is about to change parent, which arms the repair anew. */
  predicate Reparents(st: State, frn: nat, parent: nat) {
    && frn in st.frnMap && st.frnMap[frn] < |st.entries|
    && st.entries[st.frnMap[frn]].flags.dir && st.entries[st.frnMap[frn]].parent != parent
  }

  predicate Deletes(st: State, frn: nat) {
    frn in st.frnMap && st.frnMap[frn] < |st.entries| && st.entries[st.frnMap[frn]].flags.dir
  }

  /** The index takes the event rather than dropping it. */
  predicate Accepts(uni: Unicode, st: State, ev: Event) {
    match ev
    case Create(frn, _, raw, _) =>
      && Usable(uni, raw) && HasRoom(uni, |st.nameArena|, |st.foldedArena|, raw)
      && (frn in st.frnMap || st.freeSlots != [] || |st.entries| < U32_MAX)
    case Rename(frn, _, raw) => frn in st.frnMap && Usable(uni, raw) && HasRoom(uni, |st.nameArena|, |st.foldedArena|, raw)
    case Delete(frn) => frn in st.frnMap
    case SecurityChange(_) => false
  }

  /** The columns the depth cache lives in, after one slot was written. `rewind` says whether a repair is
      rewound to it. */
  predicate Placed(st: State, st': State, slot: nat, row: Row, key: byte, arm: bool, rewind: bool) {
    && slot <= |st.rows| == |st.rankKey|
    && st'.rows == Put(st.rows, slot, row) && st'.rankKey == Put(st.rankKey, slot, key)
    && st'.repairArmed == (arm || st.repairArmed)
    && st'.repairState == (if arm then [] else st.repairState)
    && st'.repairCursor == Rewound(ArmedIf(st, arm), if rewind then slot else st.repairCursor).repairCursor
  }

  /** The key a file is registered with: one below its parent's cached depth, clamped. */
  function NewKey(st: State, frn: nat, parent: nat, flags: Flags, slot: nat): byte {
    KeyFor(StartDepth(st, frn, parent, slot), flags)
  }

  /** What an event leaves of the slots, the cached depths and the repair. */
  predicate Outcome(uni: Unicode, st: State, st': State, ev: Event) {
    if !Accepts(uni, st, ev) then st' == st
    else
      match ev
      case Create(frn, parent, raw, flags) =>
        var slot := SlotFor(st, frn);
        Placed(st, st', slot, RowFor(uni, frn, parent, raw, flags), NewKey(st, frn, parent, flags, slot),
               Reparents(st, frn, parent), true)
      case Rename(frn, parent, raw) =>
        var slot := st.frnMap[frn];
        && slot < |st.entries|
        && var flags := st.entries[slot].flags;
           Placed(st, st', slot, RowFor(uni, frn, parent, raw, flags), NewKey(st, frn, parent, flags, slot),
                  Reparents(st, frn, parent), false)
      case Delete(frn) => Placed(st, st', st.frnMap[frn], Vacant, 255, Deletes(st, frn), false)
      case SecurityChange(_) => true
  }

  // ---- from the slot an event takes to the outcome ---------------------------------------

  /** A slot made ready for `frn`: its own torn down, else one off the free list, else the next. */
  ghost predicate Taken(st: State, mid: State, frn: nat, parent: nat, slot: nat) {
    && slot == SlotFor(st, frn) && slot <= |st.rows| == |st.rankKey| == |mid.rankKey| == |mid.rows|
    && (forall f :: f in mid.frnMap <==> f in st.frnMap && f != frn)
    && (forall f :: f in mid.frnMap ==> mid.frnMap[f] == st.frnMap[f])
    && (forall k :: 0 <= k < |st.rows| && k != slot ==> mid.rows[k] == st.rows[k] && mid.rankKey[k] == st.rankKey[k])
    && mid.repairArmed == ArmedIf(st, Reparents(st, frn, parent)).repairArmed
    && mid.repairCursor == ArmedIf(st, Reparents(st, frn, parent)).repairCursor
    && mid.repairState == ArmedIf(st, Reparents(st, frn, parent)).repairState
  }

  /** Staging a name leaves the slots, the keys and the repair alone. */
  lemma TakenStaged(uni: Unicode, st: State, staged: State, raw: string, frn: nat, parent: nat)
    requires StagedReady(uni, st, staged, raw)
    ensures frn !in st.frnMap ==>
              Taken(st, staged, frn, parent, SlotFor(st, frn))
              && Taken(st, Popped(staged), frn, parent, SlotFor(st, frn))
    ensures |staged.rankKey| == |st.rankKey| == |st.rows| == |st.entries|
  {
    hide StateOk, StoredName, FoldedRecord, Encode, Usable, HasRoom;
    SweepShape(uni, st);
    FreeInTable(uni, st);
  }

  lemma FreeInTable(uni: Unicode, st: State)
    requires AtRest(uni, st)
    ensures forall i :: 0 <= i < |st.freeSlots| ==> st.freeSlots[i] < |st.rows| && st.rows[st.freeSlots[i]].Vacant?
    ensures |st.entries| == |st.rows|
  {
    hide RowsOk, EntriesOk, MapOk, ArenasOk, ColumnsOk, MarksOk;
    MapOf(uni, st, {});
  }

  lemma ArmIsReparent(st: State, staged: State, frn: nat, parent: nat)
    requires frn in st.frnMap && staged.entries == st.entries && st.frnMap[frn] < |st.entries|
    ensures Reparents(st, frn, parent) ==
            (staged.entries[st.frnMap[frn]].flags.dir && staged.entries[st.frnMap[frn]].parent != parent)
  {
  }

  lemma TakenTornDown(uni: Unicode, st: State, staged: State, raw: string, frn: nat, parent: nat, bsi: seq<Word>)
    requires StagedReady(uni, st, staged, raw) && frn in st.frnMap
    requires st.frnMap[frn] < |staged.entries|
    requires StateOk(uni, ArmedIf(staged, Reparents(st, frn, parent)), {})
    ensures Taken(st, Vacated(ArmedIf(staged, Reparents(st, frn, parent)), st.frnMap[frn], bsi), frn, parent,
                  st.frnMap[frn])
  {
    hide StateOk, StoredName, FoldedRecord, Encode, Usable, HasRoom, PutPiece, Splice, CanVacate;
    TakenStaged(uni, st, staged, raw, frn, parent);
    MapFacts(uni, st, frn);
    Vacatable(uni, ArmedIf(staged, Reparents(st, frn, parent)), {}, st.frnMap[frn]);
  }

  /** A fill of a taken slot, seen from before the event. */
  lemma FilledIsPlaced(uni: Unicode, st: State, mid: State, frn: nat, parent: nat, slot: nat, row: Row, e: Entry,
                       key: byte, d: Derived)
    requires Taken(st, mid, frn, parent, slot) && row.Live? && CanFill(mid, slot)
    ensures var st' := Filled(uni, mid, slot, row, e, key, d);
            && Placed(st, st', slot, row, key, Reparents(st, frn, parent), false)
            && Placed(st, Rewound(st', slot), slot, row, key, Reparents(st, frn, parent), true)
  {
    hide PutPiece, LaneFor, HeadFor, Reparents;
    assert Put(mid.rows, slot, row) == Put(st.rows, slot, row);
    assert Put(mid.rankKey, slot, key) == Put(st.rankKey, slot, key);
  }

  /** The start depth reads nothing the event has touched. */
  lemma SameStartDepth(uni: Unicode, st: State, mid: State, frn: nat, parent: nat, slot: nat)
    requires AtRest(uni, st) && Taken(st, mid, frn, parent, slot)
    ensures StartDepth(mid, frn, parent, slot) == StartDepth(st, frn, parent, slot)
  {
    hide StateOk, Reparents;
    FreeInTable(uni, st);
    MapOf(uni, st, {});
  }

  lemma TakenSlot(st: State, mid: State, frn: nat, parent: nat, slot: nat)
    requires Taken(st, mid, frn, parent, slot)
    ensures slot == SlotFor(st, frn)
  {
  }

  /** Registering a taken slot, and rewinding to it, seen from before the event. */
  lemma Registered(uni: Unicode, st: State, mid: State, pending: set<nat>, parent: nat, slot: nat, row: Row,
                   it: Interned, d: Derived)
    requires AtRest(uni, st) && Ready(uni, mid, pending, slot, row, it) && row.Live?
    requires Taken(st, mid, row.frn, parent, slot)
    ensures slot == SlotFor(st, row.frn)
    ensures var st' := Filled(uni, mid, slot, row, EntryFor(row, it), NewKey(mid, row.frn, parent, row.flags, slot), d);
            && Placed(st, st', slot, row, NewKey(st, row.frn, parent, row.flags, slot), Reparents(st, row.frn, parent),
                      false)
            && Placed(st, Rewound(st', slot), slot, row, NewKey(st, row.frn, parent, row.flags, slot),
                      Reparents(st, row.frn, parent), true)
  {
    hide AtRest, Ready, Taken, Filled, Placed, StartDepth, Rewound, Reparents, KeyFor, CanFill;
    TakenSlot(st, mid, row.frn, parent, slot);
    ReadyFacts(uni, mid, pending, slot, row, it);
    SameStartDepth(uni, st, mid, row.frn, parent, slot);
    FilledIsPlaced(uni, st, mid, row.frn, parent, slot, row, EntryFor(row, it),
                   NewKey(mid, row.frn, parent, row.flags, slot), d);
  }

  lemma CreateOutcome(uni: Unicode, st: State, st': State, slot: nat, frn: nat, parent: nat, raw: string, flags: Flags)
    requires Accepts(uni, st, Create(frn, parent, raw, flags)) && slot == SlotFor(st, frn)
    requires var row := RowFor(uni, frn, parent, raw, flags);
             Placed(st, st', slot, row, NewKey(st, frn, parent, row.flags, slot), Reparents(st, frn, parent), true)
    ensures Outcome(uni, st, st', Create(frn, parent, raw, flags))
  {
    hide Accepts, Placed, StartDepth, StoredName, FoldedRecord;
  }

  lemma RenameOutcome(uni: Unicode, st: State, st': State, slot: nat, frn: nat, parent: nat, raw: string)
    requires Accepts(uni, st, Rename(frn, parent, raw)) && slot == SlotFor(st, frn) && frn in st.frnMap
    requires slot < |st.entries|
    requires var row := RowFor(uni, frn, parent, raw, st.entries[slot].flags);
             Placed(st, st', slot, row, NewKey(st, frn, parent, row.flags, slot), Reparents(st, frn, parent), false)
    ensures Outcome(uni, st, st', Rename(frn, parent, raw))
  {
    hide Accepts, Placed, StartDepth, StoredName, FoldedRecord;
  }

  lemma RefusedOutcome(uni: Unicode, st: State, ev: Event)
    requires !Accepts(uni, st, ev)
    ensures Outcome(uni, st, st, ev)
  {
    hide Accepts;
  }

  lemma RowIs(uni: Unicode, frn: nat, parent: nat, raw: string, flags: Flags)
    ensures var row := RowFor(uni, frn, parent, raw, flags);
            row.frn == frn && row.parent == parent && row.flags == flags.(dead := false)
  {
    hide StoredName, FoldedRecord;
  }

  lemma StagedSlots(uni: Unicode, st: State, staged: State, raw: string)
    requires StagedReady(uni, st, staged, raw)
    ensures Usable(uni, raw) && HasRoom(uni, |st.nameArena|, |st.foldedArena|, raw) && AtRest(uni, st)
    ensures SizesOf(staged) == SizesOf(StagedFor(uni, st, raw)) && |staged.entries| == |st.entries|
  {
    hide StateOk, StoredName, FoldedRecord, Encode, Usable, HasRoom;
  }

  lemma IgnoredOutcome(uni: Unicode, st: State, ev: Event)
    requires ev.SecurityChange?
    ensures Outcome(uni, st, st, ev)
  {
  }

  lemma DeleteOutcome(uni: Unicode, st: State, frn: nat, bsi: seq<Word>)
    requires AtRest(uni, st) && frn in st.frnMap && StateOk(uni, ArmedIf(st, Deletes(st, frn)), {})
    ensures st.frnMap[frn] < |st.entries|
    ensures Outcome(uni, st, Freed(st, Deletes(st, frn), st.frnMap[frn], bsi), Delete(frn))
  {
    hide StateOk, PutPiece, Splice, CanVacate;
    SweepShape(uni, st);
    MapFacts(uni, st, frn);
    Vacatable(uni, ArmedIf(st, Deletes(st, frn)), {}, st.frnMap[frn]);
  }

  // ---- the verdict -----------------------------------------------------------------------

  /** Giving `frn` a file under `parent` in `slot` spoils no settled slot: it arms the repair anew; or the slot, if
      settled, starts at its true depth, and no other settled slot hangs below `frn` so that it moves. */
  ghost predicate PlacementKeeps(st: State, frn: nat, parent: nat, slot: nat)
    requires MapOk(st.rows, st.frnMap)
  {
    || Reparents(st, frn, parent)
    || (&& (Trusted(st, slot) ==> StartDepth(st, frn, parent, slot) == NewDepth(Contents(st), frn, parent))
        && forall s: nat :: s < |st.rows| && s != slot && st.rows[s].Live? && Trusted(st, s) ==>
          Unmoved(st, frn, parent, s))
  }

  predicate Unmoved(st: State, frn: nat, parent: nat, s: nat)
    requires MapOk(st.rows, st.frnMap) && s < |st.rows| && st.rows[s].Live?
  {
    st.rows[s].frn in Contents(st) && st.rows[s].frn != frn && KeepsDepth(Contents(st), frn, parent, st.rows[s].frn)
  }

  /** Deleting `frn` spoils no settled slot: it is a directory, which arms the repair anew, or nothing settled
      hangs below it. */
  ghost predicate RemovalKeeps(st: State, frn: nat)
    requires MapOk(st.rows, st.frnMap)
  {
    || Deletes(st, frn)
    || forall s: nat :: s < |st.rows| && st.rows[s].Live? && st.rows[s].frn != frn && Trusted(st, s) ==>
         st.rows[s].frn in Contents(st) && LinksTo(Contents(st), st.rows[s].frn, frn, RANK_DEPTH_MAX).None?
  }

  /** The event leaves every settled slot right, as far as the state before it can tell. */
  ghost predicate StaysExact(uni: Unicode, st: State, ev: Event)
    requires MapOk(st.rows, st.frnMap)
  {
    Accepts(uni, st, ev) ==>
      match ev
      case Create(frn, parent, _, _) => PlacementKeeps(st, frn, parent, SlotFor(st, frn))
      case Rename(frn, parent, _) => PlacementKeeps(st, frn, parent, st.frnMap[frn])
      case Delete(frn) => RemovalKeeps(st, frn)
      case SecurityChange(_) => true
  }

  lemma PlacementVerdict(uni: Unicode, st: State, st': State, slot: nat, row: Row, key: byte, rewind: bool)
    requires AtRest(uni, st) && AtRest(uni, st') && row.Live? && TrustedRight(st)
    requires Placed(st, st', slot, row, key, Reparents(st, row.frn, row.parent), rewind)
    requires slot < |st.rows| && st.rows[slot].Live? ==> st.rows[slot].frn == row.frn
    requires row.frn in st.frnMap ==> st.frnMap[row.frn] == slot
    requires Contents(st') == Contents(st)[row.frn := FileOf(row)]
    requires key as int % 128 == StartDepth(st, row.frn, row.parent, slot)
    ensures TrustedRight(st') <==> PlacementKeeps(st, row.frn, row.parent, slot)
  {
    hide StateOk, StartDepth, Reparents, KeepsDepth, NewDepth, KeyRight, Contents;
    if !Reparents(st, row.frn, row.parent) {
      forall s: nat | s < |st.rows| && s != slot && st.rows[s].Live? && Trusted(st, s)
        ensures KeyRight(st', s) <==> Unmoved(st, row.frn, row.parent, s)
      {
        OtherSlot(uni, st, st', slot, row, key, rewind, s);
      }
      NewSlot(uni, st, st', slot, row, key, rewind);
      assert forall s: nat :: Trusted(st', s) <==> Trusted(st, s);
    }
  }

  lemma OtherSlot(uni: Unicode, st: State, st': State, slot: nat, row: Row, key: byte, rewind: bool, s: nat)
    requires AtRest(uni, st) && AtRest(uni, st') && row.Live?
    requires Placed(st, st', slot, row, key, Reparents(st, row.frn, row.parent), rewind)
    requires row.frn in st.frnMap ==> st.frnMap[row.frn] == slot
    requires Contents(st') == Contents(st)[row.frn := FileOf(row)]
    requires s < |st.rows| && s != slot && st.rows[s].Live? && KeyRight(st, s)
    ensures s < |st'.rows| && st'.rows[s] == st.rows[s] && (KeyRight(st', s) <==> Unmoved(st, row.frn, row.parent, s))
  {
    hide StateOk, StartDepth, Reparents, KeepsDepth, NewDepth, Contents;
    KeepsDepthIs(Contents(st), row.frn, FileOf(row), st.rows[s].frn);
  }

  lemma NewSlot(uni: Unicode, st: State, st': State, slot: nat, row: Row, key: byte, rewind: bool)
    requires AtRest(uni, st) && AtRest(uni, st') && row.Live?
    requires Placed(st, st', slot, row, key, Reparents(st, row.frn, row.parent), rewind)
    requires Contents(st') == Contents(st)[row.frn := FileOf(row)]
    requires key as int % 128 == StartDepth(st, row.frn, row.parent, slot)
    ensures slot < |st'.rows| && st'.rows[slot] == row
    ensures KeyRight(st', slot) <==> StartDepth(st, row.frn, row.parent, slot) == NewDepth(Contents(st), row.frn,
                                                                                           row.parent)
  {
    hide StateOk, StartDepth, Reparents, Contents;
    NewDepthIs(Contents(st), row.frn, FileOf(row));
  }

  lemma RemovalVerdict(uni: Unicode, st: State, st': State, frn: nat)
    requires AtRest(uni, st) && AtRest(uni, st') && TrustedRight(st) && frn in st.frnMap
    requires Placed(st, st', st.frnMap[frn], Vacant, 255, Deletes(st, frn), false)
    requires Contents(st') == Contents(st) - {frn}
    ensures TrustedRight(st') <==> RemovalKeeps(st, frn)
  {
    hide StateOk, Deletes, LinksTo, KeyRight, Contents;
    if !Deletes(st, frn) {
      forall s: nat | s < |st.rows| && st.rows[s].Live? && st.rows[s].frn != frn && Trusted(st, s)
        ensures s < |st'.rows| && st'.rows[s] == st.rows[s]
        ensures KeyRight(st', s) <==>
                st.rows[s].frn in Contents(st) && LinksTo(Contents(st), st.rows[s].frn, frn, RANK_DEPTH_MAX).None?
      {
        LeftSlot(uni, st, st', frn, s);
      }
      assert forall s: nat :: Trusted(st', s) <==> Trusted(st, s);
    }
  }

  lemma LeftSlot(uni: Unicode, st: State, st': State, frn: nat, s: nat)
    requires AtRest(uni, st) && AtRest(uni, st') && frn in st.frnMap
    requires Placed(st, st', st.frnMap[frn], Vacant, 255, Deletes(st, frn), false)
    requires Contents(st') == Contents(st) - {frn}
    requires s < |st.rows| && st.rows[s].Live? && st.rows[s].frn != frn && KeyRight(st, s)
    ensures s < |st'.rows| && st'.rows[s] == st.rows[s]
    ensures KeyRight(st', s) <==> st.rows[s].frn in Contents(st) && LinksTo(Contents(st), st.rows[s].frn, frn,
                                                                            RANK_DEPTH_MAX).None?
  {
    hide StateOk, Deletes, LinksTo;
    RemovalIs(Contents(st), frn, st.rows[s].frn);
  }

  /** Given that every settled slot was exact before an event, every one is after it precisely if the
      event keeps them. */
  lemma EventVerdict(uni: Unicode, st: State, st': State, ev: Event)
    requires AtRest(uni, st) && AtRest(uni, st') && Outcome(uni, st, st', ev) && TrustedExact(st)
    requires LedgerOf(st') == Step(uni, LedgerOf(st), ev)
    ensures TrustedExact(st') <==> StaysExact(uni, st, ev)
  {
    hide StateOk, TrustedExact, TrustedRight, Placed, PlacementKeeps, RemovalKeeps, Contents, Usable, HasRoom, RowFor;
    hide StartDepth;
    TrustedIsRight(uni, st);
    TrustedIsRight(uni, st');
    if Accepts(uni, st, ev) {
      AcceptedContents(uni, st, st', ev);
      match ev
      case Create(frn, parent, raw, flags) =>
        SlotForFacts(uni, st, frn);
        PlacementVerdict(uni, st, st', SlotFor(st, frn), RowFor(uni, frn, parent, raw, flags),
                         NewKey(st, frn, parent, flags, SlotFor(st, frn)), true);
      case Rename(frn, parent, raw) =>
        SlotForFacts(uni, st, frn);
        var slot := st.frnMap[frn];
        PlacementVerdict(uni, st, st', slot, RowFor(uni, frn, parent, raw, st.entries[slot].flags),
                         NewKey(st, frn, parent, st.entries[slot].flags, slot), false);
      case Delete(frn) => RemovalVerdict(uni, st, st', frn);
      case SecurityChange(_) =>
    }
  }

  lemma SlotForFacts(uni: Unicode, st: State, frn: nat)
    requires AtRest(uni, st)
    ensures var slot := SlotFor(st, frn);
            && slot <= |st.rows| == |st.entries|
            && (slot < |st.rows| && st.rows[slot].Live? ==> st.rows[slot].frn == frn)
            && (frn in st.frnMap ==> st.frnMap[frn] == slot)
  {
    hide StateOk;
    FreeInTable(uni, st);
    MapOf(uni, st, {});
  }

  lemma AcceptedContents(uni: Unicode, st: State, st': State, ev: Event)
    requires AtRest(uni, st) && AtRest(uni, st') && Accepts(uni, st, ev) && Outcome(uni, st, st', ev)
    requires LedgerOf(st') == Step(uni, LedgerOf(st), ev)
    ensures match ev
            case Create(frn, parent, raw, flags) =>
              RowFor(uni, frn, parent, raw, flags).frn == frn && RowFor(uni, frn, parent, raw, flags).parent == parent
              && Contents(st') == Contents(st)[frn := FileOf(RowFor(uni, frn, parent, raw, flags))]
            case Rename(frn, parent, raw) =>
              frn in st.frnMap && st.frnMap[frn] < |st.entries|
              && var flags := st.entries[st.frnMap[frn]].flags;
                 RowFor(uni, frn, parent, raw, flags).frn == frn && RowFor(uni, frn, parent, raw, flags).parent ==
                   parent
                 && Contents(st') == Contents(st)[frn := FileOf(RowFor(uni, frn, parent, raw, flags))]
            case Delete(frn) => Contents(st') == Contents(st) - {frn}
            case SecurityChange(_) => true
  {
    hide StateOk, Placed, Contents, Usable, HasRoom, StoredName, FoldedRecord, Encode;
    LedgerFacts(uni, st);
    if ev.Rename? {
      MapFacts(uni, st, ev.frn);
      FileHeld(st, ev.frn);
    }
  }

  // ---- when the repair is armed, and which slot is taken ------------------------------------------

  /** An event arms the repair only by moving or deleting a held directory; a plain file's move or delete, a new file
      and a refused event leave it armed or not as it was. */
  lemma ArmedByDirectories(uni: Unicode, st: State, st': State, ev: Event)
    requires AtRest(uni, st) && AtRest(uni, st') && Outcome(uni, st, st', ev)
    requires LedgerOf(st') == Step(uni, LedgerOf(st), ev)
    ensures var files, after := Contents(st), Contents(st');
            var held := ev.frn in files && files[ev.frn].flags.dir;
            var goes := ev.Delete?;
            var moves := (ev.Create? || ev.Rename?) && Accepts(uni, st, ev) && ev.frn in files && ev.frn in after
                         && after[ev.frn].parent != files[ev.frn].parent;
            st'.repairArmed <==> st.repairArmed || (held && (goes || moves))
  {
    hide StateOk, Usable, HasRoom, StoredName, FoldedRecord, NewKey, Contents;
    LedgerFacts(uni, st);
    if ev.frn in st.frnMap {
      MapFacts(uni, st, ev.frn);
      FileHeld(st, ev.frn);
    }
    if Accepts(uni, st, ev) {
      AcceptedContents(uni, st, st', ev);
    } else {
      DeletesHeld(uni, st, ev);
    }
  }

  lemma DeletesHeld(uni: Unicode, st: State, ev: Event)
    requires AtRest(uni, st) && !Accepts(uni, st, ev)
    ensures ev.Delete? ==> ev.frn !in Contents(st)
  {
    hide StateOk, Usable, HasRoom, Contents;
    LedgerFacts(uni, st);
  }

  /** A created file takes the slot its FRN has, or else the slot freed last, or else a new one at the end. */
  lemma SlotTaken(uni: Unicode, st: State, st': State, frn: nat, parent: nat, name: string, flags: Flags)
    requires AtRest(uni, st) && AtRest(uni, st') && Accepts(uni, st, Create(frn, parent, name, flags))
    requires Outcome(uni, st, st', Create(frn, parent, name, flags))
    ensures frn in st'.frnMap
    ensures st'.frnMap[frn] ==
              if frn in st.frnMap then st.frnMap[frn]
              else if st.freeSlots != [] then st.freeSlots[|st.freeSlots| - 1]
              else |st.entries|
  {
    hide StateOk, Accepts, RowFor, NewKey;
    SlotForFacts(uni, st, frn);
    RowIs(uni, frn, parent, name, flags);
    MapOf(uni, st', {});
    assert st'.rows[SlotFor(st, frn)].frn == frn;
  }
}
