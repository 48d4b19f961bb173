/** The in-memory filename index of one volume: one logical FRN map held as a dozen columns, updated in place. */
module VolumeIndex {
  import opened Bytes
  import opened Utf8
  import opened Names
  import opened Ranking
  import opened Table
  import opened Records
  import opened Columns
  import opened Presence
  import opened ClassBits
  import opened Depth
  import opened IndexState
  import opened Journal
  import opened Repair
  import opened Verdict
  import Paths
  import opened Compaction
  import opened ArenaMove
  import opened Refill
  import opened Polling
  import FuzzyTier
  import FuzzyScan
  import Reference
  import TieredSearch
  import Answering

  /** The slot table: entries and the map, counters and free list over them. */
  datatype SlotTable = SlotTable(entries: seq<Entry>, frnMap: map<nat, nat>, liveCount: nat, freeSlots: seq<nat>,
                                 deadBytes: nat)

  /** Both arenas, and the record table and block index of the folded one. */
  datatype Arenas = Arenas(nameArena: seq<byte>, foldedArena: seq<byte>, arenaRecs: seq<ArenaRec>, owner: seq<nat>)

  /** The fixed-stride columns. */
  datatype Strides = Strides(rankKey: seq<byte>, initials: seq<byte>, head: seq<byte>)

  /** What lets a query skip work: class slices and presence sets. */
  datatype Gates = Gates(bsi: seq<Word>, bsiWords: nat, arenaGrams: Grams, laneGrams: Grams)

  /** An outstanding depth repair. */
  datatype RepairRun = RepairRun(repairArmed: bool, repairCursor: nat, repairState: seq<Mark>)

  class VolumeIndex {
    const uni: Unicode
    const rootPath: string

    var slots: SlotTable
    var text: Arenas
    var strides: Strides
    var gates: Gates
    var repair: RepairRun

    /** Specification state: each slot's row, each live slot's record, and how far the tables describe the arenas. */
    ghost var spec: Spec

    /** All the fields as one value. */
    ghost function Snap(): State
      reads this
    {
      State(slots.entries, text.nameArena, text.foldedArena, slots.frnMap, slots.liveCount, slots.freeSlots,
            slots.deadBytes, strides.rankKey, text.arenaRecs, text.owner,
            strides.initials, strides.head, gates.bsi, gates.bsiWords, gates.arenaGrams, gates.laneGrams,
            repair.repairArmed, repair.repairCursor, repair.repairState,
            spec.rows, spec.recOf, spec.arenaEnd, spec.namesEnd)
    }

    ghost predicate Valid()
      reads this
    {
      AtRest(uni, Snap()) && CursorOk(Snap(), {})
    }

    constructor (uni: Unicode, rootPath: string)
      ensures Valid() && Snap() == Empty() && this.uni == uni && this.rootPath == rootPath
    {
      hide AtRest;
      EmptyAtRest(uni);
      assert CursorOk(Empty(), {});
      this.uni, this.rootPath := uni, rootPath;
      slots := SlotTable([], map[], 0, [], 0);
      text := Arenas([], [], [], []);
      strides := Strides([], [], []);
      gates := Gates([], 0, Grams({}, {}, Some({})), Grams({}, {}, None));
      repair := RepairRun(false, 0, []);
      spec := Spec([], map[], 0, 0);
    }

    // ---- interning -----------------------------------------------------------------

    /** Append a name and its folded record to the arenas; nothing is written until every test has passed. */
    method Intern(raw: string) returns (r: Option<Interned>)
      requires Valid()
      modifies this`text
      ensures StateOk(uni, Snap(), {})
      ensures r.Some? <==> Usable(uni, raw) && HasRoom(uni, |old(text.nameArena)|, |old(text.foldedArena)|, raw)
      ensures r.None? ==> Snap() == old(Snap())
      ensures r.Some? ==>
                var name := StoredName(uni, raw);
                var folded := FoldedRecord(uni, name);
                && r.value == Interned(spec.namesEnd, |Encode(name)|, NextOff(spec.arenaEnd), |folded|)
                && Snap() == StagedName(old(Snap()), Encode(name), folded)
                && Staged(text.foldedArena, spec.arenaEnd, folded)
      ensures CursorOk(Snap(), {})
    {
      hide StateOk, StoredName, FoldedRecord, Encode, NoControl, Staged, CursorOk;
      ghost var before := Snap();
      var name := StoredName(uni, raw);
      if name == [] {
        return None;
      }
      var folded := FoldedRecord(uni, name);
      if folded == [] || !NoControl(folded) {
        return None;
      }
      var bytes := Encode(name);
      var fences := 1 + if text.foldedArena == [] then 1 else 0;
      if |text.nameArena| + |bytes| > U32_MAX || |text.foldedArena| + |folded| + fences > U32_MAX {
        return None;
      }
      StageOk(uni, before, bytes, folded);
      CursorStaged(before, bytes, folded);
      var nameOff := |text.nameArena|;
      text := text.(nameArena := text.nameArena + bytes);
      if text.foldedArena == [] {
        text := text.(foldedArena := text.foldedArena + [DELIM]);
      }
      var foldedOff := |text.foldedArena|;
      text := text.(foldedArena := text.foldedArena + folded);
      text := text.(foldedArena := text.foldedArena + [DELIM]);
      r := Some(Interned(nameOff, |bytes|, foldedOff, |folded|));
      assert Snap() == StagedName(before, bytes, folded);
    }

    // ---- the two mutation choke points ------------------------------------------------

    /** Tombstone `slot`. The freelist push is the caller's. */
    method UnregisterSlot(slot: nat, ghost pending: set<nat>)
      requires StateOk(uni, Snap(), pending) && slot < |spec.rows| && spec.rows[slot].Live?
      modifies this
      ensures Snap() == Vacated(old(Snap()), slot, gates.bsi) && StateOk(uni, Snap(), pending + {slot})
      ensures SizesOf(Snap()) == SizesOf(old(Snap())) && slots.freeSlots == old(slots.freeSlots)
    {
      hide StateOk, Contents, ClassMask, Splice, PutPiece, CanVacate, BsiOk, Repeat;
      ghost var before := Snap();
      Vacatable(uni, before, pending, slot);
      var e := slots.entries[slot];
      // The class mask is read from the still-live record, before the erase below.
      var mask := ClassMask(text.foldedArena[e.foldedOff..e.foldedOff + e.foldedLen]);
      var cleared := ClearSlot(gates.bsi, gates.bsiWords, slot, mask, spec.rows);
      VacateOk(uni, before, pending, slot, cleared);
      slots := slots.(entries := slots.entries[slot := e.(flags := e.flags.(dead := true))],
                      frnMap := slots.frnMap - {e.frn});
      // The worst ranking key, an all-NUL lane and an all-NUL head pair: no pass can mistake the slot for a live one.
      strides := Strides(strides.rankKey[slot := 255],
                         PutPiece(strides.initials, 8 * slot, Repeat(DELIM, INITIALS_STRIDE)),
                         PutPiece(strides.head, 2 * slot, [DELIM, DELIM]));
      gates := gates.(bsi := cleared);
      text := text.(foldedArena := Splice(text.foldedArena, e.foldedOff, Repeat(DELIM, e.foldedLen)));
      slots := slots.(deadBytes := slots.deadBytes + (e.nameLen + e.foldedLen), liveCount := slots.liveCount - 1);
      spec := Spec(before.rows[slot := Vacant], before.recOf - {slot}, before.arenaEnd, before.namesEnd);
      assert Snap() == Vacated(before, slot, cleared);
    }

    /** Bind `slot` to a live entry: write every column, publish the staged record, and map the FRN. */
    method RegisterSlot(slot: nat, frn: nat, parent: nat, it: Interned, attrs: Flags, ghost pending: set<nat>,
                        ghost row: Row)
      requires Ready(uni, Snap(), pending, slot, row, it)
      requires row.frn == frn && row.parent == parent && row.flags == attrs.(dead := false)
      modifies this
      ensures Snap() == Filled(uni, old(Snap()), slot, row, EntryFor(row, it),
                               KeyFor(StartDepth(old(Snap()), frn, parent, slot), row.flags),
                               Derived(text.arenaRecs, text.owner, gates.bsi, gates.bsiWords, gates.arenaGrams, gates.laneGrams))
      ensures StateOk(uni, Snap(), pending - {slot}) && spec.arenaEnd == |text.foldedArena|
      ensures spec.namesEnd == |text.nameArena|
      ensures SizesOf(Snap()) ==
                SizesOf(old(Snap())).(slots := if slot == |old(slots.entries)| then slot + 1 else |old(slots.entries)|)
      ensures old(MapOk(spec.rows, slots.frnMap)) && MapOk(spec.rows, slots.frnMap)
      ensures Contents(Snap()) == Contents(old(Snap()))[frn := FileOf(row)]
    {
      hide Ready, StateOk, Contents, CanFill, PutPiece, Put, Encode, Filled, StartDepth, MapOk;
      ghost var before := Snap();
      ReadyFacts(uni, before, pending, slot, row, it);
      ReadyMap(uni, before, pending, slot, row, it);
      var depth := ParentDepth(before, slots.frnMap, strides.rankKey, frn, parent, slot);
      var key := KeyFor(depth, attrs);
      var e := Entry(frn, parent, it.nameOff, it.nameLen, it.foldedOff, it.foldedLen, attrs.(dead := false));
      var lane, pair, d := Derive(uni, before, pending, slot, row, it, key,
                                  text.nameArena[it.nameOff..it.nameOff + it.nameLen],
                                  text.foldedArena[it.foldedOff..it.foldedOff + it.foldedLen],
                                  gates.bsi, gates.bsiWords, gates.arenaGrams, gates.laneGrams, text.arenaRecs, text.owner, |text.foldedArena|);
      slots := slots.(entries := Put(slots.entries, slot, e), frnMap := slots.frnMap[frn := slot],
                      liveCount := slots.liveCount + 1);
      strides := Strides(Put(strides.rankKey, slot, key), PutPiece(strides.initials, 8 * slot, lane),
                         PutPiece(strides.head, 2 * slot, pair));
      gates := Gates(d.bsi, d.bsiWords, d.arenaGrams, d.laneGrams);
      text := text.(arenaRecs := d.arenaRecs, owner := d.owner);
      spec := Spec(Put(before.rows, slot, row), before.recOf[slot := |before.arenaRecs|], |text.foldedArena|,
                   |text.nameArena|);
      FilledIs(uni, before, slot, row, EntryFor(row, it), key, d);
      assert Snap() == Filled(uni, before, slot, row, EntryFor(row, it), key, d);
      MapOf(uni, Snap(), pending - {slot});
      FilledSizes(uni, before, slot, row, EntryFor(row, it), key, d);
    }

    // ---- events ------------------------------------------------------------------------

    /** A directory about to change parent shifts every descendant's depth. */
    method NoteReparent(slot: nat, newParent: nat)
      requires slot < |slots.entries|
      modifies this`repair
      ensures Snap() == ArmedIf(old(Snap()), slots.entries[slot].flags.dir && slots.entries[slot].parent != newParent)
    {
      var e := slots.entries[slot];
      if e.flags.dir && e.parent != newParent {
        repair := RepairRun(true, 0, []);
      }
    }

    /** Rewind an outstanding repair to a reused slot. The slot's mark, if any, stays. */
    method ResweepRecycled(slot: nat)
      modifies this`repair
      ensures Snap() == Rewound(old(Snap()), slot)
      ensures CursorBut(old(Snap()), slot) ==> CursorOk(Snap(), {})
      ensures repair.repairArmed == old(repair.repairArmed) && repair.repairState == old(repair.repairState)
      ensures repair.repairCursor == if repair.repairArmed then Min(old(repair.repairCursor), slot)
              else old(repair.repairCursor)
    {
      hide CursorBut, CursorOk;
      if CursorBut(Snap(), slot) {
        RewindRestores(Snap(), slot);
      }
      if repair.repairArmed && slot < repair.repairCursor {
        repair := repair.(repairCursor := slot);
      }
    }

    /** Under a staged name, tear down the slot an FRN already holds. */
    method Teardown(slot: nat, frn: nat, parent: nat, ghost before: State, ghost name: string, ghost attrs: Flags)
      requires StagedReady(uni, before, Snap(), name) && frn in before.frnMap && slot == before.frnMap[frn]
      requires CursorOk(Snap(), {})
      modifies this
      ensures Ready(uni, Snap(), {slot}, slot, RowFor(uni, frn, parent, name, attrs), InternedFor(uni, before, name))
      ensures MapOk(before.rows, before.frnMap) && MapOk(spec.rows, slots.frnMap)
      ensures Contents(Snap()) == Contents(before) - {frn}
      ensures slot < |slots.entries| && SizesOf(Snap()) == SizesOf(old(Snap())) && CursorOk(Snap(), {slot})
      ensures Taken(before, Snap(), frn, parent, slot)
    {
      hide Taken, Reparents;
      hide StateOk, Contents, StagedReady, RowFor, InternedFor, Vacated, ArmedIf, Ready, CursorOk;
      ghost var staged := Snap();
      StagedShape(uni, before, staged, name);
      ghost var arm := slots.entries[slot].flags.dir && slots.entries[slot].parent != parent;
      NoteReparent(slot, parent);
      ReuseStart(uni, before, staged, arm, frn, name);
      ArmIsReparent(before, staged, frn, parent);
      UnregisterSlot(slot, {});
      TakenTornDown(uni, before, staged, name, frn, parent, gates.bsi);
      ReuseSlot(uni, before, staged, arm, gates.bsi, frn, parent, name, attrs);
      CursorTornDown(uni, staged, arm, slot, gates.bsi);
      ReadyMap(uni, Snap(), {slot}, slot, RowFor(uni, frn, parent, name, attrs), InternedFor(uni, before, name));
    }

    /** The slot a create fills: the FRN's own, torn down first, else a recycled one, else the next. */
    method TakeSlot(frn: nat, parent: nat, ghost before: State, ghost name: string, ghost attrs: Flags)
      returns (slot: nat, ghost pending: set<nat>)
      requires CursorOk(Snap(), {})
      requires StagedReady(uni, before, Snap(), name)
      requires (frn in slots.frnMap || slots.freeSlots != [] || |slots.entries| < U32_MAX)
      modifies this
      ensures pending <= {slot} && SizesOf(Snap()) == SizesOf(old(Snap())) && CursorOk(Snap(), {})
      ensures slot == |slots.entries| <==> frn !in before.frnMap && before.freeSlots == []
      ensures Ready(uni, Snap(), pending, slot, RowFor(uni, frn, parent, name, attrs), InternedFor(uni, before, name))
      ensures MapOk(before.rows, before.frnMap) && MapOk(spec.rows, slots.frnMap)
      ensures Contents(Snap()) == Contents(before) - {frn}
      ensures Taken(before, Snap(), frn, parent, slot)
    {
      hide Taken;
      hide StateOk, Contents, StagedReady, RowFor, InternedFor, Vacated, Popped, ArmedIf, Ready, CursorOk;
      ghost var staged := Snap();
      StagedShape(uni, before, staged, name);
      TakenStaged(uni, before, staged, name, frn, parent);
      if frn in slots.frnMap {
        slot, pending := slots.frnMap[frn], {slots.frnMap[frn]};
        Teardown(slot, frn, parent, before, name, attrs);
        CursorLess(Snap(), slot);
      } else if slots.freeSlots != [] {
        slot, pending := slots.freeSlots[|slots.freeSlots| - 1], {slots.freeSlots[|slots.freeSlots| - 1]};
        ReadyRecycled(uni, before, staged, frn, parent, name, attrs);
        slots := slots.(freeSlots := slots.freeSlots[..|slots.freeSlots| - 1]);
        PoppedIs(staged);
        CursorPopped(staged);
        NotHeld(before, frn);
      } else {
        slot, pending := |slots.entries|, {};
        ReadyFresh(uni, before, staged, frn, parent, name, attrs);
        StagedReadyOk(uni, before, staged, name);
        NotHeld(before, frn);
      }
      ReadyMap(uni, Snap(), pending, slot, RowFor(uni, frn, parent, name, attrs), InternedFor(uni, before, name));
    }

    /** Registering keeps the repair cursor's promise, given its slot's mark or a rewind. */
    lemma FilledCursor(before: State, pending: set<nat>, slot: nat, frn: nat, parent: nat, row: Row, it: Interned)
      requires Ready(uni, before, pending, slot, row, it) && row.Live?
      requires Snap() ==
                 Filled(uni, before, slot, row, EntryFor(row, it), KeyFor(StartDepth(before, frn, parent, slot), row.flags),
                                Derived(text.arenaRecs, text.owner, gates.bsi, gates.bsiWords, gates.arenaGrams, gates.laneGrams))
      ensures CursorOk(before, {}) ==> CursorOk(Rewound(Snap(), slot), {})
      ensures CursorOk(before, {slot}) ==> CursorOk(Snap(), {})
    {
      hide CursorOk, Ready, Filled, Rewound, EntryFor;
      var key := KeyFor(StartDepth(before, frn, parent, slot), row.flags);
      var d := Derived(text.arenaRecs, text.owner, gates.bsi, gates.bsiWords, gates.arenaGrams, gates.laneGrams);
      if CursorOk(before, {}) {
        CursorAdded(uni, before, pending, slot, row, it, key, d);
      }
      if CursorOk(before, {slot}) {
        CursorRenamed(uni, before, pending, slot, row, it, key, d);
      }
    }

    /** Create, or NTFS reusing a record we hold: an existing FRN is torn down and re-registered in its slot. */
    method AddEntry(frn: nat, parent: nat, name: string, attrs: Flags)
      requires Valid()
      modifies this
      ensures Valid()
      ensures LedgerOf(Snap()) == Step(uni, LedgerOf(old(Snap())), Create(frn, parent, name, attrs))
      ensures Outcome(uni, old(Snap()), Snap(), Create(frn, parent, name, attrs))
    {
      ghost var before := Snap();
      ghost var ev := Create(frn, parent, name, attrs);
      hide StateOk, Contents, StoredName, FoldedRecord, Usable, HasRoom, Encode, StagedName, Staged, NextOff;
      hide LedgerOf, Step, CursorOk, Outcome;
      if frn !in slots.frnMap && slots.freeSlots == [] && |slots.entries| >= U32_MAX {
        RefusedStep(uni, before, ev);
        RefusedOutcome(uni, before, ev);
        return;
      }
      var interned := Intern(name);
      if interned.None? {
        RefusedStep(uni, before, ev);
        RefusedOutcome(uni, before, ev);
        return;
      }
      InternedIs(uni, before, name, interned.value);
      PlaceEntry(frn, parent, interned.value, attrs, before, name);
    }

    /** The rest of a create: take a slot, register the staged name in it, and rewind the repair to it. */
    method PlaceEntry(frn: nat, parent: nat, it: Interned, attrs: Flags, ghost before: State, ghost name: string)
      requires StagedReady(uni, before, Snap(), name) && it == InternedFor(uni, before, name) && CursorOk(Snap(), {})
      requires frn in slots.frnMap || slots.freeSlots != [] || |slots.entries| < U32_MAX
      modifies this
      ensures Valid()
      ensures LedgerOf(Snap()) == Step(uni, LedgerOf(before), Create(frn, parent, name, attrs))
      ensures Outcome(uni, before, Snap(), Create(frn, parent, name, attrs))
    {
      hide StateOk, Contents, RowFor, InternedFor, StoredName, FoldedRecord, Usable, HasRoom, Encode, StagedName;
      hide Staged, Filled, Ready, NextOff, StartDepth;
      hide LedgerOf, Step, CursorOk, Taken, Placed, Reparents, Outcome;
      RowIs(uni, frn, parent, name, attrs);
      StagedShape(uni, before, Snap(), name);
      StagedSlots(uni, before, Snap(), name);
      var slot;
      ghost var pending;
      slot, pending := TakeSlot(frn, parent, before, name, attrs);
      ghost var taken := Snap();
      ghost var row := RowFor(uni, frn, parent, name, attrs);
      RegisterSlot(slot, frn, parent, it, attrs, pending, row);
      assert pending - {slot} == {};
      CreateStep(uni, before, Snap(), frn, parent, name, attrs);
      FilledCursor(taken, pending, slot, frn, parent, row, it);
      RewoundOk(uni, Snap(), slot);
      Registered(uni, before, taken, pending, parent, slot, row, it,
                 Derived(text.arenaRecs, text.owner, gates.bsi, gates.bsiWords, gates.arenaGrams, gates.laneGrams));
      ResweepRecycled(slot);
      CreateOutcome(uni, before, Snap(), slot, frn, parent, name, attrs);
    }

    /** Deleting a directory shifts its surviving descendants, so it arms the repair; the slot joins the free list. */
    method RemoveEntry(frn: nat)
      requires Valid()
      modifies this
      ensures Valid()
      ensures LedgerOf(Snap()) == Step(uni, LedgerOf(old(Snap())), Delete(frn))
      ensures Outcome(uni, old(Snap()), Snap(), Delete(frn))
    {
      ghost var before := Snap();
      hide StateOk, Contents, Vacated, ArmedIf, CursorOk, Placed;
      MapOf(uni, before, {});
      if frn !in slots.frnMap {
        NotHeld(before, frn);
        return;
      }
      MapFacts(uni, before, frn);
      var slot := slots.frnMap[frn];
      var arm := slots.entries[slot].flags.dir;
      ArmDepthRepairIf(arm);
      ArmedShape(uni, before, {}, arm);
      UnregisterSlot(slot, {});
      RemoveOk(uni, before, arm, frn, gates.bsi);
      CursorTornDown(uni, before, arm, slot, gates.bsi);
      CursorFreed(uni, before, arm, slot, gates.bsi);
      slots := slots.(freeSlots := slots.freeSlots + [slot]);
      FreedIs(before, arm, slot, gates.bsi);
      DeleteOutcome(uni, before, frn, gates.bsi);
    }

    method ArmDepthRepairIf(arm: bool)
      modifies this`repair
      ensures Snap() == ArmedIf(old(Snap()), arm)
    {
      if arm {
        repair := RepairRun(true, 0, []);
      }
    }

    /** A rename keeps the file's attributes and re-registers its slot; the repair is not rewound to it. */
    method RenameEntry(frn: nat, newParent: nat, newName: string)
      requires Valid()
      modifies this
      ensures Valid()
      ensures LedgerOf(Snap()) == Step(uni, LedgerOf(old(Snap())), Rename(frn, newParent, newName))
      ensures Outcome(uni, old(Snap()), Snap(), Rename(frn, newParent, newName))
    {
      ghost var before := Snap();
      ghost var ev := Rename(frn, newParent, newName);
      hide StateOk, Contents, RowFor, InternedFor, StoredName, FoldedRecord, Usable, HasRoom, Encode, StagedName;
      hide Staged, Filled, Ready, NextOff, StartDepth;
      hide LedgerOf, Step, CursorOk, Taken, Placed, Reparents;
      if frn !in slots.frnMap {
        RefusedStep(uni, before, ev);
        return;
      }
      var interned := Intern(newName);
      if interned.None? {
        RefusedStep(uni, before, ev);
        return;
      }
      InternedIs(uni, before, newName, interned.value);
      MapFacts(uni, before, frn);
      var slot := slots.frnMap[frn];
      var attrs := slots.entries[slot].flags;
      Teardown(slot, frn, newParent, before, newName, attrs);
      ghost var torn := Snap();
      RegisterSlot(slot, frn, newParent, interned.value, attrs, {slot}, RowFor(uni, frn, newParent, newName, attrs));
      assert {slot} - {slot} == {};
      RenameStep(uni, before, Snap(), frn, newParent, newName, attrs);
      FilledCursor(torn, {slot}, slot, frn, newParent, RowFor(uni, frn, newParent, newName, attrs), interned.value);
      Registered(uni, before, torn, {slot}, newParent, slot, RowFor(uni, frn, newParent, newName, attrs), interned.value,
                 Derived(text.arenaRecs, text.owner, gates.bsi, gates.bsiWords, gates.arenaGrams, gates.laneGrams));
      RenameOutcome(uni, before, Snap(), slot, frn, newParent, newName);
    }

    /** Apply one decoded journal event. */
    method Apply(ev: Event)
      requires Valid()
      modifies this
      ensures Valid()
      ensures LedgerOf(Snap()) == Step(uni, LedgerOf(old(Snap())), ev)
      ensures Outcome(uni, old(Snap()), Snap(), ev)
      ensures TrustedExact(old(Snap())) ==> (TrustedExact(Snap()) <==> StaysExact(uni, old(Snap()), ev))
    {
      hide AtRest, LedgerOf, Step, CursorOk, Outcome, TrustedExact, StaysExact;
      ghost var before := Snap();
      match ev {
        case Create(frn, parent, name, flags) =>
          AddEntry(frn, parent, name, flags);
        case Delete(frn) =>
          RemoveEntry(frn);
        case Rename(frn, newParent, newName) =>
          RenameEntry(frn, newParent, newName);
        case SecurityChange(_) =>
          SecurityStep(uni, LedgerOf(Snap()), ev);
          IgnoredOutcome(uni, before, ev);
      }
      if TrustedExact(before) {
        EventVerdict(uni, before, Snap(), ev);
      }
    }

    /** Every run of events refines the ledger, and every column agrees with it throughout. */
    method ApplyAll(evs: seq<Event>)
      requires Valid()
      modifies this
      ensures Valid()
      ensures LedgerOf(Snap()) == Run(uni, LedgerOf(old(Snap())), evs)
    {
      hide AtRest, LedgerOf, Step, CursorOk;
      ghost var before := LedgerOf(Snap());
      for i := 0 to |evs|
        invariant Valid() && LedgerOf(Snap()) == Run(uni, before, evs[..i])
      {
        Apply(evs[i]);
        RunSnoc(uni, before, evs[..i], evs[i]);
        assert evs[..i] + [evs[i]] == evs[..i + 1];
      }
      assert evs[..|evs|] == evs;
    }

    // ---- cached depths -------------------------------------------------------------------

    /** Recompute every slot's cached depth in one memoized sweep, superseding any outstanding repair. */
    method SweepAllDepths()
      requires Valid()
      modifies this`strides, this`repair
      ensures Valid() && !repair.repairArmed && DepthsExact(Snap())
      ensures Snap() == Resettled(old(Snap()), strides.rankKey, false, 0, [])
      ensures KeysKept(slots.entries, old(strides.rankKey), strides.rankKey)
      ensures LedgerOf(Snap()) == LedgerOf(old(Snap()))
    {
      ghost var before := Snap();
      hide AtRest, LedgerOf, Swept, DoneExact, AllLiveExact, KeysKept, MapLive;
      SweepShape(uni, before);
      AllUnknown(slots.entries, slots.frnMap, strides.rankKey);
      var marks, keys;
      ghost var pushed;
      marks, keys, pushed := DepthSweep(slots.entries, slots.frnMap, strides.rankKey, Repeat(Unknown, |slots.entries|),
                                        0, |slots.entries|);
      SweptKeys(slots.entries, Repeat(Unknown, |slots.entries|), strides.rankKey, marks, keys, pushed);
      SweptShape(slots.entries, Repeat(Unknown, |slots.entries|), strides.rankKey, marks, keys, pushed);
      AllDone(slots.entries, slots.frnMap, keys, marks);
      SweptOk(uni, before, keys, false, 0, []);
      strides, repair := strides.(rankKey := keys), RepairRun(false, 0, []);
    }

    /** Bulk load is over: size the trigram set against the arena it ended with, and settle every depth. */
    method Finalize()
      requires Valid()
      modifies this
      ensures Valid() && !repair.repairArmed && DepthsExact(Snap())
      ensures LedgerOf(Snap()) == LedgerOf(old(Snap()))
      ensures gates.arenaGrams.tri.Some? <==> |text.foldedArena| >= TRI_PRESENT_MIN_ARENA
    {
      ghost var before := Snap();
      hide AtRest, LedgerOf, CursorOk, LiveTexts, AllNoted;
      var texts := FoldedTexts(uni, slots.entries, text.foldedArena, before);
      NotedTexts(uni, before);
      var grams := ResizeTri(gates.arenaGrams, |text.foldedArena|, texts, true);
      GramsOk(uni, before, grams);
      gates := gates.(arenaGrams := grams);
      SweepAllDepths();
    }

    /** Advance an armed repair by one slice; true while work remains. */
    method RepairDepthsSlice() returns (more: bool, ghost pushed: seq<nat>)
      requires Valid()
      modifies this`strides, this`repair
      ensures Valid() && more == repair.repairArmed && LedgerOf(Snap()) == LedgerOf(old(Snap()))
      ensures Snap() == Resettled(old(Snap()), strides.rankKey, repair.repairArmed, repair.repairCursor,
                                  repair.repairState) && KeysKept(slots.entries, old(strides.rankKey), strides.rankKey)
      ensures !old(repair.repairArmed) ==> Snap() == old(Snap()) && pushed == []
      ensures more <==> old(repair.repairArmed) && old(repair.repairCursor) + DEPTH_REPAIR_SLICE < |slots.entries|
      ensures more ==> repair.repairCursor == old(repair.repairCursor) + DEPTH_REPAIR_SLICE
      ensures TrustedExact(Snap()) <==> TrustedExact(old(Snap()))
      ensures old(repair.repairArmed) && more ==> (MarkedExact(Snap()) <==> MarkedExact(old(Snap())))
      ensures old(repair.repairArmed) && !more ==> (DepthsExact(Snap()) <==> MarkedExact(old(Snap())))
      ensures Pushed(old(Snap()), Snap(), pushed)
    {
      ghost var before := Snap();
      hide AtRest, LedgerOf, Swept, DoneExact, AllLiveExact, KeysKept, MapLive, Extended;
      SweepShape(uni, before);
      if !repair.repairArmed {
        pushed := [];
        more := false;
        NothingSwept(before);
        return;
      }
      ExtendedFacts(slots.entries, slots.frnMap, strides.rankKey, repair.repairState);
      var marks0 := Extended(repair.repairState, |slots.entries|);
      var start := Min(repair.repairCursor, |slots.entries|);
      var end := Min(start + DEPTH_REPAIR_SLICE, |slots.entries|);
      var marks, keys;
      marks, keys, pushed := DepthSweep(slots.entries, slots.frnMap, strides.rankKey, marks0, start, end);
      SweptKeys(slots.entries, marks0, strides.rankKey, marks, keys, pushed);
      SweptShape(slots.entries, marks0, strides.rankKey, marks, keys, pushed);
      SliceOutcome(slots.entries, slots.frnMap, marks0, strides.rankKey, marks, keys, pushed, start, end);
      more := end < |slots.entries|;
      SweptOk(uni, before, keys, more, if more then end else 0, if more then marks else []);
      PushedIs(before, marks0, marks, keys, pushed, more, end);
      strides := strides.(rankKey := keys);
      repair := RepairRun(more, if more then end else 0, if more then marks else []);
    }

    /** Drain an outstanding repair with nothing in between: it ends exact if and only if every slot
        already marked was. */
    method DrainRepair() returns (ghost pushed: seq<nat>)
      requires Valid()
      modifies this`strides, this`repair
      ensures Valid() && !repair.repairArmed && LedgerOf(Snap()) == LedgerOf(old(Snap()))
      ensures KeysKept(slots.entries, old(strides.rankKey), strides.rankKey)
      ensures old(repair.repairArmed) ==> (DepthsExact(Snap()) <==> MarkedExact(old(Snap())))
      ensures DepthsExact(Snap()) <==> TrustedExact(old(Snap()))
      ensures Distinct(pushed) && forall s :: s in pushed ==>
                s < |slots.entries| && !(s < |old(repair.repairState)| && old(repair.repairState)[s].Done?)
    {
      ghost var before := Snap();
      hide AtRest, LedgerOf, DepthsExact, MarkedExact, KeysKept, Pushed;
      KeptRefl(before);
      SweepShape(uni, before);
      PushedNone(before);
      pushed := [];
      while repair.repairArmed
        invariant Valid() && LedgerOf(Snap()) == LedgerOf(before)
        invariant KeysKept(slots.entries, before.rankKey, strides.rankKey)
        invariant Snap() == Resettled(before, strides.rankKey, repair.repairArmed, repair.repairCursor,
                                      repair.repairState)
        invariant repair.repairArmed ==> (MarkedExact(Snap()) <==> MarkedExact(before))
        invariant !repair.repairArmed && before.repairArmed ==> (DepthsExact(Snap()) <==> MarkedExact(before))
        invariant !before.repairArmed ==> Snap() == before
        invariant repair.repairArmed ==> repair.repairCursor <= |slots.entries| && before.repairArmed
        invariant Pushed(before, Snap(), pushed)
        decreases repair.repairArmed, |slots.entries| - repair.repairCursor
      {
        ghost var mid := Snap();
        ghost var slice;
        var more;
        more, slice := RepairDepthsSlice();
        KeptTrans(slots.entries, before.rankKey, mid.rankKey, strides.rankKey);
        PushedMore(before, mid, Snap(), pushed, slice);
        pushed := pushed + slice;
      }
      PushedFacts(before, Snap(), pushed);
    }

    // ---- compaction --------------------------------------------------------------------------

    /** Rewrite every column in place without its dead weight. The file table is unchanged, survivors keep their order
        (`orig` gives each new slot's old one), and nothing is left to compact. */
    method Compact() returns (ghost orig: seq<nat>)
      requires Valid()
      modifies this
      ensures Valid() && !repair.repairArmed && DepthsExact(Snap())
      ensures Contents(Snap()) == Contents(old(Snap()))
      ensures Survivors(old(spec.rows), orig) && spec.rows == Gather(old(spec.rows), orig)
      ensures |old(strides.rankKey)| == |old(spec.rows)|
      ensures (DepthsExact(old(Snap())) ==> strides.rankKey == Gather(old(strides.rankKey), orig))
      ensures slots.deadBytes == 0 && slots.freeSlots == [] && |text.arenaRecs| == |slots.entries| == slots.liveCount
      ensures |text.nameArena| + |text.foldedArena| == LiveBytes(spec.rows) + Fences(text.arenaRecs)
      ensures !ShouldCompact(Snap())
    {
      ghost var before := Snap();
      hide AtRest, Contents, CursorOk, DepthsExact, PartsOk, Survivors, Gather, ShouldCompact, LiveBytes, Fences;
      hide KeysKept;
      var c;
      ghost var b;
      c, orig, b := ComputeParts(uni, before, slots.entries, text.nameArena, text.foldedArena, strides.rankKey,
                                 strides.initials, strides.head, text.arenaRecs, gates.bsi, gates.bsiWords, gates.arenaGrams, slots.frnMap);
      CompactedOk(uni, before, orig, c, b);
      slots := SlotTable(c.entries, c.frnMap, slots.liveCount, [], 0);
      text := Arenas(c.names, c.folded, c.recs, c.owner);
      strides := Strides(c.rankKey, c.initials, c.head);
      gates := Gates(c.bsi, gates.bsiWords, c.arenaGrams, c.laneGrams);
      repair, spec := RepairRun(false, 0, []), Spec(b.rows, b.recOf, |c.folded|, |c.names|);
      assert Snap() == Compacted(before, c, b.rows, b.recOf);
      NoCursor(Snap());
      ghost var packed := Snap();
      SweepAllDepths();
      CompactFacts(uni, before, orig, c, b, packed, Snap());
      NothingToCompact(Snap());
    }

    /** The absolute path of an FRN. */
    method PathOf(frn: nat) returns (r: Option<string>)
      requires Valid()
      ensures r == Paths.PathIn(LedgerOf(Snap()).files, rootPath, frn)
    {
      hide AtRest;
      SweepShape(uni, Snap());
      r := Paths.PathOf(slots.entries, text.nameArena, slots.frnMap, rootPath, frn, spec.rows);
    }

    // ---- search ------------------------------------------------------------------------------

    /** Tiered search; the ghost results are the page behind the hits and what the fuzzy budget kept and let go. */
    method Search(query: string, maxResults: nat, accept: string -> bool, poll: nat -> bool)
      returns (hits: seq<TieredSearch.Hit>, cancelled: bool,
               ghost page: seq<Scored>, ghost survivors: nat, ghost retained: set<nat>, ghost dropped: set<nat>)
      requires Valid()
      ensures |strides.rankKey| == |spec.rows| && hits == TieredSearch.HitsOf(spec.rows, page)
      ensures cancelled ==> Raised(poll)
      ensures !cancelled && |FuzzyScan.Candidates(spec.rows, Encode(Fold(uni, query)))| <= FuzzyTier.FUZZY_CAP ==>
                hits == TieredSearch.HitsOf(spec.rows,
                                            Reference.ReferencePage(uni, spec.rows, strides.rankKey, Fold(uni, query),
                                                                    TieredSearch.NameAccept(spec.rows, accept),
                                                                    maxResults))
      ensures TieredSearch.Answers(uni, spec.rows, strides.rankKey, Fold(uni, query),
                                   TieredSearch.NameAccept(spec.rows, accept), maxResults,
                                   cancelled, page, survivors, retained, dropped)
      ensures !Reference.Searchable(Fold(uni, query)) ==> hits == []
      ensures Reference.Searchable(Fold(uni, query)) ==>
                Answering.HitsSound(uni, Snap(), Fold(uni, query), accept, maxResults, hits)
      ensures Reference.Searchable(Fold(uni, query)) && !cancelled && dropped == {} ==>
                Answering.IsAnswer(uni, Snap(), Fold(uni, query), accept, maxResults, hits)
    {
      hide AtRest, Fold, Encode, Reference.ReferencePage, TieredSearch.PageSound, TieredSearch.NameAccept, NoControl;
      hide Answering.HitsSound, Answering.IsAnswer, FuzzyScan.Candidates, FuzzyScan.Budgeted;
      SweepShape(uni, Snap());
      hits, cancelled, page, survivors, retained, dropped :=
        TieredSearch.SearchColumns(uni, strides.rankKey, strides.head, strides.initials, text.foldedArena,
                                   text.nameArena, text.owner, text.arenaRecs,
                                   slots.entries, gates.bsi, gates.bsiWords, gates.arenaGrams, gates.laneGrams, slots.liveCount,
                                   query, maxResults, accept, poll, Snap());
      TieredSearch.SearchAnswers(uni, Snap(), Fold(uni, query), accept, maxResults, cancelled, page, survivors,
                                 retained, dropped);
      if Reference.Searchable(Fold(uni, query)) {
        Answering.SoundPageHits(uni, Snap(), Fold(uni, query), accept, maxResults, page);
        Answering.PageIsAnswer(uni, Snap(), Fold(uni, query), accept, maxResults);
      }
    }
  }

  /** The passes of a compaction, in order, over one index's columns. */
  method ComputeParts(uni: Unicode, ghost st: State, entries0: seq<Entry>, names0: seq<byte>, folded0: seq<byte>,
                      rankKey0: seq<byte>,
                      initials0: seq<byte>, head0: seq<byte>, recs0: seq<ArenaRec>, bsi0: seq<Word>, bsiWords: nat,
                      grams0: Grams, frnMap0: map<nat, nat>)
    returns (c: Parts, ghost orig: seq<nat>, ghost b: Built)
    requires AtRest(uni, st) && entries0 == st.entries && names0 == st.nameArena && folded0 == st.foldedArena
    requires rankKey0 == st.rankKey
    requires initials0 == st.initials && head0 == st.head && recs0 == st.arenaRecs && bsi0 == st.bsi
    requires bsiWords == st.bsiWords
    requires grams0 == st.arenaGrams && frnMap0 == st.frnMap
    ensures PartsOk(uni, st, orig, c, b)
    ensures MapOk(st.rows, st.frnMap) && MapOk(b.rows, c.frnMap) && Files(b.rows, c.frnMap) == Files(st.rows, st.frnMap)
    ensures |c.recs| == |c.entries| == |c.frnMap| == |b.rows|
    ensures c.arenaGrams.tri.Some? <==> |c.folded| >= TRI_PRESENT_MIN_ARENA
  {
    hide AtRest, Renumbers, Survivors, Packed, Gather, PrefixOk, LanesOk, HeadOk, BsiOk, SliceShape, RankOk, MapOk;
    hide OwnerOk, ArenaNoted, LanesNoted, Texts, Files;
    var remap, kept;
    remap, kept, orig := Renumber(uni, entries0, st);
    RenumbersSurvive(st.rows, orig, remap);
    CompactShape(uni, st, orig);
    var packed, rankKey, initials, head := PackColumns(entries0, rankKey0, initials0, head0, remap, kept, st.rows,
                                                       orig);
    PackedOnes(entries0, packed, orig);
    PackedOnes(rankKey0, rankKey, orig);
    PackedColumns(uni, st.rows, orig, initials0, initials, head0, head);
    var entries, recs, folded, names;
    entries, recs, folded, names, b := MoveArenas(uni, packed, recs0, folded0, names0, remap, st, orig);
    PrefixShape(b, folded, names, recs);
    var owner := RebuildOwner(recs, |folded|, folded);
    var sized := ResizeTri(grams0, |folded|, [], false);
    AllSurvive(st.rows, orig);
    TextsOf(b, folded, names, recs);
    var bsi, arenaGrams := RefillRecords(entries, folded, bsi0, bsiWords, sized, b.rows);
    var laneGrams := RefillLanes(uni, initials, kept, b.rows);
    var frnMap := RenumberMap(frnMap0, remap, st.rows, orig);
    c := Parts(entries, names, folded, rankKey, initials, head, recs, owner, bsi, arenaGrams, laneGrams, frnMap);
  }

  /** The pieces a fill writes: lane and head pair off the name just interned, class bits, presence bits
      and the record. */
  method Derive(uni: Unicode, ghost st: State, ghost pending: set<nat>, slot: nat, ghost row: Row, it: Interned,
                key: byte,
                name: seq<byte>, folded: seq<byte>, bsi: seq<Word>, bsiWords: nat, arenaGrams: Grams, laneGrams: Grams,
                arenaRecs: seq<ArenaRec>, owner: seq<nat>, arenaLen: nat)
    returns (lane: seq<byte>, pair: seq<byte>, d: Derived)
    requires Ready(uni, st, pending, slot, row, it) && (key >= RANK_PENALIZED <==> row.flags.hidden || row.flags.system)
    requires name == Encode(row.name) && folded == row.folded && arenaLen == |st.foldedArena|
    requires bsi == st.bsi && bsiWords == st.bsiWords && arenaGrams == st.arenaGrams && laneGrams == st.laneGrams
    requires arenaRecs == st.arenaRecs && owner == st.owner
    ensures lane == LaneFor(uni, row) && pair == HeadFor(row) && |d.arenaRecs| == |st.arenaRecs| + 1
    ensures StateOk(uni, Filled(uni, st, slot, row, EntryFor(row, it), key, d), pending - {slot})
    ensures Contents(Filled(uni, st, slot, row, EntryFor(row, it), key, d)) == Contents(st)[row.frn := FileOf(row)]
  {
    hide Ready, StateOk, Contents, CanFill, PutPiece, Put, Encode, Decode, BsiOk, OwnerOk, LaneOf, Noted, GramsCover;
    hide MapLive, Filled;
    ReadyFacts(uni, st, pending, slot, row, it);
    RoundTrip(row.name);
    lane := InitialsLane(uni, Decode(name));
    // Bits before bytes: the gate must never miss a lane that has landed.
    var lg := Note(laneGrams, lane);
    pair := [folded[0], if |folded| > 1 then folded[1] else DELIM];
    var ag := Note(arenaGrams, folded);
    var bits, words := FillBits(bsi, bsiWords, slot, folded, st.rows, row);
    var recs, own := PushArenaRec(arenaRecs, owner, it.foldedOff, slot, arenaLen, st.arenaEnd);
    d := Derived(recs, own, bits, words, ag, lg);
    RegisterOk(uni, st, pending, slot, row, it, key, d, pair, lane);
  }

  lemma RegisterOk(uni: Unicode, st: State, pending: set<nat>, slot: nat, row: Row, it: Interned, key: byte, d: Derived,
                   pair: seq<byte>, lane: seq<byte>)
    requires Ready(uni, st, pending, slot, row, it) && CanFill(st, slot)
    requires key >= RANK_PENALIZED <==> row.flags.hidden || row.flags.system
    requires d.arenaRecs == st.arenaRecs + [ArenaRec(NextOff(st.arenaEnd), slot)]
    requires OwnerOk(d.owner, d.arenaRecs, |st.foldedArena|)
    requires slot <= |st.rows| && BsiOk(Put(st.rows, slot, row), d.bsi, d.bsiWords)
    requires GramsCover(st.arenaGrams, d.arenaGrams) && Noted(d.arenaGrams, row.folded)
    requires GramsCover(st.laneGrams, d.laneGrams) && Noted(d.laneGrams, lane) && lane == LaneOf(uni, row.name)
    requires 1 <= |row.folded| && pair == [row.folded[0], if |row.folded| > 1 then row.folded[1] else DELIM]
    ensures lane == LaneFor(uni, row) && pair == HeadFor(row)
    ensures StateOk(uni, Filled(uni, st, slot, row, EntryFor(row, it), key, d), pending - {slot})
    ensures Contents(Filled(uni, st, slot, row, EntryFor(row, it), key, d)) == Contents(st)[row.frn := FileOf(row)]
  {
    assert row.Live? && StateOk(uni, st, pending);
    hide StateOk, OwnerOk, BsiOk, GramsCover, Noted, LaneOf, Filled, Encode, RowOk, Staged;
    ReadyIsFillable(uni, st, pending, slot, row, it, key);
    FillOk(uni, st, pending, slot, row, EntryFor(row, it), key, d);
  }

  method ParentDepth(ghost st: State, frnMap: map<nat, nat>, rankKey: seq<byte>, frn: nat, parent: nat, slot: nat)
    returns (depth: nat)
    requires MapLive(st.entries, st.frnMap) && |st.entries| == |st.rankKey| && st.frnMap == frnMap
    requires st.rankKey == rankKey
    ensures depth == StartDepth(st, frn, parent, slot)
  {
    if parent == frn {
      depth := 0;
    } else if parent in frnMap && frnMap[parent] != slot {
      depth := Min(rankKey[frnMap[parent]] as int % 128 + 1, RANK_DEPTH_MAX);
    } else {
      depth := 0;
    }
  }

  /** Make room for `slot` in every slice and set its classes. */
  method FillBits(bsi: seq<Word>, words: nat, slot: nat, folded: seq<byte>, ghost rows: seq<Row>, ghost row: Row)
    returns (r: seq<Word>, words': nat)
    requires BsiOk(rows, bsi, words) && slot <= |rows| && (slot < |rows| ==> rows[slot].Vacant?) && row.Live?
    requires row.folded == folded
    ensures BsiOk(Put(rows, slot, row), r, words')
  {
    assert SliceShape(bsi, words) && |rows| <= 64 * words;
    hide BsiOk, SliceShape;
    var grown;
    grown, words' := Grow(bsi, words, slot + 1);
    BsiAfterGrow(rows, bsi, words, grown, words');
    var mask := ClassMask(folded);
    r := Apply(grown, words', slot, mask, true);
    BsiAfterApply(rows, Put(rows, slot, row), grown, r, words', slot, mask, true);
  }

  /** Clear a live slot's class bits. */
  method ClearSlot(bsi: seq<Word>, words: nat, slot: nat, mask: Word, ghost rows: seq<Row>) returns (r: seq<Word>)
    requires BsiOk(rows, bsi, words) && slot < |rows| && rows[slot].Live? && mask == ClassMask(rows[slot].folded)
    ensures BsiOk(rows[slot := Vacant], r, words)
  {
    assert SliceShape(bsi, words) && |rows| <= 64 * words;
    hide BsiOk, SliceShape;
    r := Apply(bsi, words, slot, mask, false);
    BsiAfterApply(rows, rows[slot := Vacant], bsi, r, words, slot, mask, false);
  }
}
