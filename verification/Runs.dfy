/** Runs of the index: events and repair slices interleaved, two runs that leave a depth wrong, and searches
    around a compaction. */
module Runs {
  import opened Bytes
  import opened Utf8
  import opened Names
  import opened Ranking
  import opened Table
  import opened Depth
  import opened Journal
  import opened IndexState
  import opened Repair
  import opened Shifts
  import opened Verdict
  import opened VolumeIndex
  import Paths
  import Polling
  import Compaction
  import FuzzyTier
  import FuzzyScan
  import Reference
  import TieredSearch
  import Stability

  // ---- a repair under events -----------------------------------------------------------------

  /** The writer's next piece of work: an event off the journal, or a slice of the outstanding repair. */
  datatype Work = Event(ev: Journal.Event) | Slice

  /** The event arms the repair anew, with nothing marked: a held directory moves or goes. */
  predicate Rearms(uni: Unicode, st: State, ev: Journal.Event) {
    && Accepts(uni, st, ev)
    && match ev
       case Create(frn, parent, _, _) => Reparents(st, frn, parent)
       case Rename(frn, parent, _) => Reparents(st, frn, parent)
       case Delete(frn) => Deletes(st, frn)
       case SecurityChange(_) => false
  }

  lemma RearmedIsExact(uni: Unicode, st: State, st': State, ev: Journal.Event)
    requires AtRest(uni, st') && Outcome(uni, st, st', ev) && Rearms(uni, st, ev)
    ensures TrustedExact(st')
  {
    hide StateOk, Accepts, RowFor, NewKey;
    JustArmedIsExact(uni, st');
  }

  /** What a piece of work makes of the index. */
  ghost predicate Follows(uni: Unicode, st: State, st': State, w: Work)
    requires MapOk(st.rows, st.frnMap) && MapOk(st'.rows, st'.frnMap)
  {
    match w
    case Event(ev) => Outcome(uni, st, st', ev) && LedgerOf(st') == Step(uni, LedgerOf(st), ev)
    case Slice =>
      && st' == Resettled(st, st'.rankKey, st'.repairArmed, st'.repairCursor, st'.repairState)
      && (TrustedExact(st') <==> TrustedExact(st))
  }

  /** The states a schedule of work goes through. */
  ghost predicate Passes(uni: Unicode, trace: seq<State>, work: seq<Work>) {
    && |trace| == |work| + 1 && (forall i :: 0 <= i < |trace| ==> AtRest(uni, trace[i]))
    && forall i :: 0 <= i < |work| ==> Follows(uni, trace[i], trace[i + 1], work[i])
  }

  /** Every event since the repair was last armed anew keeps the settled slots right, as the state before it tells. */
  ghost predicate Kept(uni: Unicode, trace: seq<State>, work: seq<Work>)
    requires |trace| == |work| + 1 && forall i :: 0 <= i < |trace| ==> MapOk(trace[i].rows, trace[i].frnMap)
    decreases |work|
  {
    if work == [] then TrustedExact(trace[0])
    else
      var n := |work| - 1;
      match work[n]
      case Event(ev) =>
        Rearms(uni, trace[n], ev) || (Kept(uni, trace[..n + 1], work[..n]) && StaysExact(uni, trace[n], ev))
      case Slice => Kept(uni, trace[..n + 1], work[..n])
  }

  /** A schedule that keeps the settled slots right ends with them right. */
  lemma {:induction false} KeptIsExact(uni: Unicode, trace: seq<State>, work: seq<Work>)
    requires Passes(uni, trace, work) && Kept(uni, trace, work)
    ensures TrustedExact(trace[|work|])
    decreases |work|
  {
    hide AtRest, LedgerOf, Step, Outcome, StaysExact, TrustedExact, Rearms;
    if work != [] {
      var n := |work| - 1;
      assert Follows(uni, trace[n], trace[n + 1], work[n]);
      if work[n].Event? && Rearms(uni, trace[n], work[n].ev) {
        RearmedIsExact(uni, trace[n], trace[n + 1], work[n].ev);
      } else {
        KeptIsExact(uni, trace[..n + 1], work[..n]);
        if work[n].Event? {
          EventVerdict(uni, trace[n], trace[n + 1], work[n].ev);
        }
      }
    }
  }

  /** Events and slices in any order, then the repair drained: if the schedule kept the settled slots right, every
      cached depth ends exact. */
  method RepairUnderEvents(ix: VolumeIndex, work: seq<Work>) returns (ghost trace: seq<State>)
    requires ix.Valid()
    modifies ix
    ensures ix.Valid() && !ix.repair.repairArmed
    ensures Passes(ix.uni, trace, work) && trace[0] == old(ix.Snap())
    ensures LedgerOf(ix.Snap()) == LedgerOf(trace[|work|])
    ensures DepthsExact(ix.Snap()) <==> TrustedExact(trace[|work|])
    ensures Kept(ix.uni, trace, work) ==> DepthsExact(ix.Snap())
  {
    hide AtRest, CursorOk, LedgerOf, Step, Outcome, TrustedExact, DepthsExact, MarkedExact, KeysKept, Pushed, Kept;
    hide StaysExact;
    trace := [ix.Snap()];
    for i := 0 to |work|
      invariant ix.Valid() && Passes(ix.uni, trace, work[..i]) && trace[0] == old(ix.Snap()) && trace[i] == ix.Snap()
    {
      match work[i] {
        case Event(ev) => ix.Apply(ev);
        case Slice =>
          ghost var pushed;
          var more;
          more, pushed := ix.RepairDepthsSlice();
      }
      trace := trace + [ix.Snap()];
    }
    assert work[..|work|] == work;
    ghost var pushed := ix.DrainRepair();
    if Kept(ix.uni, trace, work) {
      KeptIsExact(ix.uni, trace, work);
    }
  }

  /** One event on an outstanding repair whose marked slots are right, and then the drain: every depth ends exact if
      and only if the event kept the marked slots. */
  method DrainAfter(ix: VolumeIndex, ev: Journal.Event)
    requires ix.Valid() && ix.repair.repairArmed && MarkedExact(ix.Snap())
    modifies ix
    ensures ix.Valid() && !ix.repair.repairArmed
    ensures DepthsExact(ix.Snap()) <==> StaysExact(ix.uni, old(ix.Snap()), ev)
  {
    hide AtRest, CursorOk, LedgerOf, Step, Outcome, StaysExact, DepthsExact, MarkedExact, KeysKept, Pushed;
    ix.Apply(ev);
    ghost var pushed := ix.DrainRepair();
  }

  // ---- two runs that leave a depth wrong ---------------------------------------------------

  /** No normalisation, no case: enough to name a file "a". */
  function Plain(): Unicode {
    Unicode(s => s, c => [c], _ => false, _ => false)
  }

  lemma PlainName()
    ensures Usable(Plain(), "a") && StoredName(Plain(), "a") == "a" && |Encode("a")| == 1
    ensures |FoldedRecord(Plain(), "a")| == 1
  {
    assert EncodeChar('a') == [97];
    assert Encode("a") == [97];
    assert Truncate("a", NAME_MAX) == "a";
    assert LowerAll(Plain(), "a") == "a";
  }

  const DIR: Flags := Flags(true, false, false, false)
  const PLAIN_FILE: Flags := Flags(false, false, false, false)

  /** An index of one-letter names, at most `spare` of them superseded, with room for more and no free slot. */
  ghost predicate Roomy(ix: VolumeIndex, spare: nat)
    reads ix
  {
    && ix.Valid() && ix.uni == Plain() && |ix.slots.entries| <= 70000 && ix.slots.freeSlots == []
    && |ix.text.nameArena| <= |ix.slots.entries| + spare <= |ix.slots.entries| + 10
    && |ix.text.foldedArena| <= 2 * (|ix.slots.entries| + spare) + 1
  }

  lemma StepAdds(l: Ledger, frn: nat, parent: nat, flags: Flags)
    requires frn !in l.files && |l.files| == l.slots < 70000 && l.nameBytes <= 100000 && l.foldedBytes <= 200000
    ensures Step(Plain(), l, Create(frn, parent, "a", flags)) ==
            Ledger(l.files[frn := File(parent, "a", flags.(dead := false))], l.nameBytes + 1,
                   l.foldedBytes + 2 + (if l.foldedBytes == 0 then 1 else 0), l.slots + 1)
  {
    hide Usable;
    PlainName();
  }

  /** With no slot free, a create takes the next one. */
  lemma FreshOutcome(st: State, frn: nat, parent: nat, flags: Flags)
    requires frn !in st.frnMap && st.freeSlots == [] && |st.entries| < 70000
    requires |st.nameArena| <= 100000 && |st.foldedArena| <= 200000
    ensures forall st' :: Outcome(Plain(), st, st', Create(frn, parent, "a", flags)) <==>
              Placed(st, st', |st.entries|, RowFor(Plain(), frn, parent, "a", flags),
                     NewKey(st, frn, parent, flags, |st.entries|), false, true)
  {
    hide Usable, Placed, NewKey, RowFor;
    PlainName();
  }

  /** A new file in the next slot. */
  method Add(ix: VolumeIndex, ghost spare: nat, frn: nat, parent: nat, flags: Flags) returns (slot: nat)
    requires Roomy(ix, spare) && frn !in Contents(ix.Snap()) && |ix.slots.entries| < 70000
    modifies ix
    ensures Roomy(ix, spare) && slot == old(|ix.slots.entries|) && |ix.slots.entries| == slot + 1
    ensures Contents(ix.Snap()) == old(Contents(ix.Snap()))[frn := File(parent, "a", flags.(dead := false))]
    ensures Placed(old(ix.Snap()), ix.Snap(), slot, RowFor(Plain(), frn, parent, "a", flags),
                   NewKey(old(ix.Snap()), frn, parent, flags, slot), false, true)
    ensures TrustedExact(old(ix.Snap())) ==>
              (TrustedExact(ix.Snap()) <==> StaysExact(Plain(), old(ix.Snap()), Create(frn, parent, "a", flags)))
  {
    hide AtRest, CursorOk, Contents, StaysExact, TrustedExact, RowFor, Placed, NewKey, Usable, Step, Outcome;
    ghost var before := ix.Snap();
    LedgerFacts(ix.uni, before);
    StepAdds(LedgerOf(before), frn, parent, flags);
    FreshOutcome(before, frn, parent, flags);
    slot := |ix.slots.entries|;
    ix.Apply(Create(frn, parent, "a", flags));
    LedgerFacts(ix.uni, ix.Snap());
  }

  /** A swept orphan is spoiled by the creation of the parent it misses. */
  lemma OrphanIsMoved(uni: Unicode, st: State, s: nat, ev: Journal.Event)
    requires AtRest(uni, st) && CursorOk(st, {}) && st.repairArmed && s < st.repairCursor
    requires s < |st.rows| && st.rows[s].Live? && st.rows[s].frn in Contents(st)
    requires ev.Create? && Accepts(uni, st, ev) && ev.frn !in Contents(st)
    requires Contents(st)[st.rows[s].frn].parent == ev.frn
    ensures !StaysExact(uni, st, ev)
  {
    hide StateOk, StartDepth, Accepts, NewDepth, Contents, FreeOk;
    LedgerFacts(uni, st);
    SweepShape(uni, st);
    SlotFacts(uni, st, s);
    SlotForFacts(uni, st, ev.frn);
    assert LinksTo(Contents(st), st.rows[s].frn, ev.frn, RANK_DEPTH_MAX) == Some(1);
    assert DoneSlot(st, s) && !Unmoved(st, ev.frn, ev.parent, s);
  }

  /** Fillers, so that the table outgrows one slice. */
  method Fill(ix: VolumeIndex)
    requires Roomy(ix, 0) && |ix.slots.entries| <= 3 && forall f :: f in Contents(ix.Snap()) ==> f < 100
    modifies ix
    ensures Roomy(ix, 0) && |ix.slots.entries| == old(|ix.slots.entries|) + DEPTH_REPAIR_SLICE
    ensures forall f :: f in Contents(ix.Snap()) && f < 100 ==> f in old(Contents(ix.Snap()))
    ensures forall f :: f in old(Contents(ix.Snap())) ==>
              f in Contents(ix.Snap()) && Contents(ix.Snap())[f] == old(Contents(ix.Snap()))[f]
    ensures forall f :: f in Contents(ix.Snap()) && f >= 100 ==> Contents(ix.Snap())[f].parent == 30
    ensures |ix.spec.rows| >= |old(ix.spec.rows)| && ix.spec.rows[..|old(ix.spec.rows)|] == old(ix.spec.rows)
  {
    hide AtRest, CursorOk, Contents, StaysExact, TrustedExact, RowFor, NewKey, Usable;
    ghost var files, rows := Contents(ix.Snap()), ix.spec.rows;
    var n := |ix.slots.entries|;
    for i := 0 to DEPTH_REPAIR_SLICE
      invariant Roomy(ix, 0) && |ix.slots.entries| == n + i
      invariant forall f :: f in Contents(ix.Snap()) ==> f in files || 100 <= f < 100 + i
      invariant forall f :: f in files ==> f in Contents(ix.Snap()) && Contents(ix.Snap())[f] == files[f]
      invariant forall f :: f in Contents(ix.Snap()) && f >= 100 ==> Contents(ix.Snap())[f].parent == 30
      invariant |ix.spec.rows| >= |rows| && ix.spec.rows[..|rows|] == rows
    {
      ghost var mid := ix.spec.rows;
      SlotsAreRows(ix);
      var slot := Add(ix, 0, 100 + i, 30, PLAIN_FILE);
      assert ix.spec.rows[..|rows|] == mid[..|rows|];
    }
  }

  lemma SlotsAreRows(ix: VolumeIndex)
    requires Roomy(ix, 0)
    ensures |ix.slots.entries| == |ix.spec.rows|
  {
    hide StateOk, CursorOk;
    SweepShape(ix.uni, ix.Snap());
  }

  /** A repair freshly armed: nothing is marked. */
  ghost predicate JustArmed(st: State) {
    st.repairArmed && st.repairCursor == 0 && st.repairState == []
  }

  lemma JustArmedIsExact(uni: Unicode, st: State)
    requires AtRest(uni, st) && JustArmed(st)
    ensures MarkedExact(st)
  {
    hide StateOk;
    SweepShape(uni, st);
  }

  /** Room for a few more one-letter names, whatever is free. */
  ghost predicate Loose(ix: VolumeIndex)
    reads ix
  {
    && ix.Valid() && ix.uni == Plain() && DEPTH_REPAIR_SLICE < |ix.slots.entries| <= 70000
    && |ix.text.nameArena| <= 100000 && |ix.text.foldedArena| <= 200000
  }

  /** One slice of a freshly armed repair over a table larger than a slice. */
  method SweepOnce(ix: VolumeIndex)
    requires Loose(ix) && JustArmed(ix.Snap())
    modifies ix`strides, ix`repair
    ensures Loose(ix) && ix.repair.repairArmed && ix.repair.repairCursor == DEPTH_REPAIR_SLICE && MarkedExact(ix.Snap())
    ensures ix.spec.rows == old(ix.spec.rows) && ix.slots == old(ix.slots)
    ensures Contents(ix.Snap()) == old(Contents(ix.Snap()))
  {
    hide AtRest, CursorOk, Contents, MarkedExact, TrustedExact, DepthsExact, KeysKept, Pushed;
    JustArmedIsExact(ix.uni, ix.Snap());
    ghost var before := ix.Snap();
    ghost var pushed;
    var more;
    more, pushed := ix.RepairDepthsSlice();
    SlotsKept(before, ix.Snap(), ix.strides.rankKey, ix.repair.repairArmed, ix.repair.repairCursor,
              ix.repair.repairState);
  }

  lemma SlotsKept(st: State, st': State, key: seq<byte>, armed: bool, cursor: nat, marks: seq<Mark>)
    requires MapOk(st.rows, st.frnMap) && st' == Resettled(st, key, armed, cursor, marks)
    ensures MapOk(st'.rows, st'.frnMap) && Contents(st') == Contents(st) && st'.rows == st.rows
    ensures st'.entries == st.entries
    ensures st'.freeSlots == st.freeSlots && st'.nameArena == st.nameArena && st'.foldedArena == st.foldedArena
    ensures st'.frnMap == st.frnMap
    ensures st'.liveCount == st.liveCount && st'.deadBytes == st.deadBytes
  {
  }

  /** Only `frn`'s row may differ. */
  predicate RowsLeft(rows: seq<Row>, rows': seq<Row>, frn: nat) {
    |rows'| == |rows| && forall s :: 0 <= s < |rows| && rows[s].Live? && rows[s].frn != frn ==> rows'[s] == rows[s]
  }

  /** Deleting a directory. */
  method DeleteDir(ix: VolumeIndex, frn: nat)
    requires Loose(ix) && frn in Contents(ix.Snap()) && Contents(ix.Snap())[frn].flags.dir
    modifies ix
    ensures Loose(ix) && JustArmed(ix.Snap()) && Contents(ix.Snap()) == old(Contents(ix.Snap())) - {frn}
    ensures RowsLeft(old(ix.spec.rows), ix.spec.rows, frn)
  {
    hide AtRest, CursorOk, Contents, StaysExact, TrustedExact;
    ghost var before := ix.Snap();
    HeldFile(ix.uni, before, frn);
    ix.Apply(Delete(frn));
    SameTable(ix.uni, before);
    SameTable(ix.uni, ix.Snap());
  }

  lemma SameTable(uni: Unicode, st: State)
    requires AtRest(uni, st)
    ensures |st.entries| == |st.rows|
  {
    hide StateOk;
    SweepShape(uni, st);
  }

  /** A held file's slot. */
  lemma HeldFile(uni: Unicode, st: State, frn: nat)
    requires AtRest(uni, st) && frn in Contents(st)
    ensures frn in st.frnMap && st.frnMap[frn] < |st.rows| && st.rows[st.frnMap[frn]].Live?
    ensures st.rows[st.frnMap[frn]].frn == frn
    ensures st.frnMap[frn] < |st.entries|
    ensures st.entries[st.frnMap[frn]].flags == Contents(st)[frn].flags
    ensures st.entries[st.frnMap[frn]].parent == Contents(st)[frn].parent
  {
    hide StateOk;
    LedgerFacts(uni, st);
    MapFacts(uni, st, frn);
  }

  /** Root 30 and two files more, in slots 0, 1 and 2, and a table larger than a slice. */
  method LargeTable(f: nat, pf: nat, flagsF: Flags, g: nat, pg: nat, flagsG: Flags) returns (ix: VolumeIndex)
    requires f != g && f != 30 && g != 30 && f < 100 && g < 100
    ensures fresh(ix) && Roomy(ix, 0) && |ix.slots.entries| == 3 + DEPTH_REPAIR_SLICE
    ensures Filled3(Contents(ix.Snap()), f, File(pf, "a", flagsF.(dead := false)), g,
                    File(pg, "a", flagsG.(dead := false)))
    ensures |ix.spec.rows| > 2 && RowHolds(ix.spec.rows[1], f) && RowHolds(ix.spec.rows[2], g)
  {
    hide AtRest, CursorOk, Contents, StaysExact, TrustedExact, Filled3;
    ix := ThreeFiles(f, pf, flagsF, g, pg, flagsG);
    ghost var files, rows := Contents(ix.Snap()), ix.spec.rows;
    Fill(ix);
    assert ix.spec.rows[..|rows|][1] == rows[1] && ix.spec.rows[..|rows|][2] == rows[2];
    FillersKeep(files, Contents(ix.Snap()), f, File(pf, "a", flagsF.(dead := false)), g,
                File(pg, "a", flagsG.(dead := false)));
  }

  predicate RowHolds(row: Row, f: nat) {
    row.Live? && row.frn == f
  }

  /** Root 30, `f` and `g` as given, and nothing else below 100; the rest are fillers under the root. */
  ghost predicate Filled3(files: map<nat, File>, f: nat, fileF: File, g: nat, fileG: File) {
    && 30 in files && files[30] == File(30, "a", DIR) && f in files && files[f] == fileF && g in files
    && files[g] == fileG
    && forall h :: h in files ==> h == 30 || h == f || h == g || (h >= 100 && files[h].parent == 30)
  }

  lemma FillersKeep(files: map<nat, File>, more: map<nat, File>, f: nat, fileF: File, g: nat, fileG: File)
    requires f < 100 && g < 100 && f != g && f != 30 && g != 30
    requires files == map[30 := File(30, "a", DIR), f := fileF, g := fileG]
    requires forall h :: h in more && h < 100 ==> h in files
    requires forall h :: h in files ==> h in more && more[h] == files[h]
    requires forall h :: h in more && h >= 100 ==> more[h].parent == 30
    ensures Filled3(more, f, fileF, g, fileG)
  {
  }

  method ThreeFiles(f: nat, pf: nat, flagsF: Flags, g: nat, pg: nat, flagsG: Flags) returns (ix: VolumeIndex)
    requires f != g && f != 30 && g != 30 && f < 100 && g < 100
    ensures fresh(ix) && Roomy(ix, 0) && |ix.slots.entries| == |ix.spec.rows| == 3
    ensures Contents(ix.Snap()) ==
              map[30 := File(30, "a", DIR), f := File(pf, "a", flagsF.(dead := false)),
                  g := File(pg, "a", flagsG.(dead := false))]
    ensures RowHolds(ix.spec.rows[1], f) && RowHolds(ix.spec.rows[2], g)
  {
    hide AtRest, CursorOk, Contents, StaysExact, TrustedExact, RowFor, NewKey, Usable;
    ix := new VolumeIndex(Plain(), "C:");
    EmptyAtRest(Plain());
    RowIs(Plain(), f, pf, "a", flagsF);
    RowIs(Plain(), g, pg, "a", flagsG);
    var s0 := Add(ix, 0, 30, 30, DIR);
    var s1 := Add(ix, 0, f, pf, flagsF);
    var s2 := Add(ix, 0, g, pg, flagsG);
  }

  /** Delete a directory, sweep past the orphan it leaves, create the directory again: the orphan is never
      looked at again. */
  method OrphanStaysWrong() returns (ix: VolumeIndex)
    ensures fresh(ix) && ix.Valid() && !ix.repair.repairArmed && !DepthsExact(ix.Snap())
  {
    hide AtRest, CursorOk, Contents, StaysExact, TrustedExact, DepthsExact, MarkedExact, Accepts;
    ix := LargeTable(20, 30, DIR, 10, 20, PLAIN_FILE);
    DeleteDir(ix, 20);
    SweepOnce(ix);
    RoomFor(ix.Snap(), 20, 30, DIR);
    OrphanIsMoved(Plain(), ix.Snap(), 2, Create(20, 30, "a", DIR));
    DrainAfter(ix, Create(20, 30, "a", DIR));
  }

  lemma RoomFor(st: State, frn: nat, parent: nat, flags: Flags)
    requires |st.nameArena| <= 100000 && |st.foldedArena| <= 200000 && |st.entries| <= 70000
    ensures Accepts(Plain(), st, Create(frn, parent, "a", flags))
  {
    PlainName();
  }

  /** Nobody names `f`, except perhaps `leaf`, which nobody names. */
  predicate OnlyLeafNames(files: map<nat, File>, f: nat, leaf: nat) {
    forall g :: g in files ==> files[g].parent != leaf && (g != leaf ==> files[g].parent != f)
  }

  lemma {:induction false} NoLinks(files: map<nat, File>, g: nat, f: nat, leaf: nat, n: nat)
    requires g in files && g != f && g != leaf && OnlyLeafNames(files, f, leaf)
    ensures LinksTo(files, g, f, n).None?
    decreases n
  {
    if n > 0 && files[g].parent != g && files[g].parent in files {
      NoLinks(files, files[g].parent, f, leaf, n - 1);
    }
  }

  /** A create in a fresh slot, whose FRN only an unmarked file names, spoils nothing. */
  lemma FreshKeeps(uni: Unicode, st: State, ev: Journal.Event, leaf: nat)
    requires AtRest(uni, st) && st.repairArmed && ev.Create? && Accepts(uni, st, ev)
    requires ev.frn !in Contents(st) && st.freeSlots == [] && OnlyLeafNames(Contents(st), ev.frn, leaf)
    requires leaf in st.frnMap ==> !DoneSlot(st, st.frnMap[leaf])
    ensures StaysExact(uni, st, ev)
  {
    hide StateOk, Accepts, StartDepth, NewDepth, LinksTo, OnlyLeafNames, Contents;
    LedgerFacts(uni, st);
    SweepShape(uni, st);
    forall s: nat | s < |st.rows| && s != SlotFor(st, ev.frn) && st.rows[s].Live? && Trusted(st, s)
      ensures Unmoved(st, ev.frn, ev.parent, s)
    {
      ExactIsRight(uni, st, s);
      HeldRow(uni, st, s);
      NoLinks(Contents(st), st.rows[s].frn, ev.frn, leaf, RANK_DEPTH_MAX);
    }
  }

  lemma HeldRow(uni: Unicode, st: State, s: nat)
    requires AtRest(uni, st) && s < |st.rows| && st.rows[s].Live?
    ensures st.rows[s].frn in st.frnMap && st.frnMap[st.rows[s].frn] == s
  {
    hide StateOk;
  }

  /** Deleting a file nobody names spoils nothing. */
  lemma LeafGoes(uni: Unicode, st: State, frn: nat)
    requires AtRest(uni, st) && frn in Contents(st) && OnlyLeafNames(Contents(st), frn, frn)
    ensures StaysExact(uni, st, Delete(frn))
  {
    hide StateOk, LinksTo, OnlyLeafNames, Contents;
    forall s: nat | s < |st.rows| && st.rows[s].Live? && st.rows[s].frn != frn && Trusted(st, s)
      ensures st.rows[s].frn in Contents(st) && LinksTo(Contents(st), st.rows[s].frn, frn, RANK_DEPTH_MAX).None?
    {
      ExactIsRight(uni, st, s);
      NoLinks(Contents(st), st.rows[s].frn, frn, frn, RANK_DEPTH_MAX);
    }
  }

  /** Moving directory 40 arms the repair. */
  method MoveDir(ix: VolumeIndex)
    requires Roomy(ix, 0) && |ix.slots.entries| == 3 + DEPTH_REPAIR_SLICE && 40 in Contents(ix.Snap())
    requires Contents(ix.Snap())[40] == File(30, "a", DIR)
    modifies ix
    ensures Roomy(ix, 1) && Loose(ix) && JustArmed(ix.Snap()) && |ix.slots.entries| == 3 + DEPTH_REPAIR_SLICE
    ensures Contents(ix.Snap()) == old(Contents(ix.Snap()))[40 := File(41, "a", DIR)]
    ensures RowsLeft(old(ix.spec.rows), ix.spec.rows, 40)
  {
    hide AtRest, CursorOk, Contents, StaysExact, TrustedExact, RowFor, NewKey, Usable, Accepts, Reparents, Outcome;
    hide RowsLeft;
    ghost var before := ix.Snap();
    MoveTaken(before);
    ix.Apply(Rename(40, 41, "a"));
    MoveArms(before, ix.Snap());
    LedgerFacts(ix.uni, before);
    LedgerFacts(ix.uni, ix.Snap());
  }

  lemma MoveTaken(st: State)
    requires AtRest(Plain(), st) && |st.nameArena| <= 100000 && |st.foldedArena| <= 200000
    requires 40 in Contents(st) && Contents(st)[40] == File(30, "a", DIR)
    ensures Accepts(Plain(), st, Rename(40, 41, "a")) && Reparents(st, 40, 41) && 40 in st.frnMap
    ensures |st.nameArena| == LedgerOf(st).nameBytes && |st.foldedArena| == LedgerOf(st).foldedBytes
    ensures Step(Plain(), LedgerOf(st), Rename(40, 41, "a")) ==
            Ledger(Contents(st)[40 := File(41, "a", DIR)], |st.nameArena| + 1,
                   |st.foldedArena| + 2 + (if |st.foldedArena| == 0 then 1 else 0), |st.entries|)
  {
    hide StateOk, Usable;
    PlainName();
    LedgerFacts(Plain(), st);
    HeldFile(Plain(), st, 40);
  }

  lemma MoveArms(st: State, st': State)
    requires AtRest(Plain(), st) && AtRest(Plain(), st') && Outcome(Plain(), st, st', Rename(40, 41, "a"))
    requires Accepts(Plain(), st, Rename(40, 41, "a")) && Reparents(st, 40, 41) && 40 in st.frnMap
    ensures JustArmed(st') && RowsLeft(st.rows, st'.rows, 40) && |st'.entries| == |st'.rows|
  {
    hide StateOk, Accepts, Reparents, RowFor, NewKey;
    SlotForFacts(Plain(), st, 40);
    SameTable(Plain(), st);
    SameTable(Plain(), st');
  }

  /** File 50 under 45 under root 30, 50's cached depth still that of an orphan. */
  ghost predicate Branch(st: State)
    requires MapOk(st.rows, st.frnMap)
  {
    && DeepBranch(Contents(st)) && 50 in st.frnMap
    && 1 != st.frnMap[50] < |st.rankKey| && st.rankKey[st.frnMap[50]] as int % 128 == 0
  }

  ghost predicate DeepBranch(files: map<nat, File>) {
    && 30 in files && files[30].parent == 30 && 45 in files && files[45].parent == 30 && 50 in files
    && files[50].parent == 45
    && 60 !in files
  }

  ghost predicate Leaf5(files: map<nat, File>) {
    5 in files && !files[5].flags.dir && OnlyLeafNames(files, 5, 5)
  }

  lemma BranchIsDeep(files: map<nat, File>)
    requires DeepBranch(files)
    ensures NewDepth(files, 60, 50) == 3
  {
    assert LinksTo(files, 30, 60, 124).None? && LinksTo(files, 45, 60, 125).None?;
    assert Paths.DepthIn(files, 30, 124) == 0 && Paths.DepthIn(files, 45, 125) == 1;
  }

  /** File 5 in slot 1, swept and marked. */
  ghost predicate Marked5(st: State) {
    st.repairArmed && 1 < |st.rows| && RowHolds(st.rows[1], 5) && DoneSlot(st, 1)
  }

  lemma SweptIsMarked(uni: Unicode, st: State)
    requires AtRest(uni, st) && CursorOk(st, {}) && st.repairArmed && st.repairCursor == DEPTH_REPAIR_SLICE
    requires 1 < |st.rows| && RowHolds(st.rows[1], 5)
    ensures Marked5(st)
  {
    hide StateOk;
    SweepShape(uni, st);
    SlotFacts(uni, st, 1);
  }

  /** A table in mid-repair, 5 marked, nobody naming 45, 50 or 60 yet. */
  method MidRepair() returns (ix: VolumeIndex)
    ensures fresh(ix) && Roomy(ix, 1) && |ix.slots.entries| == 3 + DEPTH_REPAIR_SLICE
    ensures Marked5(ix.Snap()) && TrustedExact(ix.Snap()) && Young(Contents(ix.Snap()))
  {
    hide AtRest, CursorOk, Contents, MarkedExact, TrustedExact, Filled3, Young, Marked5;
    ix := LargeTable(5, 30, PLAIN_FILE, 40, 30, DIR);
    ghost var files := Contents(ix.Snap());
    Has40(files);
    MoveDir(ix);
    SweepOnce(ix);
    SweptIsMarked(Plain(), ix.Snap());
    ArmedExact(ix.Snap());
    YoungIs(files);
  }

  lemma ArmedExact(st: State)
    requires st.repairArmed
    ensures TrustedExact(st) <==> MarkedExact(st)
  {
  }

  /** Nobody is or names 45, 50 or 60, and nobody names 5, a plain file. */
  ghost predicate Young(files: map<nat, File>) {
    && 30 in files && files[30].parent == 30 && 5 in files && !files[5].flags.dir
    && 45 !in files && 50 !in files && 60 !in files
    && forall g :: g in files ==>
      files[g].parent != 5 && files[g].parent != 45 && files[g].parent != 50 && files[g].parent != 60
  }

  lemma Has40(files: map<nat, File>)
    requires Filled3(files, 5, File(30, "a", PLAIN_FILE), 40, File(30, "a", DIR))
    ensures 40 in files && files[40] == File(30, "a", DIR)
  {
  }

  lemma YoungIs(files: map<nat, File>)
    requires Filled3(files, 5, File(30, "a", PLAIN_FILE), 40, File(30, "a", DIR))
    ensures Young(files[40 := File(41, "a", DIR)])
  {
  }

  /** File 50 comes under a parent 45 not there yet, then 45 under the root: 50 is deeper now, and not marked. */
  method LateBranch() returns (ix: VolumeIndex)
    ensures fresh(ix) && Roomy(ix, 1) && |ix.slots.entries| == 5 + DEPTH_REPAIR_SLICE
    ensures Marked5(ix.Snap()) && TrustedExact(ix.Snap()) && Branch(ix.Snap()) && Leaf5(Contents(ix.Snap()))
  {
    hide AtRest, CursorOk, Contents, MarkedExact, TrustedExact, Young, OnlyLeafNames, StaysExact, RowFor, NewKey;
    hide Accepts, StartDepth, Marked5;
    ix := MidRepair();
    ghost var st0 := ix.Snap();
    YoungLeaves(Contents(st0));
    RoomFor(st0, 50, 45, PLAIN_FILE);
    Unnamed(st0, 50);
    MarkedIsArmed(st0);
    FreshKeeps(Plain(), st0, Create(50, 45, "a", PLAIN_FILE), 50);
    var slot := Add(ix, 1, 50, 45, PLAIN_FILE);
    ghost var st1 := ix.Snap();
    Orphan50(st0, st1, slot);
    RoomFor(st1, 45, 30, DIR);
    FreshKeeps(Plain(), st1, Create(45, 30, "a", DIR), 50);
    var above := Add(ix, 1, 45, 30, DIR);
    BranchGrown(st0, st1, ix.Snap(), slot, above);
  }

  lemma MarkedIsArmed(st: State)
    requires Marked5(st)
    ensures st.repairArmed
  {
  }

  lemma YoungLeaves(files: map<nat, File>)
    requires Young(files)
    ensures 50 !in files && 45 !in files && OnlyLeafNames(files, 50, 50)
    ensures var more := files[50 := File(45, "a", PLAIN_FILE)];
            45 !in more && OnlyLeafNames(more, 45, 50)
            && DeepBranch(more[45 := File(30, "a", DIR)]) && Leaf5(more[45 := File(30, "a", DIR)])
  {
  }

  lemma Unnamed(st: State, frn: nat)
    requires MapOk(st.rows, st.frnMap) && frn !in Contents(st)
    ensures frn !in st.frnMap
  {
  }

  /** What the first create leaves: an orphan, its key zero, its slot past the marks. */
  lemma Orphan50(st0: State, st1: State, slot: nat)
    requires AtRest(Plain(), st0) && AtRest(Plain(), st1) && slot == |st0.entries| && 45 !in Contents(st0)
    requires 50 !in Contents(st0)
    requires Contents(st1) == Contents(st0)[50 := File(45, "a", PLAIN_FILE)]
    requires Placed(st0, st1, slot, RowFor(Plain(), 50, 45, "a", PLAIN_FILE), NewKey(st0, 50, 45, PLAIN_FILE, slot),
                    false, true)
    requires Marked5(st0)
    ensures Marked5(st1) && 50 in st1.frnMap && st1.frnMap[50] == slot && slot < |st1.rankKey|
    ensures st1.rankKey[slot] as int % 128 == 0
    ensures slot > 1 && !DoneSlot(st1, slot) && st1.repairArmed
  {
    hide StateOk, Contents;
    RowIs(Plain(), 50, 45, "a", PLAIN_FILE);
    Unnamed(st0, 45);
    SweepShape(Plain(), st0);
    HeldRow(Plain(), st1, slot);
  }

  lemma BranchGrown(st0: State, st1: State, st2: State, slot: nat, above: nat)
    requires AtRest(Plain(), st1) && AtRest(Plain(), st2) && above == |st1.entries| && Marked5(st1)
    requires Placed(st1, st2, above, RowFor(Plain(), 45, 30, "a", DIR), NewKey(st1, 45, 30, DIR, above), false, true)
    requires 50 in st1.frnMap && st1.frnMap[50] == slot && 1 < slot < |st1.rankKey|
    requires st1.rankKey[slot] as int % 128 == 0
    requires DeepBranch(Contents(st2))
    ensures Branch(st2) && Marked5(st2)
  {
    hide StateOk, Contents, DeepBranch, NewKey;
    RowIs(Plain(), 45, 30, "a", DIR);
    MapFacts(Plain(), st1, 50);
    SweepShape(Plain(), st1);
    HeldRow(Plain(), st2, slot);
  }

  /** Deleting 5 frees its slot and leaves the slot's mark. */
  method Drop5(ix: VolumeIndex)
    requires Roomy(ix, 1) && |ix.slots.entries| == 5 + DEPTH_REPAIR_SLICE
    requires Marked5(ix.Snap()) && TrustedExact(ix.Snap()) && Branch(ix.Snap()) && Leaf5(Contents(ix.Snap()))
    modifies ix
    ensures Loose(ix) && ix.repair.repairArmed && MarkedExact(ix.Snap()) && Branch(ix.Snap())
    ensures DoneSlot(ix.Snap(), 1) && ix.slots.freeSlots == [1]
  {
    hide AtRest, CursorOk, Contents, MarkedExact, TrustedExact, StaysExact, Branch, Leaf5, Usable;
    ghost var before := ix.Snap();
    LeafFacts(before);
    LedgerFacts(ix.uni, before);
    MarkedHeld(ix.uni, before);
    LeafGoes(ix.uni, before, 5);
    ix.Apply(Delete(5));
    LedgerFacts(ix.uni, ix.Snap());
    ArmedExact(ix.Snap());
    OnlyFree(ix.uni, ix.Snap(), 1);
    BranchKept(ix.uni, before, ix.Snap());
  }

  lemma LeafFacts(st: State)
    requires MapOk(st.rows, st.frnMap) && Leaf5(Contents(st))
    ensures 5 in Contents(st) && !Contents(st)[5].flags.dir && OnlyLeafNames(Contents(st), 5, 5)
  {
    hide OnlyLeafNames, Contents;
  }

  lemma MarkedHeld(uni: Unicode, st: State)
    requires AtRest(uni, st) && Marked5(st) && 5 in Contents(st)
    ensures 5 in st.frnMap && st.frnMap[5] == 1 < |st.rows| && 1 < |st.entries| && DoneSlot(st, 1)
    ensures st.entries[1].flags == Contents(st)[5].flags
  {
    hide StateOk, Contents;
    HeldFile(uni, st, 5);
    HeldRow(uni, st, 1);
  }

  lemma OnlyFree(uni: Unicode, st: State, s: nat)
    requires AtRest(uni, st) && s < |st.rows| && st.rows[s].Vacant? && |st.freeSlots| == 1
    ensures st.freeSlots == [s]
  {
    hide RowsOk, EntriesOk, MapOk, ArenasOk, ColumnsOk, MarksOk;
    assert s in st.freeSlots;
  }

  lemma BranchKept(uni: Unicode, st: State, st': State)
    requires AtRest(uni, st) && AtRest(uni, st') && Branch(st) && Contents(st') == Contents(st) - {5}
    requires 5 in st.frnMap && st.frnMap[5] == 1 && Placed(st, st', 1, Vacant, 255, false, false)
    ensures Branch(st')
  {
    hide StateOk, Contents;
    MapFacts(uni, st, 50);
    HeldRow(uni, st', st.frnMap[50]);
  }

  /** A marked slot recycled under a parent whose cached depth is stale starts wrong. */
  lemma RecycledStartsWrong(st: State)
    requires AtRest(Plain(), st) && st.repairArmed && Branch(st) && DoneSlot(st, 1) && st.freeSlots == [1]
    requires Accepts(Plain(), st, Create(60, 50, "a", PLAIN_FILE))
    ensures !StaysExact(Plain(), st, Create(60, 50, "a", PLAIN_FILE))
  {
    hide StateOk, Contents, Accepts, NewDepth, DeepBranch;
    BranchHas(Contents(st));
    Unnamed(st, 60);
    BranchIsDeep(Contents(st));
    assert SlotFor(st, 60) == 1 && StartDepth(st, 60, 50, 1) == 1;
  }

  lemma BranchHas(files: map<nat, File>)
    requires DeepBranch(files)
    ensures 60 !in files
  {
  }

  /** A file swept and deleted, its slot given to a file under a directory that has sunk unmarked since: the repair
      comes back to the slot and passes over it. */
  method RecycledStaysWrong() returns (ix: VolumeIndex)
    ensures fresh(ix) && ix.Valid() && !ix.repair.repairArmed && !DepthsExact(ix.Snap())
  {
    hide AtRest, CursorOk, Contents, MarkedExact, TrustedExact, DepthsExact, StaysExact, Branch, Leaf5, Accepts;
    hide Marked5;
    ix := LateBranch();
    Drop5(ix);
    RoomFor(ix.Snap(), 60, 50, PLAIN_FILE);
    RecycledStartsWrong(ix.Snap());
    DrainAfter(ix, Create(60, 50, "a", PLAIN_FILE));
  }

  // ---- searches around a compaction -----------------------------------------------------------

  /** With exact depths and no more candidates than the fuzzy budget, a compaction between two searches
      changes no hit. */
  method SearchAcrossCompaction(ix: VolumeIndex, query: string, maxResults: nat, accept: string -> bool,
                                poll: nat -> bool)
    returns (before: seq<TieredSearch.Hit>, after: seq<TieredSearch.Hit>, stopped: bool)
    requires ix.Valid() && DepthsExact(ix.Snap())
    requires |FuzzyScan.Candidates(ix.spec.rows, Encode(Fold(ix.uni, query)))| <= FuzzyTier.FUZZY_CAP
    modifies ix
    ensures ix.Valid() && DepthsExact(ix.Snap()) && (stopped ==> Polling.Raised(poll))
    ensures !stopped ==> after == before
  {
    hide AtRest, CursorOk, Contents, DepthsExact, TieredSearch.Answers, FuzzyScan.Candidates, Reference.ReferencePage;
    hide Encode, Fold, TieredSearch.HitsOf;
    hide Polling.Raised, TieredSearch.NameAccept, Compaction.Survivors, Compaction.Gather;
    var stop0, stop1;
    ghost var page0, s0, r0, d0, page1, s1, r1, d1;
    before, stop0, page0, s0, r0, d0 := ix.Search(query, maxResults, accept, poll);
    ghost var rows, key := ix.spec.rows, ix.strides.rankKey;
    ghost var orig := ix.Compact();
    Stability.CandidatesKept(rows, orig, Encode(Fold(ix.uni, query)));
    after, stop1, page1, s1, r1, d1 := ix.Search(query, maxResults, accept, poll);
    stopped := stop0 || stop1;
    Stability.CompactionKeepsPages(ix.uni, rows, key, orig, Fold(ix.uni, query), accept, maxResults);
  }
}
