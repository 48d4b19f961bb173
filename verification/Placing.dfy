/** The ordinary case: a file placed where no held file hangs below it, under a parent whose cached depth is right,
    leaves every cached depth right, its own included. */
module Placing {
  import opened Bytes
  import opened Names
  import opened Ranking
  import opened Table
  import opened Records
  import opened Columns
  import opened Presence
  import opened ClassBits
  import opened Depth
  import opened Journal
  import opened IndexState
  import opened Repair
  import opened Shifts
  import opened Verdict
  import opened VolumeIndex
  import Paths

  /** The depth file `f` is ranked by is its depth in the file table. */
  predicate RankedAtDepth(st: State, f: nat)
    requires MapOk(st.rows, st.frnMap) && f in Contents(st)
  {
    && f in st.frnMap && st.frnMap[f] < |st.rankKey|
    && st.rankKey[st.frnMap[f]] as int % 128 == Paths.DepthIn(Contents(st), f, 127)
  }

  /** No other held file has `f` for its parent. */
  predicate NobodyBelow(files: map<nat, File>, f: nat) {
    forall g :: g in files && g != f ==> files[g].parent != f
  }

  /** Depth, link by link: zero at the top of a chain, else one more than the parent's, as far as a key can say. */
  lemma DepthBelow(files: map<nat, File>, f: nat)
    requires f in files
    ensures Paths.DepthIn(files, f, 127) ==
              if files[f].parent == f || files[f].parent !in files then 0
              else Min(1 + Paths.DepthIn(files, files[f].parent, 127), 127)
  {
    if Paths.ParentIn(files, f).Some? {
      DepthClamp(files, files[f].parent, 127, 126);
    }
  }

  /** Exact depths, file by file. */
  lemma ExactFileByFile(uni: Unicode, st: State)
    requires AtRest(uni, st)
    ensures DepthsExact(st) <==> forall f :: f in Contents(st) ==> RankedAtDepth(st, f)
  {
    hide StateOk, DepthsExact, Contents;
    var disarmed := st.(repairArmed := false);
    LedgerFacts(uni, st);
    Unarmed(uni, st);
    TrustedIsRight(uni, disarmed);
    forall f | f in Contents(st) ensures f in st.frnMap && RankedAtDepth(st, f) == KeyRight(disarmed, st.frnMap[f]) {
      MapFacts(uni, st, f);
    }
    forall s: nat | s < |st.rows| && st.rows[s].Live?
      ensures st.rows[s].frn in Contents(st) && st.frnMap[st.rows[s].frn] == s
    {
      ExactIsRight(uni, st, s);
      MapOf(uni, st, {});
    }
  }

  lemma Unarmed(uni: Unicode, st: State)
    requires AtRest(uni, st)
    ensures var st' := st.(repairArmed := false);
            AtRest(uni, st') && Contents(st') == Contents(st) && (TrustedExact(st') <==> DepthsExact(st))
  {
    hide RowsOk, EntriesOk, MapOk, RecsOk, LiveRecs, OwnerOk, NamesAscend, RankOk, LanesOk, HeadOk, BsiOk, ArenaNoted;
    hide LanesNoted, FreeOk, Files, MapLive, AllLiveExact;
  }

  // ---- nothing hangs below -------------------------------------------------------------------

  lemma {:induction false} NoLinkTo(files: map<nat, File>, g: nat, f: nat, n: nat)
    requires g in files && g != f && NobodyBelow(files, f)
    ensures LinksTo(files, g, f, n).None?
    decreases n
  {
    if n > 0 && files[g].parent != g && files[g].parent in files {
      NoLinkTo(files, files[g].parent, f, n - 1);
    }
  }

  /** The parent the file is placed under is itself, missing, or held in a slot nothing outstanding will look at. */
  predicate UnderTrusted(st: State, f: nat, parent: nat) {
    parent == f || parent !in st.frnMap || Trusted(st, st.frnMap[parent])
  }

  /** Under such a parent the file starts at its true depth. */
  lemma StartsRight(uni: Unicode, st: State, f: nat, parent: nat)
    requires AtRest(uni, st) && TrustedRight(st) && NobodyBelow(Contents(st), f) && UnderTrusted(st, f, parent)
    ensures StartDepth(st, f, parent, SlotFor(st, f)) == NewDepth(Contents(st), f, parent)
  {
    hide StateOk, Contents, Paths.DepthIn, LinksTo, TrustedRight, NobodyBelow, KeyRight, Trusted;
    LedgerFacts(uni, st);
    SlotForFacts(uni, st, f);
    SweepShape(uni, st);
    if parent != f && parent in st.frnMap {
      MapFacts(uni, st, parent);
      TrustedHere(st, st.frnMap[parent]);
      NoLinkTo(Contents(st), parent, f, RANK_DEPTH_MAX - 1);
      DepthClamp(Contents(st), parent, RANK_DEPTH_MAX, RANK_DEPTH_MAX - 1);
    }
  }

  lemma TrustedHere(st: State, s: nat)
    requires MapOk(st.rows, st.frnMap) && TrustedRight(st) && s < |st.rows| && st.rows[s].Live? && Trusted(st, s)
    ensures s < |st.rankKey| && st.rows[s].frn in Contents(st)
    ensures st.rankKey[s] as int % 128 == Paths.DepthIn(Contents(st), st.rows[s].frn, RANK_DEPTH_MAX)
  {
    assert KeyRight(st, s);
  }

  lemma OthersStay(uni: Unicode, st: State, f: nat, parent: nat)
    requires AtRest(uni, st) && NobodyBelow(Contents(st), f)
    ensures forall s: nat :: s < |st.rows| && s != SlotFor(st, f) && st.rows[s].Live? ==> Unmoved(st, f, parent, s)
  {
    hide StateOk, Contents, LinksTo, NobodyBelow;
    SlotForFacts(uni, st, f);
    forall s: nat | s < |st.rows| && s != SlotFor(st, f) && st.rows[s].Live? ensures Unmoved(st, f, parent, s) {
      ExactIsRight(uni, st, s);
      MapOf(uni, st, {});
      NoLinkTo(Contents(st), st.rows[s].frn, f, RANK_DEPTH_MAX);
    }
  }

  /** A create or rename of a file nothing hangs below, under such a parent, meets its condition. */
  lemma PlacementIsOrdinary(uni: Unicode, st: State, f: nat, parent: nat)
    requires AtRest(uni, st) && TrustedExact(st) && NobodyBelow(Contents(st), f) && UnderTrusted(st, f, parent)
    ensures PlacementKeeps(st, f, parent, SlotFor(st, f))
  {
    hide StateOk, Contents, StartDepth, NewDepth, TrustedExact, TrustedRight, NobodyBelow, Unmoved, Reparents;
    TrustedIsRight(uni, st);
    StartsRight(uni, st, f, parent);
    OthersStay(uni, st, f, parent);
  }

  /** A file just placed is ranked at its depth in the table it now stands in. */
  lemma PlacedAtDepth(uni: Unicode, st: State, st': State, slot: nat, row: Row, key: byte, arm: bool, rewind: bool)
    requires AtRest(uni, st) && AtRest(uni, st') && row.Live? && Placed(st, st', slot, row, key, arm, rewind)
    requires Contents(st') == Contents(st)[row.frn := FileOf(row)] && row.frn in st'.frnMap
    requires key as int % 128 == NewDepth(Contents(st), row.frn, row.parent)
    ensures RankedAtDepth(st', row.frn)
  {
    hide StateOk, Contents, NewDepth;
    NewDepthIs(Contents(st), row.frn, FileOf(row));
    MapOf(uni, st', {});
    assert st'.rows[slot] == row;
  }

  /** Where the event puts a file, and under which parent. */
  predicate Places(ev: Event, f: nat, parent: nat) {
    match ev
    case Create(frn, p, _, _) => frn == f && p == parent
    case Rename(frn, p, _) => frn == f && p == parent
    case _ => false
  }

  /** The event, applied: the trusted depths stay right, and the file it places is ranked at its depth. */
  method PlaceOrdinary(ix: VolumeIndex, ev: Event, f: nat, parent: nat)
    requires ix.Valid() && TrustedExact(ix.Snap()) && Places(ev, f, parent)
    requires NobodyBelow(Contents(ix.Snap()), f) && UnderTrusted(ix.Snap(), f, parent)
    modifies ix
    ensures ix.Valid() && LedgerOf(ix.Snap()) == Step(ix.uni, LedgerOf(old(ix.Snap())), ev)
    ensures TrustedExact(ix.Snap())
    ensures Takes(ix.uni, old(LedgerOf(ix.Snap())), ev) ==> f in Contents(ix.Snap()) && RankedAtDepth(ix.Snap(), f)
  {
    hide AtRest, CursorOk, LedgerOf, Step, Outcome, TrustedExact, StaysExact, Contents, NobodyBelow, RankedAtDepth;
    hide Takes;
    ghost var before := ix.Snap();
    PlacementIsOrdinary(ix.uni, before, f, parent);
    OrdinaryMeets(ix.uni, before, ev, f, parent);
    ix.Apply(ev);
    if Takes(ix.uni, LedgerOf(before), ev) {
      PlacedRight(ix.uni, before, ix.Snap(), ev, f, parent);
    }
  }

  lemma OrdinaryMeets(uni: Unicode, st: State, ev: Event, f: nat, parent: nat)
    requires AtRest(uni, st) && Places(ev, f, parent) && PlacementKeeps(st, f, parent, SlotFor(st, f))
    ensures StaysExact(uni, st, ev)
  {
    hide StateOk, PlacementKeeps, Usable, HasRoom;
  }

  lemma TakesIsAccepts(uni: Unicode, st: State, ev: Event)
    requires AtRest(uni, st) && (ev.Create? || ev.Rename?)
    ensures Takes(uni, LedgerOf(st), ev) <==> Accepts(uni, st, ev)
  {
    hide StateOk, Usable, Contents;
    LedgerFacts(uni, st);
  }

  lemma PlacedRight(uni: Unicode, st: State, st': State, ev: Event, f: nat, parent: nat)
    requires AtRest(uni, st) && AtRest(uni, st') && TrustedExact(st) && Places(ev, f, parent)
    requires NobodyBelow(Contents(st), f) && UnderTrusted(st, f, parent) && Takes(uni, LedgerOf(st), ev)
    requires Outcome(uni, st, st', ev) && LedgerOf(st') == Step(uni, LedgerOf(st), ev)
    ensures f in Contents(st') && RankedAtDepth(st', f)
  {
    hide StateOk, Contents, TrustedExact, TrustedRight, NobodyBelow, Takes, Accepts, Placed, NewDepth, RowFor;
    hide RankedAtDepth, StartDepth, LedgerOf;
    TakesIsAccepts(uni, st, ev);
    AcceptedContents(uni, st, st', ev);
    TrustedIsRight(uni, st);
    StartsRight(uni, st, f, parent);
    SlotForFacts(uni, st, f);
    LedgerFacts(uni, st');
    var slot := SlotFor(st, f);
    match ev
    case Create(frn, p, raw, flags) =>
      PlacedAtDepth(uni, st, st', slot, RowFor(uni, frn, p, raw, flags), NewKey(st, frn, p, flags, slot),
                    Reparents(st, frn, p), true);
    case Rename(frn, p, raw) =>
      var flags := st.entries[slot].flags;
      PlacedAtDepth(uni, st, st', slot, RowFor(uni, frn, p, raw, flags), NewKey(st, frn, p, flags, slot),
                    Reparents(st, frn, p), false);
  }

  // ---- the everyday events, one by one and in runs ---------------------------------------------

  /** With every depth exact and no repair outstanding, a new file no held file names for its parent leaves every
      depth exact, its own with the rest. */
  method CreateStaysExact(ix: VolumeIndex, frn: nat, parent: nat, name: string, flags: Flags)
    requires ix.Valid() && !ix.repair.repairArmed && DepthsExact(ix.Snap())
    requires frn !in Contents(ix.Snap()) && NobodyBelow(Contents(ix.Snap()), frn)
    modifies ix
    ensures ix.Valid() && !ix.repair.repairArmed && DepthsExact(ix.Snap())
    ensures LedgerOf(ix.Snap()) == Step(ix.uni, LedgerOf(old(ix.Snap())), Create(frn, parent, name, flags))
    ensures forall f :: f in Contents(ix.Snap()) ==> RankedAtDepth(ix.Snap(), f)
  {
    hide AtRest, CursorOk, LedgerOf, Step, Outcome, StaysExact, DepthsExact, Contents, NobodyBelow, RankedAtDepth;
    ghost var before := ix.Snap();
    NoneOutstanding(before);
    PlacementIsOrdinary(ix.uni, before, frn, parent);
    OrdinaryMeets(ix.uni, before, Create(frn, parent, name, flags), frn, parent);
    ix.Apply(Create(frn, parent, name, flags));
    StaysUnarmed(ix.uni, before, ix.Snap(), frn, parent, name, flags);
    NoneOutstanding(ix.Snap());
    ExactFileByFile(ix.uni, ix.Snap());
  }

  lemma NoneOutstanding(st: State)
    requires !st.repairArmed
    ensures TrustedExact(st) <==> DepthsExact(st)
    ensures forall f, parent :: UnderTrusted(st, f, parent)
  {
    hide DepthsExact;
  }

  lemma StaysUnarmed(uni: Unicode, st: State, st': State, frn: nat, parent: nat, name: string, flags: Flags)
    requires AtRest(uni, st) && !st.repairArmed && frn !in Contents(st)
    requires Outcome(uni, st, st', Create(frn, parent, name, flags))
    ensures !st'.repairArmed
  {
    hide StateOk, Contents, Accepts, RowFor, NewKey;
    LedgerFacts(uni, st);
  }

  /** Creates of different files, none of a file an earlier one names for its parent. */
  predicate ParentsFirst(evs: seq<Event>) {
    && (forall i :: 0 <= i < |evs| ==> evs[i].Create?)
    && forall i, j :: 0 <= i < j < |evs| ==> evs[i].frn != evs[j].frn && evs[i].parent != evs[j].frn
  }

  predicate CreatedBy(evs: seq<Event>, i: nat, f: nat, parent: nat) {
    i < |evs| && evs[i].Create? && evs[i].frn == f && evs[i].parent == parent
  }

  /** Each held file was created by one of the events. */
  ghost predicate FromEvents(files: map<nat, File>, evs: seq<Event>) {
    forall f :: f in files ==> exists i: nat :: CreatedBy(evs, i, f, files[f].parent)
  }

  lemma FromEventsMore(uni: Unicode, l: Ledger, evs: seq<Event>, n: nat)
    requires ParentsFirst(evs) && n < |evs| && FromEvents(l.files, evs[..n])
    ensures FromEvents(Step(uni, l, evs[n]).files, evs[..n + 1])
    ensures evs[n].frn !in l.files && NobodyBelow(l.files, evs[n].frn)
  {
    hide Usable, HasRoom;
    forall f | f in l.files ensures f != evs[n].frn && l.files[f].parent != evs[n].frn {
      var i: nat :| CreatedBy(evs[..n], i, f, l.files[f].parent);
    }
    var files, done := Step(uni, l, evs[n]).files, evs[..n + 1];
    forall f | f in files ensures exists i: nat :: CreatedBy(done, i, f, files[f].parent) {
      if f in l.files && files[f] == l.files[f] {
        var i: nat :| CreatedBy(evs[..n], i, f, l.files[f].parent);
        assert CreatedBy(done, i, f, files[f].parent);
      } else {
        assert CreatedBy(done, n, f, files[f].parent);
      }
    }
  }

  /** A volume entered parents first has every depth exact without any sweep. */
  method ParentsFirstIsExact(uni: Unicode, root: string, evs: seq<Event>) returns (ix: VolumeIndex)
    requires ParentsFirst(evs)
    ensures fresh(ix) && ix.Valid() && !ix.repair.repairArmed && DepthsExact(ix.Snap())
    ensures LedgerOf(ix.Snap()) == Run(uni, Ledger(map[], 0, 0, 0), evs)
    ensures forall f :: f in Contents(ix.Snap()) ==> RankedAtDepth(ix.Snap(), f)
  {
    hide AtRest, CursorOk, DepthsExact, Contents, RankedAtDepth, Step, NobodyBelow, FromEvents;
    ix := new VolumeIndex(uni, root);
    NothingYet(uni);
    ghost var empty := LedgerOf(ix.Snap());
    for i := 0 to |evs|
      invariant fresh(ix) && ix.Valid() && ix.uni == uni && !ix.repair.repairArmed && DepthsExact(ix.Snap())
      invariant LedgerOf(ix.Snap()) == Run(uni, empty, evs[..i]) && FromEvents(Contents(ix.Snap()), evs[..i])
    {
      FromEventsMore(uni, LedgerOf(ix.Snap()), evs, i);
      CreateStaysExact(ix, evs[i].frn, evs[i].parent, evs[i].name, evs[i].flags);
      RunSnoc(uni, empty, evs[..i], evs[i]);
      assert evs[..i] + [evs[i]] == evs[..i + 1];
    }
    assert evs[..|evs|] == evs;
    ExactFileByFile(uni, ix.Snap());
  }

  lemma NothingYet(uni: Unicode)
    ensures AtRest(uni, Empty()) && LedgerOf(Empty()) == Ledger(map[], 0, 0, 0) && DepthsExact(Empty())
    ensures FromEvents(Contents(Empty()), [])
  {
    hide AtRest, DepthsExact;
    EmptyAtRest(uni);
    NothingHeld();
    ExactFileByFile(uni, Empty());
  }

  lemma NothingHeld()
    requires MapOk(Empty().rows, Empty().frnMap) && Contents(Empty()) == map[]
    ensures LedgerOf(Empty()) == Ledger(map[], 0, 0, 0)
  {
  }
}
