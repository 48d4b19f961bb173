/** Tiered search: the passes, their gates and whole-pass skips, and the page they must agree on. */
module TieredSearch {
  import opened Bytes
  import opened Utf8
  import opened Names
  import opened Polling
  import opened Ranking
  import opened Scanning
  import opened Presence
  import opened ClassBits
  import opened FuzzyTier
  import opened Table
  import opened Records
  import opened Columns
  import opened Ordering
  import opened Selecting
  import opened IndexState
  import opened Repair
  import opened Reference
  import opened HeadScan
  import opened LaneScan
  import opened ArenaScan
  import opened ArenaPass
  import opened FuzzyScan

  // ---- skipping a whole pass loses nothing ---------------------------------------------------

  /** A record the query does not occur in has no tier. */
  lemma NoTierWithout(rec: seq<byte>, q: seq<byte>, skip: bool)
    requires q != [] && forall p: nat :: !Occurs(rec, q, p)
    ensures RecordTier(rec, q, skip) == None
  {
    FindNone(rec, q, 0);
  }

  /** With start hits left to the head pass, a word boundary is the best the arena can still give. */
  lemma {:induction false} SkipBound(acc: Option<Tier>, rec: seq<byte>, q: seq<byte>, p: nat)
    requires q != [] && (acc.Some? ==> TierBase(acc.value) <= TierBase(WordBoundary))
    ensures var t := ScanTier(acc, rec, q, true, p, 0, |rec|); t.Some? ==> TierBase(t.value) <= TierBase(WordBoundary)
    decreases if p <= |rec| then |rec| - p + 1 else 0
  {
    var f := FindFrom(rec, q, p);
    if f.Some? {
      SkipBound(Tally(acc, rec, |q|, true, f.value, 0, |rec|), rec, q, f.value + |q|);
    }
  }

  /** Bounds of the arena, lane and fuzzy stages under a rejected bound. */
  lemma BelowRejected(sel: Selector, ub: real, key: seq<byte>, s: nat, t: Option<Tier>)
    requires sel.Valid() && sel.Rejects(ub) && (t.Some? ==> TierBase(t.value) <= ub)
    ensures TierDone(sel.heap, sel.cap, sel.accept, key, s, t)
  {
    hide BestFirst, HeapCounted, SeenOk, FuzzyHeld, RefsOk, CoveredBy, DepthPen;
    if t.Some? && s < |key| {
      UnderBound(key[s], s, t.value);
      sel.RejectedIsCovered(ub, Score(key[s], s, t.value, TierBase(t.value)));
    }
  }

  lemma FuzzyScore(key: byte, s: nat, base: real)
    requires 0.0 <= base <= TierUpperBound(Fuzzy)
    ensures Score(key, s, Fuzzy, base).score <= TierUpperBound(Fuzzy)
  {
    hide DepthPen;
    ScoreBound(key, base);
  }

  lemma FuzzyRejected(sel: Selector, key: seq<byte>, row: Row, fq: string, s: nat)
    requires sel.Valid() && sel.Rejects(TierUpperBound(Fuzzy)) && fq != ""
    ensures FuzzyDone(sel.heap, sel.cap, sel.accept, key, row, fq, s)
  {
    hide BestFirst, HeapCounted, SeenOk, FuzzyHeld, RefsOk, CoveredBy, DepthPen, FuzzyBaseOf, Score, TierUpperBound;
    if FuzzyBaseOf(row, fq).Some? && s < |key| {
      FuzzyBaseRange(row, fq);
      FuzzyScore(key[s], s, FuzzyBaseOf(row, fq).value);
      sel.RejectedIsCovered(TierUpperBound(Fuzzy), Score(key[s], s, Fuzzy, FuzzyBaseOf(row, fq).value));
    }
  }

  /** Every live row's record tier, start hits aside if skipped, is done. */
  ghost predicate RecordsDone(st: State, q: seq<byte>, skip: bool, heap: seq<Scored>, cap: nat, accept: nat -> bool)
    requires q != []
  {
    forall s :: 0 <= s < |st.rows| && st.rows[s].Live? ==>
      TierDone(heap, cap, accept, st.rankKey, s, RecordTier(st.rows[s].folded, q, skip))
  }

  ghost predicate LanesDone(uni: Unicode, st: State, q: seq<byte>, heap: seq<Scored>, cap: nat, accept: nat -> bool) {
    forall s :: 0 <= s < |st.rows| && InLane(uni, st.rows[s], q) ==>
      TierDone(heap, cap, accept, st.rankKey, s, Some(Initials))
  }

  ghost predicate HeadsDone(st: State, b: byte, heap: seq<Scored>, cap: nat, accept: nat -> bool) {
    forall s :: 0 <= s < |st.rows| ==> TierDone(heap, cap, accept, st.rankKey, s, HeadTier(st.rows[s], b))
  }

  lemma GateSkips(uni: Unicode, st: State, q: seq<byte>, skip: bool, heap: seq<Scored>, cap: nat, accept: nat -> bool)
    requires AtRest(uni, st) && q != [] && !MayContain(st.arenaGrams, q)
    ensures RecordsDone(st, q, skip, heap, cap, accept)
  {
    GatesOf(uni, st);
    ArenaGate(st.rows, st.arenaGrams, q);
    hide AtRest, MayContain, Occurs, RecordTier, ArenaNoted;
    forall s | 0 <= s < |st.rows| && st.rows[s].Live?
      ensures TierDone(heap, cap, accept, st.rankKey, s, RecordTier(st.rows[s].folded, q, skip))
    {
      NoTierWithout(st.rows[s].folded, q, skip);
    }
  }

  lemma GatesOf(uni: Unicode, st: State)
    requires AtRest(uni, st)
    ensures ArenaNoted(st.rows, st.arenaGrams) && LanesNoted(uni, st.rows, st.laneGrams)
    ensures LanesOk(uni, st.rows, st.initials) && HeadOk(st.rows, st.head) && RowsOk(uni, st.rows)
    ensures st.liveCount == |st.frnMap|
  {
    hide EntriesOk, MapOk, FreeOk, ArenasOk, RankOk, LanesOk, HeadOk, BsiOk, ArenaNoted, LanesNoted, MarksOk, RowsOk;
  }

  lemma LaneGateSkips(uni: Unicode, st: State, q: seq<byte>, heap: seq<Scored>, cap: nat, accept: nat -> bool)
    requires AtRest(uni, st) && !MayContain(st.laneGrams, q)
    ensures LanesDone(uni, st, q, heap, cap, accept)
  {
    GatesOf(uni, st);
    LanesGate(uni, st.rows, st.laneGrams, q);
    hide AtRest, MayContain, Occurs, LanesNoted, LaneFor, TierDone;
  }

  lemma RecordsRejected(uni: Unicode, st: State, fq: string, q: seq<byte>, sel: Selector)
    requires Setup(uni, st, fq, sel) && q != [] && (sel.Full() ==> sel.floor.Some?)
    requires sel.Rejects(TierUpperBound(WordBoundary))
    ensures RecordsDone(st, q, true, sel.heap, sel.cap, sel.accept)
  {
    hide AtRest, TierDone;
    forall s | 0 <= s < |st.rows| && st.rows[s].Live?
      ensures TierDone(sel.heap, sel.cap, sel.accept, st.rankKey, s, RecordTier(st.rows[s].folded, q, true))
    {
      SkipBound(None, st.rows[s].folded, q, 0);
      BelowRejected(sel, TierUpperBound(WordBoundary), st.rankKey, s, RecordTier(st.rows[s].folded, q, true));
    }
  }

  lemma LanesRejected(uni: Unicode, st: State, fq: string, q: seq<byte>, sel: Selector)
    requires Setup(uni, st, fq, sel) && (sel.Full() ==> sel.floor.Some?) && sel.Rejects(TierUpperBound(Initials))
    ensures LanesDone(uni, st, q, sel.heap, sel.cap, sel.accept)
  {
    hide AtRest, TierDone, InLane;
    forall s | 0 <= s < |st.rows| ensures TierDone(sel.heap, sel.cap, sel.accept, st.rankKey, s, Some(Initials)) {
      BelowRejected(sel, TierUpperBound(Initials), st.rankKey, s, Some(Initials));
    }
  }

  lemma AllFuzzyRejected(uni: Unicode, st: State, fq: string, sel: Selector)
    requires Setup(uni, st, fq, sel) && (sel.Full() ==> sel.floor.Some?) && sel.Rejects(TierUpperBound(Fuzzy))
    ensures forall s :: 0 <= s < |st.rows| ==> FuzzyDone(sel.heap, sel.cap, sel.accept, st.rankKey, st.rows[s], fq, s)
  {
    hide AtRest, FuzzyDone;
    forall s | 0 <= s < |st.rows| ensures FuzzyDone(sel.heap, sel.cap, sel.accept, st.rankKey, st.rows[s], fq, s) {
      FuzzyRejected(sel, st.rankKey, st.rows[s], fq, s);
    }
  }

  // ---- the three gated stages -----------------------------------------------------------------------

  /** The arena stage: skipped when its answers are all in, cannot reach the page, or provably do not exist. */
  method ArenaStage(uni: Unicode, rankKey: seq<byte>, arena: seq<byte>, owner: seq<nat>, recs: seq<ArenaRec>,
                    entries: seq<Entry>, grams: Grams,
                    q: seq<byte>, short: bool, poll: nat -> bool, sel: Selector, ghost st: State, ghost fq: string)
    returns (cancelled: bool)
    requires Setup(uni, st, fq, sel) && rankKey == st.rankKey && arena == st.foldedArena && owner == st.owner
    requires recs == st.arenaRecs && entries == st.entries
    requires q == Encode(fq) && q != [] && grams == st.arenaGrams
    modifies sel
    ensures Setup(uni, st, fq, sel) && Advances(old(sel.heap), sel.heap, sel.cap)
    ensures OffersWithin(old(sel.offers), sel.offers, 1)
    ensures cancelled ==> Raised(poll)
    ensures !cancelled ==> RecordsDone(st, q, short, sel.heap, sel.cap, sel.accept)
  {
    hide AtRest, Setup, Encode, Advances, RecordTier, TierDone, MayContain;
    SetupFacts(uni, st, fq, sel);
    FloorReady(uni, st, fq, sel);
    AdvancesRefl(sel.heap, sel.cap);
    if short && sel.Rejects(TierUpperBound(WordBoundary)) {
      RecordsRejected(uni, st, fq, q, sel);
      return false;
    }
    if !MayContain(grams, q) {
      GateSkips(uni, st, q, short, sel.heap, sel.cap, sel.accept);
      return false;
    }
    cancelled := ScanArena(uni, rankKey, arena, owner, recs, entries, q, short, poll, sel, st, fq);
  }

  method LaneStage(uni: Unicode, rankKey: seq<byte>, lanes: seq<byte>, grams: Grams, q: seq<byte>, poll: nat -> bool,
                   sel: Selector, ghost st: State, ghost fq: string)
    returns (cancelled: bool)
    requires Setup(uni, st, fq, sel) && rankKey == st.rankKey && lanes == st.initials && grams == st.laneGrams
    requires q == Encode(fq)
    modifies sel
    ensures Setup(uni, st, fq, sel) && Advances(old(sel.heap), sel.heap, sel.cap)
    ensures OffersWithin(old(sel.offers), sel.offers, 1)
    ensures cancelled ==> Raised(poll)
    ensures !cancelled ==> LanesDone(uni, st, q, sel.heap, sel.cap, sel.accept)
  {
    hide AtRest, Encode, Advances, TierDone, MayContain, InLane, LanesOk, Searchable, BestFirst, HeapCounted, SeenOk;
    hide FloorOf, FuzzyHeld, RefFor, RefsOk;
    SetupFacts(uni, st, fq, sel);
    FloorReady(uni, st, fq, sel);
    AdvancesRefl(sel.heap, sel.cap);
    if |q| > INITIALS_STRIDE {
      WideQuery(uni, st, q, sel.heap, sel.cap, sel.accept);
      return false;
    }
    if sel.Rejects(TierUpperBound(Initials)) {
      LanesRejected(uni, st, fq, q, sel);
      return false;
    }
    if !MayContain(grams, q) {
      LaneGateSkips(uni, st, q, sel.heap, sel.cap, sel.accept);
      return false;
    }
    GatesOf(uni, st);
    cancelled := LanePass(uni, rankKey, lanes, q, poll, sel, st.rows, fq);
  }

  lemma WideQuery(uni: Unicode, st: State, q: seq<byte>, heap: seq<Scored>, cap: nat, accept: nat -> bool)
    requires |q| > INITIALS_STRIDE
    ensures LanesDone(uni, st, q, heap, cap, accept)
  {
  }

  /** Every row no other pass claimed has its fuzzy offer done, or was let go by the budget. */
  ghost predicate FuzziesDone(st: State, fq: string, o0: seq<nat>, dropped: set<nat>, heap: seq<Scored>, cap: nat,
                              accept: nat -> bool) {
    |Encode(fq)| >= 3 ==> forall s :: 0 <= s < |st.rows| && s < |o0| && o0[s] == 0 ==>
      FuzzyDone(heap, cap, accept, st.rankKey, st.rows[s], fq, s) || s in dropped
  }

  /** At most one more offer, and only to slots with none. */
  predicate FuzzyOffers(o0: seq<nat>, o1: seq<nat>) {
    |o1| == |o0| && forall s :: 0 <= s < |o1| ==> o1[s] == o0[s] || (o0[s] == 0 && o1[s] == 1)
  }

  ghost predicate DroppedOk(st: State, o1: seq<nat>, dropped: set<nat>) {
    forall s :: s in dropped ==> s < |st.rows| && s < |o1| && o1[s] == 0
  }

  method FuzzyStage(uni: Unicode, rankKey: seq<byte>, arena: seq<byte>, entries: seq<Entry>, bsi: seq<Word>,
                    bsiWords: nat, q: seq<byte>, fq: string,
                    poll: nat -> bool, sel: Selector, ghost st: State)
    returns (cancelled: bool, ghost survivors: nat, ghost retained: set<nat>, ghost dropped: set<nat>)
    requires Setup(uni, st, fq, sel) && q == Encode(fq) && rankKey == st.rankKey && arena == st.foldedArena
    requires entries == st.entries
    requires bsi == st.bsi && bsiWords == st.bsiWords
    modifies sel
    ensures Setup(uni, st, fq, sel) && Advances(old(sel.heap), sel.heap, sel.cap)
    ensures FuzzyOffers(old(sel.offers), sel.offers)
    ensures !cancelled ==>
              Budgeted(Candidates(st.rows, q), rankKey, survivors, retained, dropped)
              && DroppedOk(st, sel.offers, dropped)
    ensures cancelled ==> Raised(poll)
    ensures !cancelled ==> FuzziesDone(st, fq, old(sel.offers), dropped, sel.heap, sel.cap, sel.accept)
  {
    hide AtRest, Setup, Encode, Advances, FuzzyDone, Budgeted, Candidates;
    SetupFacts(uni, st, fq, sel);
    FloorReady(uni, st, fq, sel);
    AdvancesRefl(sel.heap, sel.cap);
    NoBudget(Candidates(st.rows, q), rankKey);
    if |q| < 3 {
      return false, 0, {}, {};
    }
    if sel.Rejects(TierUpperBound(Fuzzy)) {
      AllFuzzyRejected(uni, st, fq, sel);
      return false, 0, {}, {};
    }
    cancelled, survivors, retained, dropped := FuzzyPass(uni, rankKey, arena, entries, bsi, bsiWords, q, fq, poll, sel,
                                                         st);
  }

  lemma NoBudget(candidates: set<nat>, key: seq<byte>)
    ensures Budgeted(candidates, key, 0, {}, {})
  {
  }

  // ---- what the stages add up to ------------------------------------------------------------------------

  /** Best offers with the rows the budget let go left out. */
  ghost function Restrict(refs: seq<Option<Scored>>, dropped: set<nat>): (r: seq<Option<Scored>>)
    ensures |r| == |refs|
    ensures forall s :: 0 <= s < |refs| ==>
              r[s] == if s in dropped && refs[s].Some? && refs[s].value.tier.Fuzzy? then None else refs[s]
  {
    seq(|refs|, s requires 0 <= s < |refs| =>
          if s in dropped && refs[s].Some? && refs[s].value.tier.Fuzzy? then None else refs[s])
  }

  /** The record and lane stages between them settle a row's tier. */
  lemma RowDone(uni: Unicode, st: State, q: seq<byte>, heap: seq<Scored>, cap: nat, accept: nat -> bool, s: nat)
    requires AtRest(uni, st) && q != [] && s < |st.rows| && st.rows[s].Live?
    requires |q| == 1 ==> HeadsDone(st, q[0], heap, cap, accept)
    requires RecordsDone(st, q, |q| == 1, heap, cap, accept) && LanesDone(uni, st, q, heap, cap, accept)
    ensures TierDone(heap, cap, accept, st.rankKey, s, RowTier(uni, st.rows[s], q))
  {
    hide AtRest, TierDone, RecordTier, InLane;
    RowText(uni, st, s);
    if |q| == 1 {
      HeadSplits(st.rows[s].folded, q);
    }
  }

  lemma RowText(uni: Unicode, st: State, s: nat)
    requires AtRest(uni, st) && s < |st.rows| && st.rows[s].Live?
    ensures st.rows[s].folded != [] && NoControl(st.rows[s].folded)
  {
    hide EntriesOk, MapOk, FreeOk, ArenasOk, ColumnsOk, MarksOk, FoldedRecord;
    assert RowOk(uni, st.rows[s]);
  }

  /** A slot's best offer is held or crowded out once the stages are done, unless the budget let it go. */
  lemma BestDone(uni: Unicode, st: State, fq: string, sel: Selector, o0: seq<nat>, dropped: set<nat>, s: nat)
    requires Setup(uni, st, fq, sel) && s < |st.rows| && |o0| == |st.rows|
    requires |Encode(fq)| == 1 ==> HeadsDone(st, Encode(fq)[0], sel.heap, sel.cap, sel.accept)
    requires Encode(fq) != [] && RecordsDone(st, Encode(fq), |Encode(fq)| == 1, sel.heap, sel.cap, sel.accept)
    requires LanesDone(uni, st, Encode(fq), sel.heap, sel.cap, sel.accept)
    requires FuzziesDone(st, fq, o0, dropped, sel.heap, sel.cap, sel.accept) && FuzzyOffers(o0, sel.offers)
    requires Restrict(sel.refs, dropped)[s].Some? && sel.accept(s)
    ensures CoveredBy(sel.heap, sel.cap, sel.refs[s].value)
  {
    hide AtRest, CoveredBy, Encode, Score, BestFirst, HeapCounted, SeenOk, FloorOf, RecordsDone, LanesDone, HeadsDone;
    hide RefFor, FuzzyBaseOf, TierBase, RowTier, RefsOk, FuzzyHeld;
    var row := st.rows[s];
    SearchableIsText(uni, st, fq, sel);
    RefIs(uni, row, st.rankKey[s], s, fq);
    if RowTier(uni, row, Encode(fq)).Some? {
      RowTierNotFuzzy(uni, row, Encode(fq));
      RowDone(uni, st, Encode(fq), sel.heap, sel.cap, sel.accept, s);
    } else if o0[s] > 0 {
      HeldAlready(sel.heap, sel.cap, sel.accept, sel.refs, o0, sel.offers, s);
    }
  }

  /** A slot whose best is fuzzy, offered before the fuzzy stage, holds it already. */
  lemma HeldAlready(heap: seq<Scored>, cap: nat, accept: nat -> bool, refs: seq<Option<Scored>>, o0: seq<nat>,
                    offers: seq<nat>, s: nat)
    requires FuzzyHeld(heap, cap, accept, refs, offers) && FuzzyOffers(o0, offers) && s < |refs| == |offers|
    requires o0[s] > 0 && refs[s].Some? && refs[s].value.tier.Fuzzy? && accept(s)
    ensures CoveredBy(heap, cap, refs[s].value)
  {
    hide CoveredBy;
  }

  /** The drained page is the reference page over everything the budget did not let go. */
  lemma PageIsReference(uni: Unicode, st: State, fq: string, sel: Selector, m: nat, k: nat, o0: seq<nat>,
                        dropped: set<nat>)
    requires Setup(uni, st, fq, sel) && 0 < m && 0 < k && sel.cap == m * k && |o0| == |st.rows|
    requires forall s :: 0 <= s < |sel.offers| ==> sel.offers[s] <= m
    requires |Encode(fq)| == 1 ==> HeadsDone(st, Encode(fq)[0], sel.heap, sel.cap, sel.accept)
    requires Encode(fq) != [] && RecordsDone(st, Encode(fq), |Encode(fq)| == 1, sel.heap, sel.cap, sel.accept)
    requires LanesDone(uni, st, Encode(fq), sel.heap, sel.cap, sel.accept)
    requires FuzziesDone(st, fq, o0, dropped, sel.heap, sel.cap, sel.accept) && FuzzyOffers(o0, sel.offers)
    requires DroppedOk(st, sel.offers, dropped)
    ensures Top(Page(sel.heap), k) == Top(Ranked(Restrict(sel.refs, dropped), sel.accept), k)
  {
    hide AtRest, CoveredBy, Encode, RecordsDone, LanesDone, HeadsDone, FuzziesDone, FuzzyOffers, Page, Ranked;
    hide Searchable;
    var refs := Restrict(sel.refs, dropped);
    HeapRestricted(uni, st, fq, sel, m, dropped);
    forall s | 0 <= s < |refs| && refs[s].Some? && sel.accept(s) ensures CoveredBy(sel.heap, m * k, refs[s].value) {
      BestDone(uni, st, fq, sel, o0, dropped, s);
    }
    hide Restrict, Setup, HeapOk;
    DrainIsTop(sel.heap, m, k, refs, sel.accept);
  }

  lemma HeapRestricted(uni: Unicode, st: State, fq: string, sel: Selector, m: nat, dropped: set<nat>)
    requires Setup(uni, st, fq, sel) && DroppedOk(st, sel.offers, dropped)
    requires forall s :: 0 <= s < |sel.offers| ==> sel.offers[s] <= m
    ensures RefsOk(Restrict(sel.refs, dropped)) && HeapOk(sel.heap, m, Restrict(sel.refs, dropped), sel.accept)
  {
    hide AtRest, Encode, Better, BestFirst, SeenOk, FloorOf, FuzzyHeld, RefFor;
    forall x | x in sel.heap
      ensures Sound(Restrict(sel.refs, dropped), sel.accept, x) && CountSlot(sel.heap, x.slot) <= m
    {
      assert Sound(sel.refs, sel.accept, x) && CountSlot(sel.heap, x.slot) <= sel.offers[x.slot];
      HeldOnce(sel.heap, x);
    }
  }

  lemma {:induction false} HeldOnce(heap: seq<Scored>, x: Scored)
    requires x in heap
    ensures CountSlot(heap, x.slot) >= 1
  {
    if heap[0] != x {
      HeldOnce(heap[1..], x);
    }
  }

  // ---- the whole search ------------------------------------------------------------------------------------

  datatype Hit = Hit(frn: nat, score: real)

  /** The caller's name filter as a slot filter. */
  function SlotAccept(entries: seq<Entry>, names: seq<byte>, accept: string -> bool): nat -> bool {
    (s: nat) => s < |entries| && entries[s].nameOff + entries[s].nameLen <= |names|
             && accept(Decode(names[entries[s].nameOff..entries[s].nameOff + entries[s].nameLen]))
  }

  /** The same filter over what the slots stand for. */
  function NameAccept(rows: seq<Row>, accept: string -> bool): nat -> bool {
    (s: nat) => s < |rows| && rows[s].Live? && accept(rows[s].name)
  }

  lemma AcceptAgrees(uni: Unicode, st: State, accept: string -> bool, s: nat)
    requires AtRest(uni, st) && s < |st.rows| && st.rows[s].Live?
    ensures SlotAccept(st.entries, st.nameArena, accept)(s) == NameAccept(st.rows, accept)(s)
  {
    hide RowsOk, EntriesOk, MapOk, FreeOk, ArenasOk, ColumnsOk, MarksOk, Encode, Decode;
    LiveEntryFacts(st.rows, st.entries, st.nameArena, st.namesEnd, st.frnMap, s);
    RoundTrip(st.rows[s].name);
  }

  /** Filters that agree where there is something to rank give the same ranking. */
  lemma {:induction false} CollectAgrees(refs: seq<Option<Scored>>, a: nat -> bool, b: nat -> bool, n: nat)
    requires n <= |refs| && forall s :: 0 <= s < |refs| && refs[s].Some? ==> a(s) == b(s)
    ensures Collect(refs, a, n) == Collect(refs, b, n)
  {
    if n > 0 {
      CollectAgrees(refs, a, b, n - 1);
    }
  }

  lemma RankedAgrees(uni: Unicode, st: State, fq: string, accept: string -> bool, dropped: set<nat>)
    requires AtRest(uni, st) && fq != "" && |st.rankKey| == |st.rows|
    ensures var refs := Restrict(RefsFor(uni, st.rows, st.rankKey, fq), dropped);
            Ranked(refs, SlotAccept(st.entries, st.nameArena, accept)) == Ranked(refs, NameAccept(st.rows, accept))
  {
    hide AtRest, RowTier, DensityOf, Encode;
    var refs := Restrict(RefsFor(uni, st.rows, st.rankKey, fq), dropped);
    forall s | 0 <= s < |refs| && refs[s].Some?
      ensures SlotAccept(st.entries, st.nameArena, accept)(s) == NameAccept(st.rows, accept)(s)
    {
      AcceptAgrees(uni, st, accept, s);
    }
    hide SlotAccept, NameAccept;
    CollectAgrees(refs, SlotAccept(st.entries, st.nameArena, accept), NameAccept(st.rows, accept), |refs|);
  }

  /** What any search returns, cancelled or not: rows that match, are accepted, and never score above their best. */
  ghost predicate PageSound(page: seq<Scored>, refs: seq<Option<Scored>>, accept: nat -> bool, k: nat) {
    && |page| <= k && BestFirst(page) && DistinctSlots(page)
    && forall x :: x in page ==> Sound(refs, accept, x)
  }

  function HitsOf(rows: seq<Row>, page: seq<Scored>): seq<Hit> {
    seq(|page|, i requires 0 <= i < |page| =>
      if page[i].slot < |rows| && rows[page[i].slot].Live? then Hit(rows[page[i].slot].frn, page[i].score)
      else Hit(0, 0.0))
  }

  /** Offers so far. */
  predicate OffersAtMost(offers: seq<nat>, most: nat) {
    forall s :: 0 <= s < |offers| ==> offers[s] <= most
  }

  lemma OffersAdd(o0: seq<nat>, o1: seq<nat>, most: nat, more: nat)
    requires OffersAtMost(o0, most) && OffersWithin(o0, o1, more)
    ensures OffersAtMost(o1, most + more)
  {
  }

  lemma FuzzyAdds(o0: seq<nat>, o1: seq<nat>, most: nat)
    requires OffersAtMost(o0, most) && FuzzyOffers(o0, o1) && 0 < most
    ensures OffersAtMost(o1, most)
  {
  }

  /** What earlier stages settled stays settled. */
  lemma StagesAdvance(uni: Unicode, st: State, q: seq<byte>, h0: seq<Scored>, h1: seq<Scored>, cap: nat,
                      accept: nat -> bool)
    requires 0 < cap && Advances(h0, h1, cap) && q != []
    ensures HeadsDone(st, q[0], h0, cap, accept) ==> HeadsDone(st, q[0], h1, cap, accept)
    ensures RecordsDone(st, q, |q| == 1, h0, cap, accept) ==> RecordsDone(st, q, |q| == 1, h1, cap, accept)
    ensures LanesDone(uni, st, q, h0, cap, accept) ==> LanesDone(uni, st, q, h1, cap, accept)
  {
    DoneAdvances(h0, h1, cap, accept, st.rankKey);
    hide Advances, TierDone, RecordTier, InLane, HeadTier;
  }

  /** The stages in order, each skipped once a poll has cancelled the search. */
  method RunStages(uni: Unicode, rankKey: seq<byte>, head: seq<byte>, lanes: seq<byte>, arena: seq<byte>,
                   owner: seq<nat>, recs: seq<ArenaRec>,
                   entries: seq<Entry>, bsi: seq<Word>, bsiWords: nat, arenaGrams: Grams, laneGrams: Grams,
                   q: seq<byte>, fq: string,
                   poll: nat -> bool, sel: Selector, ghost st: State)
    returns (cancelled: bool, ghost survivors: nat, ghost retained: set<nat>, ghost dropped: set<nat>,
             ghost o0: seq<nat>)
    requires Setup(uni, st, fq, sel) && q == Encode(fq) && sel.heap == [] && OffersAtMost(sel.offers, 0)
    requires rankKey == st.rankKey && head == st.head && lanes == st.initials && arena == st.foldedArena
    requires owner == st.owner && recs == st.arenaRecs
    requires entries == st.entries && bsi == st.bsi && bsiWords == st.bsiWords && arenaGrams == st.arenaGrams
    requires laneGrams == st.laneGrams
    modifies sel
    ensures Setup(uni, st, fq, sel)
    ensures cancelled ==> Raised(poll)
    ensures !cancelled ==> q != [] && |o0| == |st.rows| && OffersAtMost(sel.offers, if |q| == 1 then 3 else 2)
    ensures !cancelled && |q| == 1 ==> HeadsDone(st, q[0], sel.heap, sel.cap, sel.accept)
    ensures !cancelled ==>
              RecordsDone(st, q, |q| == 1, sel.heap, sel.cap, sel.accept)
              && LanesDone(uni, st, q, sel.heap, sel.cap, sel.accept)
    ensures !cancelled ==>
              FuzziesDone(st, fq, o0, dropped, sel.heap, sel.cap, sel.accept) && FuzzyOffers(o0, sel.offers)
    ensures !cancelled ==>
              Budgeted(Candidates(st.rows, q), rankKey, survivors, retained, dropped)
              && DroppedOk(st, sel.offers, dropped)
  {
    hide AtRest, Encode, Advances, HeadsDone, RecordsDone, LanesDone, FuzziesDone, FuzzyOffers, Budgeted, Candidates;
    hide DroppedOk, OffersAtMost, OffersWithin, Setup, Raised;
    SetupFacts(uni, st, fq, sel);
    survivors, retained, dropped, o0 := 0, {}, {}, sel.offers;
    var short := |q| == 1;
    var stop := Poll(poll);
    if stop {
      return true, survivors, retained, dropped, o0;
    }
    if short {
      cancelled := HeadStage(uni, rankKey, head, q, fq, poll, sel, st);
      if cancelled {
        return;
      }
    }
    ghost var h1, o1 := sel.heap, sel.offers;
    OneOrNone(o0, o1, short);
    cancelled := ArenaStage(uni, rankKey, arena, owner, recs, entries, arenaGrams, q, short, poll, sel, st, fq);
    if cancelled {
      return;
    }
    ghost var h2, o2 := sel.heap, sel.offers;
    StagesAdvance(uni, st, q, h1, h2, sel.cap, sel.accept);
    OffersAdd(o1, o2, if short then 1 else 0, 1);
    cancelled := LaneStage(uni, rankKey, lanes, laneGrams, q, poll, sel, st, fq);
    if cancelled {
      return;
    }
    ghost var h3, o3 := sel.heap, sel.offers;
    StagesAdvance(uni, st, q, h2, h3, sel.cap, sel.accept);
    OffersAdd(o2, o3, if short then 2 else 1, 1);
    cancelled, survivors, retained, dropped := FuzzyStage(uni, rankKey, arena, entries, bsi, bsiWords, q, fq, poll, sel,
                                                          st);
    StagesAdvance(uni, st, q, h3, sel.heap, sel.cap, sel.accept);
    o0 := o3;
    SetupFacts(uni, st, fq, sel);
    FuzzyAdds(o3, sel.offers, if short then 3 else 2);
    FuzzySize(o3, sel.offers);
  }

  lemma FuzzySize(o0: seq<nat>, o1: seq<nat>)
    requires FuzzyOffers(o0, o1)
    ensures |o0| == |o1|
  {
  }

  lemma OneOrNone(o0: seq<nat>, o1: seq<nat>, short: bool)
    requires OffersAtMost(o0, 0) && (if short then OffersWithin(o0, o1, 1) else o1 == o0)
    ensures OffersAtMost(o1, if short then 1 else 0)
  {
  }

  method HeadStage(uni: Unicode, rankKey: seq<byte>, head: seq<byte>, q: seq<byte>, fq: string, poll: nat -> bool,
                   sel: Selector, ghost st: State)
    returns (cancelled: bool)
    requires Setup(uni, st, fq, sel) && q == Encode(fq) && |q| == 1 && rankKey == st.rankKey && head == st.head
    modifies sel
    ensures Setup(uni, st, fq, sel) && Advances(old(sel.heap), sel.heap, sel.cap)
    ensures OffersWithin(old(sel.offers), sel.offers, 1)
    ensures cancelled ==> Raised(poll)
    ensures !cancelled ==> HeadsDone(st, q[0], sel.heap, sel.cap, sel.accept)
  {
    hide AtRest, Encode, Advances, TierDone, HeadTier, HeadOk, RowsOk, BestFirst, HeapCounted, SeenOk, FloorOf;
    hide FuzzyHeld, RefFor, RefsOk;
    GatesOf(uni, st);
    OneByte(fq, q);
    cancelled := HeadPass(uni, rankKey, head, q[0], poll, sel, st.rows, fq);
  }

  lemma OneByte(fq: string, q: seq<byte>)
    requires Searchable(fq) && q == Encode(fq) && |q| == 1
    ensures fq != "" && q == [q[0]] && q[0] >= 0x20
  {
  }

  /** Nothing to look for, nothing to return, nothing to look in, or a query no name could hold. */
  lemma EmptyPage(uni: Unicode, st: State, fq: string, accept: string -> bool, k: nat)
    requires AtRest(uni, st) && |st.rankKey| == |st.rows|
    requires fq == "" || k == 0 || st.liveCount == 0 || !NoControl(Encode(fq))
    ensures Searchable(fq) ==>
              && PageSound([], RefsFor(uni, st.rows, st.rankKey, fq), SlotAccept(st.entries, st.nameArena, accept), k)
              && Top(Ranked(Restrict(RefsFor(uni, st.rows, st.rankKey, fq), {}), NameAccept(st.rows, accept)), k) == []
  {
    hide AtRest, Encode, RowTier, DensityOf, Ranked, SlotAccept, NameAccept;
    if Searchable(fq) && k > 0 {
      NoLive(uni, st);
      var refs := Restrict(RefsFor(uni, st.rows, st.rankKey, fq), {});
      NoneRanked(refs, NameAccept(st.rows, accept));
    }
  }

  lemma NoneRanked(refs: seq<Option<Scored>>, accept: nat -> bool)
    requires forall s :: 0 <= s < |refs| ==> refs[s].None?
    ensures Ranked(refs, accept) == []
  {
    NoneCollected(refs, accept, |refs|);
  }

  lemma {:induction false} NoneCollected(refs: seq<Option<Scored>>, accept: nat -> bool, n: nat)
    requires n <= |refs| && forall s :: 0 <= s < |refs| ==> refs[s].None?
    ensures Collect(refs, accept, n) == []
  {
    if n > 0 {
      NoneCollected(refs, accept, n - 1);
    }
  }

  lemma NoLive(uni: Unicode, st: State)
    requires AtRest(uni, st) && st.liveCount == 0
    ensures forall s :: 0 <= s < |st.rows| ==> st.rows[s].Vacant?
  {
    hide RowsOk, EntriesOk, FreeOk, ArenasOk, ColumnsOk, MarksOk;
  }

  lemma SetupNew(uni: Unicode, st: State, fq: string, sel: Selector, offers: seq<nat>)
    requires sel.Valid() && AtRest(uni, st) && fq != "" && NoControl(Encode(fq)) && |st.rankKey| == |st.rows|
    requires sel.refs == RefsFor(uni, st.rows, st.rankKey, fq) && offers == sel.offers == Repeat(0 as nat, |sel.refs|)
    ensures Setup(uni, st, fq, sel) && OffersAtMost(sel.offers, 0) && Searchable(fq)
  {
    hide AtRest, Encode, NoControl, RefFor;
  }

  /** The drained page is sound whatever happened on the way. */
  lemma DrainedSound(uni: Unicode, st: State, fq: string, sel: Selector, k: nat)
    requires Setup(uni, st, fq, sel)
    ensures PageSound(Top(Page(sel.heap), k), sel.refs, sel.accept, k)
    ensures sel.refs == RefsFor(uni, st.rows, st.rankKey, fq)
  {
    hide AtRest, RefFor, Encode, Sound, BestFirst, SeenOk, FloorOf, FuzzyHeld, RefsOk, CountSlot, IsPage, Page;
    TopIsPage(sel.heap, k);
    PageOfSound(Top(Page(sel.heap), k), sel.heap, sel.refs, sel.accept, sel.offers, k);
  }

  lemma PageOfSound(page: seq<Scored>, heap: seq<Scored>, refs: seq<Option<Scored>>, accept: nat -> bool,
                    offers: seq<nat>, k: nat)
    requires IsPage(page, heap, k) && HeapCounted(heap, refs, accept, offers)
    ensures PageSound(page, refs, accept, k)
  {
    hide BestFirst, DistinctSlots, Covers, Better, Sound, CountSlot;
  }

  lemma PageOut(uni: Unicode, st: State, fq: string, sel: Selector, accept: string -> bool, k: nat, o0: seq<nat>,
                dropped: set<nat>)
    requires Setup(uni, st, fq, sel) && 0 < k && |o0| == |st.rows| && Encode(fq) != []
    requires sel.accept == SlotAccept(st.entries, st.nameArena, accept)
    requires var m := if |Encode(fq)| == 1 then 3 else 2; sel.cap == m * k && OffersAtMost(sel.offers, m)
    requires |Encode(fq)| == 1 ==> HeadsDone(st, Encode(fq)[0], sel.heap, sel.cap, sel.accept)
    requires RecordsDone(st, Encode(fq), |Encode(fq)| == 1, sel.heap, sel.cap, sel.accept)
    requires LanesDone(uni, st, Encode(fq), sel.heap, sel.cap, sel.accept)
    requires FuzziesDone(st, fq, o0, dropped, sel.heap, sel.cap, sel.accept) && FuzzyOffers(o0, sel.offers)
    requires DroppedOk(st, sel.offers, dropped)
    ensures Top(Page(sel.heap), k) ==
              Top(Ranked(Restrict(RefsFor(uni, st.rows, st.rankKey, fq), dropped), NameAccept(st.rows, accept)), k)
  {
    hide AtRest, Encode, Page, Ranked, HeadsDone, RecordsDone, LanesDone, FuzziesDone, FuzzyOffers, DroppedOk;
    hide SlotAccept, NameAccept, Restrict, Top;
    SetupFacts(uni, st, fq, sel);
    SearchableIsText(uni, st, fq, sel);
    var m := if |Encode(fq)| == 1 then 3 else 2;
    PageIsReference(uni, st, fq, sel, m, k, o0, dropped);
    RankedAgrees(uni, st, fq, accept, dropped);
    DrainedSound(uni, st, fq, sel, k);
  }

  lemma LivePage(uni: Unicode, st: State, fq: string, page: seq<Scored>, accept: nat -> bool, k: nat)
    requires fq != "" && |st.rankKey| == |st.rows| && PageSound(page, RefsFor(uni, st.rows, st.rankKey, fq), accept, k)
    ensures forall x :: x in page ==> x.slot < |st.rows| && st.rows[x.slot].Live?
  {
    hide RowTier, DensityOf, Encode, Better;
  }

  lemma LiveFrn(uni: Unicode, st: State, s: nat)
    requires AtRest(uni, st) && s < |st.rows| && st.rows[s].Live?
    ensures s < |st.entries| && st.entries[s].frn == st.rows[s].frn
  {
    hide RowsOk, EntriesOk, MapOk, FreeOk, ArenasOk, ColumnsOk, MarksOk, Encode;
    LiveEntryFacts(st.rows, st.entries, st.nameArena, st.namesEnd, st.frnMap, s);
  }

  /** Tiered search over one index: up to `maxResults` hits, best first. */
  method SearchColumns(uni: Unicode, rankKey: seq<byte>, head: seq<byte>, lanes: seq<byte>, arena: seq<byte>,
                       names: seq<byte>, owner: seq<nat>,
                       recs: seq<ArenaRec>, entries: seq<Entry>, bsi: seq<Word>, bsiWords: nat, arenaGrams: Grams,
                       laneGrams: Grams, liveCount: nat,
                       query: string, maxResults: nat, accept: string -> bool, poll: nat -> bool, ghost st: State)
    returns (hits: seq<Hit>, cancelled: bool, ghost page: seq<Scored>, ghost survivors: nat, ghost retained: set<nat>,
             ghost dropped: set<nat>)
    requires AtRest(uni, st) && |st.rankKey| == |st.rows|
    requires rankKey == st.rankKey && head == st.head && lanes == st.initials && arena == st.foldedArena
    requires names == st.nameArena && owner == st.owner
    requires recs == st.arenaRecs && entries == st.entries && bsi == st.bsi && bsiWords == st.bsiWords
    requires arenaGrams == st.arenaGrams
    requires laneGrams == st.laneGrams && liveCount == st.liveCount
    ensures hits == HitsOf(st.rows, page) && (cancelled ==> Raised(poll))
    ensures Searchable(Fold(uni, query)) ==>
              PageSound(page, RefsFor(uni, st.rows, st.rankKey, Fold(uni, query)),
                        SlotAccept(st.entries, st.nameArena, accept), maxResults)
    ensures !Searchable(Fold(uni, query)) ==> page == [] && !cancelled
    ensures !cancelled ==>
              Budgeted(Candidates(st.rows, Encode(Fold(uni, query))), rankKey, survivors, retained, dropped)
    ensures !cancelled && Searchable(Fold(uni, query)) ==>
              page == Top(Ranked(Restrict(RefsFor(uni, st.rows, st.rankKey, Fold(uni, query)), dropped),
                                 NameAccept(st.rows, accept)), maxResults)
  {
    hide AtRest, Encode, Fold, Page, Ranked, PageSound, Setup, Budgeted, Candidates, HeadsDone, RecordsDone, LanesDone;
    hide FuzziesDone, FuzzyOffers, DroppedOk, Top, SlotAccept, NameAccept, Raised, HitsOf;
    page, survivors, retained, dropped, cancelled := [], 0, {}, {}, false;
    NoBudget(Candidates(st.rows, Encode(Fold(uni, query))), rankKey);
    var fq := Fold(uni, query);
    if fq == "" || maxResults == 0 || liveCount == 0 || !NoControl(Encode(fq)) {
      EmptyPage(uni, st, fq, accept, maxResults);
      NoHits(st.rows);
      return [], false, [], 0, {}, {};
    }
    var q := Encode(fq);
    var short := |q| == 1;
    var sel := new Selector(maxResults, if short then 3 else 2, RefsFor(uni, st.rows, st.rankKey, fq),
                            SlotAccept(entries, names, accept));
    SetupNew(uni, st, fq, sel, sel.offers);
    ghost var o0;
    cancelled, survivors, retained, dropped, o0 := RunStages(uni, rankKey, head, lanes, arena, owner, recs, entries,
                                                             bsi, bsiWords, arenaGrams, laneGrams, q, fq, poll, sel, st);
    var top := sel.Drain(maxResults);
    page := top;
    DrainedSound(uni, st, fq, sel, maxResults);
    if !cancelled {
      PageOut(uni, st, fq, sel, accept, maxResults, o0, dropped);
    }
    LivePage(uni, st, fq, page, SlotAccept(entries, names, accept), maxResults);
    hits := WriteHits(uni, entries, top, st);
  }

  lemma NoHits(rows: seq<Row>)
    ensures HitsOf(rows, []) == []
  {
  }

  /** The page's slots turned into the FRNs they hold. */
  method WriteHits(uni: Unicode, entries: seq<Entry>, top: seq<Scored>, ghost st: State) returns (hits: seq<Hit>)
    requires AtRest(uni, st) && entries == st.entries
    requires forall x :: x in top ==> x.slot < |st.rows| && st.rows[x.slot].Live?
    ensures hits == HitsOf(st.rows, top)
  {
    hide AtRest;
    hits := [];
    for i := 0 to |top|
      invariant |hits| == i && forall j :: 0 <= j < i ==> hits[j] == HitsOf(st.rows, top)[j]
    {
      assert top[i] in top;
      LiveFrn(uni, st, top[i].slot);
      hits := hits + [Hit(entries[top[i].slot].frn, top[i].score)];
    }
  }

  /** With nothing let go, the page is the reference page. */
  lemma WithinBudget(uni: Unicode, rows: seq<Row>, rankKey: seq<byte>, fq: string, accept: nat -> bool, k: nat)
    requires |rankKey| == |rows| && Searchable(fq)
    ensures Top(Ranked(Restrict(RefsFor(uni, rows, rankKey, fq), {}), accept), k) == ReferencePage(uni, rows, rankKey,
                                                                                                   fq, accept, k)
  {
    hide RowTier, DensityOf, Encode, Ranked, RefFor, NoControl;
    assert Restrict(RefsFor(uni, rows, rankKey, fq), {}) == RefsFor(uni, rows, rankKey, fq);
  }

  /** What a search owes its caller. Uncancelled within the fuzzy budget: exactly the exhaustive page, so always while
      no more rows carry the query's classes than the budget holds. Past it: the page of everything but the candidates
      it let go. Cancelled: still only rows that match, at no more than their best. */
  ghost predicate Answers(uni: Unicode, rows: seq<Row>, rankKey: seq<byte>, fq: string, accept: nat -> bool, k: nat,
                          cancelled: bool, page: seq<Scored>, survivors: nat, retained: set<nat>, dropped: set<nat>)
    requires |rankKey| == |rows|
  {
    && (!Searchable(fq) ==> page == [] && !cancelled)
    && (!cancelled && dropped == {} ==> page == ReferencePage(uni, rows, rankKey, fq, accept, k))
    && (!cancelled ==> Budgeted(Candidates(rows, Encode(fq)), rankKey, survivors, retained, dropped))
    && (!cancelled && |Candidates(rows, Encode(fq))| <= FUZZY_CAP ==> dropped == {})
    && (Searchable(fq) ==>
          var refs := RefsFor(uni, rows, rankKey, fq);
          && PageSound(page, refs, accept, k)
          && (!cancelled ==> page == Top(Ranked(Restrict(refs, dropped), accept), k)))
  }

  lemma SoundAgrees(uni: Unicode, st: State, fq: string, page: seq<Scored>, accept: string -> bool, k: nat)
    requires AtRest(uni, st) && fq != "" && |st.rankKey| == |st.rows|
    requires PageSound(page, RefsFor(uni, st.rows, st.rankKey, fq), SlotAccept(st.entries, st.nameArena, accept), k)
    ensures PageSound(page, RefsFor(uni, st.rows, st.rankKey, fq), NameAccept(st.rows, accept), k)
  {
    hide AtRest, RowTier, DensityOf, Encode, SlotAccept, NameAccept, Better, BestFirst, DistinctSlots;
    LivePage(uni, st, fq, page, SlotAccept(st.entries, st.nameArena, accept), k);
    forall x | x in page ensures Sound(RefsFor(uni, st.rows, st.rankKey, fq), NameAccept(st.rows, accept), x) {
      AcceptAgrees(uni, st, accept, x.slot);
    }
  }

  lemma FewCandidates(all: set<nat>, key: seq<byte>, survivors: nat, retained: set<nat>, dropped: set<nat>)
    requires Budgeted(all, key, survivors, retained, dropped)
    ensures |all| <= FUZZY_CAP ==> dropped == {}
  {
  }

  /** The whole contract of a search, read off what its stages establish. */
  lemma SearchAnswers(uni: Unicode, st: State, fq: string, accept: string -> bool, k: nat,
                      cancelled: bool, page: seq<Scored>, survivors: nat, retained: set<nat>, dropped: set<nat>)
    requires AtRest(uni, st) && |st.rankKey| == |st.rows|
    requires Searchable(fq) ==> PageSound(page, RefsFor(uni, st.rows, st.rankKey, fq),
                                          SlotAccept(st.entries, st.nameArena, accept), k)
    requires !Searchable(fq) ==> page == [] && !cancelled
    requires !cancelled ==> Budgeted(Candidates(st.rows, Encode(fq)), st.rankKey, survivors, retained, dropped)
    requires !cancelled && Searchable(fq) ==>
               page == Top(Ranked(Restrict(RefsFor(uni, st.rows, st.rankKey, fq), dropped), NameAccept(st.rows, accept)), k)
    ensures Answers(uni, st.rows, st.rankKey, fq, NameAccept(st.rows, accept), k, cancelled, page, survivors, retained,
                    dropped)
  {
    hide AtRest, RowTier, DensityOf, Encode, NoControl, SlotAccept, NameAccept, PageSound, Budgeted, Ranked, Top;
    hide RefFor, Candidates;
    if !cancelled {
      FewCandidates(Candidates(st.rows, Encode(fq)), st.rankKey, survivors, retained, dropped);
    }
    if Searchable(fq) {
      SoundAgrees(uni, st, fq, page, accept, k);
      WithinBudget(uni, st.rows, st.rankKey, fq, NameAccept(st.rows, accept), k);
    }
  }
}
