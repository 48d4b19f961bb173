/** The fuzzy pass: class-superset candidates, counted by depth, cut to the budget and verified
    shallowest depth first. */
module FuzzyScan {
  import opened Bytes
  import opened Utf8
  import opened Names
  import opened Polling
  import opened Ranking
  import opened Scanning
  import opened ClassBits
  import opened FuzzyTier
  import opened Table
  import opened Ordering
  import opened Selecting
  import opened IndexState
  import opened Repair
  import opened Reference
  import opened HeadScan
  import opened ArenaPass

  /** Tail candidates verified between two looks at the clock. */
  const DEADLINE_STRIDE: nat := 512

  function KeyDepth(key: seq<byte>, s: nat): (d: nat)
    ensures d <= RANK_DEPTH_MAX
  {
    if s < |key| then key[s] as int % 128 else 0
  }

  // ---- the depth ceiling the floor implies -------------------------------------------------

  /** Deeper than `dMax`, no fuzzy offer can reach the page. */
  predicate Ceiling(floor: Option<real>, dMax: nat) {
    dMax == RANK_DEPTH_MAX
    || (dMax < RANK_DEPTH_MAX && floor.Some? && TierUpperBound(Fuzzy) * DepthPen(dMax + 1) < floor.value)
  }

  method DepthCeiling(floor: Option<real>) returns (dMax: nat)
    ensures dMax <= RANK_DEPTH_MAX && Ceiling(floor, dMax)
  {
    dMax := RANK_DEPTH_MAX;
    while dMax > 0 && floor.Some? && TierUpperBound(Fuzzy) * DepthPen(dMax) < floor.value
      invariant dMax <= RANK_DEPTH_MAX && Ceiling(floor, dMax)
    {
      dMax := dMax - 1;
    }
  }

  /** The base a verified candidate is offered at. */
  ghost function FuzzyBaseOf(row: Row, fq: string): Option<real> {
    if row.Vacant? then None
    else match DensityOf(Decode(row.folded), fq) { case None => None case Some(d) => Some(0.3 + 0.2 * d) }
  }

  lemma FuzzyBaseRange(row: Row, fq: string)
    requires fq != "" && FuzzyBaseOf(row, fq).Some?
    ensures 0.3 < FuzzyBaseOf(row, fq).value <= TierUpperBound(Fuzzy) && row.Live?
    ensures IsSubsequence(fq, Decode(row.folded))
  {
    FuzzyBase(Decode(row.folded), fq);
  }

  /** Slot `s`'s fuzzy offer, if it has one and is accepted, is held or crowded out. */
  ghost predicate FuzzyDone(heap: seq<Scored>, cap: nat, accept: nat -> bool, key: seq<byte>, row: Row, fq: string,
                            s: nat) {
    FuzzyBaseOf(row, fq).Some? && s < |key| && accept(s) ==>
      CoveredBy(heap, cap, Score(key[s], s, Fuzzy, FuzzyBaseOf(row, fq).value))
  }

  /** Past the ceiling there is nothing to verify. */
  lemma TooDeep(sel: Selector, dMax: nat, key: seq<byte>, row: Row, fq: string, s: nat)
    requires sel.Valid() && dMax <= RANK_DEPTH_MAX && Ceiling(sel.floor, dMax) && fq != "" && KeyDepth(key, s) > dMax
    ensures FuzzyDone(sel.heap, sel.cap, sel.accept, key, row, fq, s)
  {
    hide FuzzyBaseOf, BestFirst, HeapCounted, SeenOk, FuzzyHeld, CoveredBy, DepthPen, TierUpperBound, FloorOf, RefsOk;
    if FuzzyBaseOf(row, fq).Some? && s < |key| {
      FuzzyBaseRange(row, fq);
      DeepScore(key[s], dMax, FuzzyBaseOf(row, fq).value);
      FloorMeansFull(sel);
      sel.RejectedIsCovered(TierUpperBound(Fuzzy) * DepthPen(dMax + 1),
                            Score(key[s], s, Fuzzy, FuzzyBaseOf(row, fq).value));
    }
  }

  lemma DeepScore(key: byte, dMax: nat, base: real)
    requires dMax < key as int % 128 && 0.0 <= base <= TierUpperBound(Fuzzy)
    ensures base * DepthPen(key) <= TierUpperBound(Fuzzy) * DepthPen(dMax + 1)
  {
    hide DepthPen;
    DeeperIsNoBetter(dMax + 1, key);
    ScaleLe(base, TierUpperBound(Fuzzy), DepthPen(key));
    ScaleLe(DepthPen(key), DepthPen(dMax + 1), TierUpperBound(Fuzzy));
  }

  lemma FloorMeansFull(sel: Selector)
    requires sel.Valid() && sel.floor.Some?
    ensures sel.Full()
  {
    hide BestFirst, HeapCounted, SeenOk, FuzzyHeld, RefsOk;
  }

  lemma FuzzyAdvances(h0: seq<Scored>, h1: seq<Scored>, cap: nat, accept: nat -> bool, key: seq<byte>)
    requires 0 < cap && Advances(h0, h1, cap)
    ensures forall row: Row, fq: string, s: nat :: FuzzyDone(h0, cap, accept, key, row, fq, s) ==>
              FuzzyDone(h1, cap, accept, key, row, fq, s)
  {
    hide CoveredBy, FuzzyBaseOf;
  }

  /** A row's best offer is its tier's, and the fuzzy one only where it has no tier. */
  lemma RefIs(uni: Unicode, row: Row, key: byte, s: nat, fq: string)
    requires fq != "" && Encode(fq) != []
    ensures var ref, t := RefFor(uni, row, key, s, fq), RowTier(uni, row, Encode(fq));
            if t.Some? then row.Live? && ref == Some(Score(key, s, t.value, TierBase(t.value)))
            else if |Encode(fq)| >= 3 && FuzzyBaseOf(row, fq).Some? then
              row.Live? && ref == Some(Score(key, s, Fuzzy, FuzzyBaseOf(row, fq).value))
            else ref == None
  {
    hide Encode, DensityOf, Decode, Score, RecordTier, InLane;
  }

  /** What verifying a candidate offers is sound: its best, or less than the better tier it has. */
  lemma FuzzyOffer(uni: Unicode, st: State, fq: string, s: nat)
    requires AtRest(uni, st) && Searchable(fq) && |Encode(fq)| >= 3 && |st.rankKey| == |st.rows| && s < |st.rows|
    requires FuzzyBaseOf(st.rows[s], fq).Some?
    ensures Fits(RefsFor(uni, st.rows, st.rankKey, fq),
                 Score(st.rankKey[s], s, Fuzzy, FuzzyBaseOf(st.rows[s], fq).value))
  {
    hide AtRest, RowTier, Encode, DepthPen, RefFor, FuzzyBaseOf, TierBase, RefsOk, Searchable;
    var row, key := st.rows[s], st.rankKey[s];
    SearchableText(fq);
    FuzzyBaseRange(row, fq);
    RefIs(uni, row, key, s, fq);
    if RowTier(uni, row, Encode(fq)).Some? {
      RowTierNotFuzzy(uni, row, Encode(fq));
      ScoreMonotone(key, FuzzyBaseOf(row, fq).value, TierBase(RowTier(uni, row, Encode(fq)).value));
    }
  }

  lemma SearchableText(fq: string)
    requires Searchable(fq)
    ensures fq != "" && Encode(fq) != []
  {
  }

  /** No record or lane tier is the fuzzy one. */
  lemma RowTierNotFuzzy(uni: Unicode, row: Row, q: seq<byte>)
    requires q != [] && RowTier(uni, row, q).Some?
    ensures !RowTier(uni, row, q).value.Fuzzy? && TierBase(RowTier(uni, row, q).value) >= 0.55
  {
    hide InLane, ScanTier, FindFrom;
    if row.Live? {
      ScanNotFuzzy(None, row.folded, q, 0);
      assert RecordTier(row.folded, q, false) == ScanTier(None, row.folded, q, false, 0, 0, |row.folded|);
      assert TierBase(Initials) == 0.7 && TierBase(Fuzzy) == 0.3;
    }
  }

  lemma {:induction false} ScanNotFuzzy(acc: Option<Tier>, rec: seq<byte>, q: seq<byte>, p: nat)
    requires q != [] && (acc.Some? ==> TierBase(acc.value) >= 0.55)
    ensures var t := ScanTier(acc, rec, q, false, p, 0, |rec|); t.Some? ==> TierBase(t.value) >= 0.55
    decreases if p <= |rec| then |rec| - p + 1 else 0
  {
    var f := FindFrom(rec, q, p);
    if f.Some? {
      ScanNotFuzzy(Tally(acc, rec, |q|, false, f.value, 0, |rec|), rec, q, f.value + |q|);
    }
  }

  // ---- candidates ---------------------------------------------------------------------------------

  /** Neither claimed by an earlier pass nor past the ceiling. */
  predicate Admits(seen: set<nat>, key: seq<byte>, dMax: nat, s: nat) {
    s !in seen && KeyDepth(key, s) <= dMax
  }

  /** How many of the first `n` swept slots are admitted at each depth. */
  function DepthCounts(slots: seq<nat>, seen: set<nat>, key: seq<byte>, dMax: nat, n: nat): (c: seq<nat>)
    requires n <= |slots|
    ensures |c| == RANK_DEPTH_MAX + 1
  {
    if n == 0 then Repeat(0 as nat, RANK_DEPTH_MAX + 1)
    else
      var c := DepthCounts(slots, seen, key, dMax, n - 1);
      if Admits(seen, key, dMax, slots[n - 1]) then
        c[KeyDepth(key, slots[n - 1]) := c[KeyDepth(key, slots[n - 1])] + 1]
      else c
  }

  /** The admitted ones among the first `n`. */
  function AdmittedOf(slots: seq<nat>, seen: set<nat>, key: seq<byte>, dMax: nat, n: nat): set<nat>
    requires n <= |slots|
  {
    set i | 0 <= i < n && Admits(seen, key, dMax, slots[i]) :: slots[i]
  }

  lemma {:induction false} SumAfterOne(c: seq<nat>, d: nat, n: nat)
    requires d < |c| && n <= |c|
    ensures SumTo(c[d := c[d] + 1], n) == SumTo(c, n) + if d < n then 1 else 0
  {
    if n > 0 {
      SumAfterOne(c, d, n - 1);
    }
  }

  lemma {:induction false} SumOfNone(n: nat, m: nat)
    requires m <= n
    ensures SumTo(Repeat(0 as nat, n), m) == 0
  {
    if m > 0 {
      SumOfNone(n, m - 1);
    }
  }

  /** One more candidate at depth `d` takes a place in the budget unless it is past the cut or the quota is spent. */
  lemma RetainedAfterOne(c: seq<nat>, d: nat, cut: nat, quota: nat)
    requires d < |c| && cut < |c|
    ensures Retained(c[d := c[d] + 1], cut, quota) ==
            Retained(c, cut, quota) + if d < cut || (d == cut && c[cut] < quota) then 1 else 0
  {
    SumAfterOne(c, d, cut);
  }

  /** The counting pass. */
  method CountByDepth(slots: seq<nat>, seen: set<nat>, key: seq<byte>, dMax: nat)
    returns (byDepth: seq<nat>, survivors: nat)
    ensures byDepth == DepthCounts(slots, seen, key, dMax, |slots|) && survivors == SumTo(byDepth, |byDepth|)
  {
    byDepth, survivors := Repeat(0 as nat, RANK_DEPTH_MAX + 1), 0;
    SumOfNone(RANK_DEPTH_MAX + 1, RANK_DEPTH_MAX + 1);
    for i := 0 to |slots|
      invariant byDepth == DepthCounts(slots, seen, key, dMax, i) && survivors == SumTo(byDepth, |byDepth|)
    {
      if Admits(seen, key, dMax, slots[i]) {
        var d := KeyDepth(key, slots[i]);
        SumAfterOne(byDepth, d, |byDepth|);
        byDepth := byDepth[d := byDepth[d] + 1];
        survivors := survivors + 1;
      }
    }
  }

  // ---- the drain ------------------------------------------------------------------------------------

  /** Verify one candidate and offer it if it matches. */
  method Verify(uni: Unicode, rankKey: seq<byte>, arena: seq<byte>, entries: seq<Entry>, fq: string, slot: nat,
                sel: Selector, ghost st: State)
    requires Setup(uni, st, fq, sel) && |Encode(fq)| >= 3 && rankKey == st.rankKey && arena == st.foldedArena
    requires entries == st.entries
    requires slot < |st.rows| && st.rows[slot].Live?
    modifies sel
    ensures Setup(uni, st, fq, sel) && Advances(old(sel.heap), sel.heap, sel.cap)
    ensures FuzzyDone(sel.heap, sel.cap, sel.accept, rankKey, st.rows[slot], fq, slot)
    ensures old(sel.seen) <= sel.seen <= old(sel.seen) + {slot}
    ensures |sel.offers| == |old(sel.offers)| && forall s :: 0 <= s < |sel.offers| && s != slot ==>
              sel.offers[s] == old(sel.offers)[s]
    ensures slot < |sel.offers| && old(sel.offers)[slot] <= sel.offers[slot] <= old(sel.offers)[slot] + 1
  {
    hide AtRest, Searchable, Encode, Advances, CoveredBy, Score, BestFirst, HeapCounted, SeenOk, FloorOf, FuzzyHeld;
    hide Fits, RefFor, DensityOf, Decode, RefsOk;
    SetupFacts(uni, st, fq, sel);
    SweepShape(uni, st);
    SlotFacts(uni, st, slot);
    AdvancesRefl(sel.heap, sel.cap);
    var e := entries[slot];
    SearchableIsText(uni, st, fq, sel);
    var density := FuzzyDensity(Decode(arena[e.foldedOff..e.foldedOff + e.foldedLen]), fq);
    if density.Some? {
      FuzzyOffer(uni, st, fq, slot);
      sel.Offer(rankKey, slot, Fuzzy, 0.3 + 0.2 * density.value);
    }
  }

  lemma SearchableIsText(uni: Unicode, st: State, fq: string, sel: Selector)
    requires Setup(uni, st, fq, sel)
    ensures Searchable(fq) && fq != ""
  {
    hide AtRest;
  }

  /** The sweep's slots, and what of them has been retained and examined so far. */
  ghost predicate DrainInv(slots: seq<nat>, seen0: set<nat>, key: seq<byte>, dMax: nat, cut: nat, quota0: nat, i: nat,
                           quota: nat,
                           examined: set<nat>, retained: set<nat>) {
    && i <= |slots| && cut <= RANK_DEPTH_MAX
    && retained <= examined <= AdmittedOf(slots, seen0, key, dMax, i)
    && |retained| == Retained(DepthCounts(slots, seen0, key, dMax, i), cut, quota0)
    && quota == quota0 - Lesser(DepthCounts(slots, seen0, key, dMax, i)[cut], quota0)
    && (forall s :: s in retained ==> KeyDepth(key, s) <= cut)
    && (forall s :: s in AdmittedOf(slots, seen0, key, dMax, i) && s !in examined ==> KeyDepth(key, s) >= cut)
  }

  /** What examining has done to the selector. */
  ghost predicate ExaminedOk(st: State, fq: string, seen0: set<nat>, seen1: set<nat>, o0: seq<nat>, o1: seq<nat>,
                             examined: set<nat>,
                             heap: seq<Scored>, cap: nat, accept: nat -> bool) {
    && seen0 <= seen1 <= seen0 + examined
    && |o1| == |o0| == |st.rows|
    && (forall s :: s in examined ==>
           s < |st.rows| && s !in seen0 && FuzzyDone(heap, cap, accept, st.rankKey, st.rows[s], fq, s))
    && (forall s :: 0 <= s < |o0| ==> o0[s] <= o1[s] <= o0[s] + 1 && (o1[s] != o0[s] ==> s in examined))
  }

  lemma DrainStart(slots: seq<nat>, seen0: set<nat>, key: seq<byte>, dMax: nat, cut: nat, quota: nat)
    requires cut <= RANK_DEPTH_MAX
    ensures DrainInv(slots, seen0, key, dMax, cut, quota, 0, quota, {}, {})
  {
    SumOfNone(RANK_DEPTH_MAX + 1, cut);
    assert AdmittedOf(slots, seen0, key, dMax, 0) == {};
  }

  lemma AdmittedMore(slots: seq<nat>, seen0: set<nat>, key: seq<byte>, dMax: nat, i: nat)
    requires i < |slots|
    ensures AdmittedOf(slots, seen0, key, dMax, i + 1) ==
              AdmittedOf(slots, seen0, key, dMax, i) + if Admits(seen0, key, dMax, slots[i]) then {slots[i]} else {}
  {
  }

  lemma CountsMore(slots: seq<nat>, seen0: set<nat>, key: seq<byte>, dMax: nat, i: nat)
    requires i < |slots|
    ensures var c := DepthCounts(slots, seen0, key, dMax, i);
            DepthCounts(slots, seen0, key, dMax, i + 1) ==
              if Admits(seen0, key, dMax, slots[i]) then
                c[KeyDepth(key, slots[i]) := c[KeyDepth(key, slots[i])] + 1]
              else c
  {
  }

  /** A slot already claimed, or past the ceiling. */
  lemma DrainSkip(slots: seq<nat>, seen0: set<nat>, key: seq<byte>, dMax: nat, cut: nat, quota0: nat, i: nat,
                  quota: nat, examined: set<nat>, retained: set<nat>)
    requires DrainInv(slots, seen0, key, dMax, cut, quota0, i, quota, examined, retained) && i < |slots|
    requires !Admits(seen0, key, dMax, slots[i])
    ensures DrainInv(slots, seen0, key, dMax, cut, quota0, i + 1, quota, examined, retained)
  {
    hide Admits, Retained, SumTo, AdmittedOf, DepthCounts, KeyDepth;
    AdmittedMore(slots, seen0, key, dMax, i);
    CountsMore(slots, seen0, key, dMax, i);
  }

  /** A candidate past the budget: examined in overtime, or not. */
  lemma DrainPast(slots: seq<nat>, seen0: set<nat>, key: seq<byte>, dMax: nat, cut: nat, quota0: nat, i: nat,
                  quota: nat, examined: set<nat>, retained: set<nat>)
    requires DrainInv(slots, seen0, key, dMax, cut, quota0, i, quota, examined, retained) && i < |slots|
    requires Admits(seen0, key, dMax, slots[i])
    requires KeyDepth(key, slots[i]) > cut || (KeyDepth(key, slots[i]) == cut && quota == 0)
    ensures DrainInv(slots, seen0, key, dMax, cut, quota0, i + 1, quota, examined, retained)
    ensures DrainInv(slots, seen0, key, dMax, cut, quota0, i + 1, quota, examined + {slots[i]}, retained)
  {
    hide Admits, AdmittedOf, SumTo, Retained, DepthCounts, KeyDepth;
    AdmittedMore(slots, seen0, key, dMax, i);
    CountsMore(slots, seen0, key, dMax, i);
    RetainedAfterOne(DepthCounts(slots, seen0, key, dMax, i), KeyDepth(key, slots[i]), cut, quota0);
  }

  /** A candidate within the budget. */
  lemma DrainRetain(slots: seq<nat>, seen0: set<nat>, key: seq<byte>, dMax: nat, cut: nat, quota0: nat, i: nat,
                    quota: nat, examined: set<nat>, retained: set<nat>)
    requires DrainInv(slots, seen0, key, dMax, cut, quota0, i, quota, examined, retained) && i < |slots|
    requires Admits(seen0, key, dMax, slots[i])
    requires Ascending(slots)
    requires KeyDepth(key, slots[i]) < cut || (KeyDepth(key, slots[i]) == cut && quota > 0)
    ensures DrainInv(slots, seen0, key, dMax, cut, quota0, i + 1,
                     if KeyDepth(key, slots[i]) == cut then quota - 1 else quota,
                     examined + {slots[i]}, retained + {slots[i]})
  {
    hide Admits, AdmittedOf, SumTo, Retained, Ascending, DepthCounts, KeyDepth, Lesser;
    NotBefore(slots, seen0, key, dMax, i);
    AdmittedMore(slots, seen0, key, dMax, i);
    CountsMore(slots, seen0, key, dMax, i);
    var c, d := DepthCounts(slots, seen0, key, dMax, i), KeyDepth(key, slots[i]);
    QuotaStep(c, d, cut, quota0, quota);
    RetainSets(retained, examined, AdmittedOf(slots, seen0, key, dMax, i), slots[i]);
  }

  /** Taking a place at the cut spends one of the quota. */
  lemma QuotaStep(c: seq<nat>, d: nat, cut: nat, quota0: nat, quota: nat)
    requires d < |c| && cut < |c| && quota == quota0 - Lesser(c[cut], quota0) && (d < cut || (d == cut && quota > 0))
    ensures Retained(c[d := c[d] + 1], cut, quota0) == Retained(c, cut, quota0) + 1
    ensures (if d == cut then quota - 1 else quota) == quota0 - Lesser(c[d := c[d] + 1][cut], quota0)
  {
    hide SumTo;
    RetainedAfterOne(c, d, cut, quota0);
  }

  lemma RetainSets(retained: set<nat>, examined: set<nat>, all: set<nat>, slot: nat)
    requires retained <= examined <= all && slot !in all
    ensures retained + {slot} <= examined + {slot} <= all + {slot} && |retained + {slot}| == |retained| + 1
    ensures forall s :: s in all + {slot} && s !in examined + {slot} ==> s in all && s !in examined
  {
  }

  lemma NotBefore(slots: seq<nat>, seen0: set<nat>, key: seq<byte>, dMax: nat, i: nat)
    requires Ascending(slots) && i < |slots|
    ensures slots[i] !in AdmittedOf(slots, seen0, key, dMax, i)
  {
  }

  /** Verify the next candidate of a drain. */
  method VerifyNext(uni: Unicode, rankKey: seq<byte>, arena: seq<byte>, entries: seq<Entry>, fq: string, slot: nat,
                    sel: Selector, ghost st: State, ghost heap0: seq<Scored>, ghost seen0: set<nat>,
                    ghost o0: seq<nat>, ghost examined: set<nat>)
    requires Setup(uni, st, fq, sel) && |Encode(fq)| >= 3 && rankKey == st.rankKey && arena == st.foldedArena
    requires entries == st.entries && slot < |st.rows| && st.rows[slot].Live? && slot !in seen0 && slot !in examined
    requires Advances(heap0, sel.heap, sel.cap)
    requires ExaminedOk(st, fq, seen0, sel.seen, o0, sel.offers, examined, sel.heap, sel.cap, sel.accept)
    modifies sel
    ensures Setup(uni, st, fq, sel) && Advances(heap0, sel.heap, sel.cap)
    ensures ExaminedOk(st, fq, seen0, sel.seen, o0, sel.offers, examined + {slot}, sel.heap, sel.cap, sel.accept)
  {
    hide AtRest, Setup, Encode, Advances, CoveredBy, ExaminedOk, FuzzyDone;
    SetupFacts(uni, st, fq, sel);
    ghost var before, seen1, o1 := sel.heap, sel.seen, sel.offers;
    Verify(uni, rankKey, arena, entries, fq, slot, sel, st);
    AdvancesTrans(heap0, before, sel.heap, sel.cap);
    FuzzyAdvances(before, sel.heap, sel.cap, sel.accept, rankKey);
    ExaminedMore(st, fq, seen0, seen1, o0, o1, examined, before, sel.cap, sel.accept, slot, sel.seen, sel.offers,
                 sel.heap);
  }

  /** Every so many extra candidates the soft deadline is looked at. */
  predicate LooksAtClock(extra: nat) {
    extra % DEADLINE_STRIDE == 0
  }

  /** Drain the candidates: every retained one is verified whatever the heap does; past the budget only while the
      page has room. */
  method Drain(uni: Unicode, rankKey: seq<byte>, arena: seq<byte>, entries: seq<Entry>, fq: string, slots: seq<nat>,
               dMax: nat, cut: nat, quota0: nat,
               poll: nat -> bool, sel: Selector, ghost st: State)
    returns (cancelled: bool, ghost examined: set<nat>, ghost retained: set<nat>)
    requires Setup(uni, st, fq, sel) && |Encode(fq)| >= 3 && rankKey == st.rankKey && arena == st.foldedArena
    requires entries == st.entries
    requires Ascending(slots) && (forall s :: s in slots ==> s < |st.rows| && st.rows[s].Live?) && cut <= RANK_DEPTH_MAX
    modifies sel
    ensures Setup(uni, st, fq, sel) && Advances(old(sel.heap), sel.heap, sel.cap)
    ensures ExaminedOk(st, fq, old(sel.seen), sel.seen, old(sel.offers), sel.offers, examined, sel.heap, sel.cap,
                       sel.accept)
    ensures cancelled ==> Raised(poll)
    ensures !cancelled ==> exists quota ::
              DrainInv(slots, old(sel.seen), rankKey, dMax, cut, quota0, |slots|, quota, examined, retained)
  {
    hide AtRest, Setup, Encode, Advances, CoveredBy, DrainInv, ExaminedOk, FuzzyDone, Admits, Raised, DepthCounts;
    hide AdmittedOf, Retained, SumTo, Ascending, KeyDepth, LooksAtClock;
    ghost var heap0, seen0, o0 := sel.heap, sel.seen, sel.offers;
    SetupFacts(uni, st, fq, sel);
    AdvancesRefl(sel.heap, sel.cap);
    DrainStart(slots, seen0, rankKey, dMax, cut, quota0);
    NothingExamined(st, fq, seen0, o0, sel.heap, sel.cap, sel.accept);
    examined, retained := {}, {};
    cancelled := false;
    var quota, overtime, extra := quota0, false, 0;
    for i := 0 to |slots|
      invariant Setup(uni, st, fq, sel) && Advances(heap0, sel.heap, sel.cap)
      invariant DrainInv(slots, seen0, rankKey, dMax, cut, quota0, i, quota, examined, retained)
      invariant ExaminedOk(st, fq, seen0, sel.seen, o0, sel.offers, examined, sel.heap, sel.cap, sel.accept)
    {
      var slot := slots[i];
      assert slot in slots;
      SeenSame(slots, seen0, sel.seen, rankKey, dMax, i, examined, st, fq, o0, sel.offers, sel.heap, sel.cap,
               sel.accept, cut, quota0, quota, retained);
      if !Admits(sel.seen, rankKey, dMax, slot) {
        DrainSkip(slots, seen0, rankKey, dMax, cut, quota0, i, quota, examined, retained);
        continue;
      }
      var d := KeyDepth(rankKey, slot);
      ghost var examined0 := examined;
      if d < cut || (d == cut && quota > 0) {
        DrainRetain(slots, seen0, rankKey, dMax, cut, quota0, i, quota, examined, retained);
        if d == cut {
          quota := quota - 1;
        }
        examined, retained := examined + {slot}, retained + {slot};
      } else {
        DrainPast(slots, seen0, rankKey, dMax, cut, quota0, i, quota, examined, retained);
        if sel.Full() || overtime {
          continue;
        }
        extra := extra + 1;
        if LooksAtClock(extra) {
          // The soft deadline may have passed.
          if * {
            overtime := true;
            continue;
          }
        }
        examined := examined + {slot};
      }
      var stop := Poll(poll);
      if stop {
        cancelled := true;
        examined := examined0;
        return;
      }
      VerifyNext(uni, rankKey, arena, entries, fq, slot, sel, st, heap0, seen0, o0, examined0);
    }
  }

  lemma NothingExamined(st: State, fq: string, seen0: set<nat>, o0: seq<nat>, heap: seq<Scored>, cap: nat,
                        accept: nat -> bool)
    requires |o0| == |st.rows|
    ensures ExaminedOk(st, fq, seen0, seen0, o0, o0, {}, heap, cap, accept)
  {
  }

  /** A slot not swept yet is claimed now exactly if it was before the drain. */
  lemma SeenSame(slots: seq<nat>, seen0: set<nat>, seen1: set<nat>, key: seq<byte>, dMax: nat, i: nat,
                 examined: set<nat>, st: State, fq: string,
                 o0: seq<nat>, o1: seq<nat>, heap: seq<Scored>, cap: nat, accept: nat -> bool, cut: nat, quota0: nat,
                 quota: nat, retained: set<nat>)
    requires Ascending(slots) && i < |slots|
    requires DrainInv(slots, seen0, key, dMax, cut, quota0, i, quota, examined, retained)
    requires ExaminedOk(st, fq, seen0, seen1, o0, o1, examined, heap, cap, accept)
    ensures Admits(seen1, key, dMax, slots[i]) <==> Admits(seen0, key, dMax, slots[i])
    ensures Admits(seen0, key, dMax, slots[i]) ==> slots[i] !in seen0 && slots[i] !in examined
  {
    hide FuzzyDone, AdmittedOf, Retained, DepthCounts, Ascending;
    NotBefore(slots, seen0, key, dMax, i);
  }

  lemma ExaminedMore(st: State, fq: string, seen0: set<nat>, seen1: set<nat>, o0: seq<nat>, o1: seq<nat>,
                     examined: set<nat>,
                     heap: seq<Scored>, cap: nat, accept: nat -> bool, slot: nat, seen2: set<nat>, o2: seq<nat>,
                     heap': seq<Scored>)
    requires ExaminedOk(st, fq, seen0, seen1, o0, o1, examined, heap, cap, accept) && slot < |st.rows| && slot !in seen0
    requires slot !in examined
    requires seen1 <= seen2 <= seen1 + {slot} && |o2| == |o1| && o1[slot] <= o2[slot] <= o1[slot] + 1
    requires forall s :: 0 <= s < |o2| && s != slot ==> o2[s] == o1[s]
    requires forall row: Row, t: string, s: nat :: FuzzyDone(heap, cap, accept, st.rankKey, row, t, s) ==>
               FuzzyDone(heap', cap, accept, st.rankKey, row, t, s)
    requires FuzzyDone(heap', cap, accept, st.rankKey, st.rows[slot], fq, slot)
    ensures ExaminedOk(st, fq, seen0, seen2, o0, o2, examined + {slot}, heap', cap, accept)
  {
    hide FuzzyDone;
  }

  // ---- the pass ---------------------------------------------------------------------------------------

  /** Live rows that carry every character class of the query: all the fuzzy tier could ever have to verify. */
  ghost function Candidates(rows: seq<Row>, q: seq<byte>): set<nat> {
    set s: nat | s < |rows| && rows[s].Live? && ClassMask(q) <= ClassMask(rows[s].folded)
  }

  /** Which candidates the budget kept and which it let go: nothing goes while they number within it, and nothing kept
      is deeper than anything let go. */
  ghost predicate Budgeted(all: set<nat>, key: seq<byte>, survivors: nat, retained: set<nat>, dropped: set<nat>) {
    && retained <= all && dropped <= all && retained !! dropped && survivors <= |all|
    && |retained| == Lesser(survivors, FUZZY_CAP)
    && (survivors <= FUZZY_CAP ==> dropped == {})
    && (forall r, s: nat :: r in retained && s in dropped ==> KeyDepth(key, r) <= KeyDepth(key, s))
  }

  lemma {:induction false} CountAdmitted(slots: seq<nat>, seen0: set<nat>, key: seq<byte>, dMax: nat, n: nat)
    requires Ascending(slots) && n <= |slots|
    ensures |AdmittedOf(slots, seen0, key, dMax, n)| ==
              SumTo(DepthCounts(slots, seen0, key, dMax, n), RANK_DEPTH_MAX + 1)
  {
    hide AdmittedOf, DepthCounts, Admits, SumTo, KeyDepth, Ascending;
    if n == 0 {
      NoneAdmitted(slots, seen0, key, dMax);
    } else {
      CountAdmitted(slots, seen0, key, dMax, n - 1);
      NotBefore(slots, seen0, key, dMax, n - 1);
      AdmittedMore(slots, seen0, key, dMax, n - 1);
      CountsMore(slots, seen0, key, dMax, n - 1);
      SumAfterOne(DepthCounts(slots, seen0, key, dMax, n - 1), KeyDepth(key, slots[n - 1]), RANK_DEPTH_MAX + 1);
    }
  }

  lemma NoneAdmitted(slots: seq<nat>, seen0: set<nat>, key: seq<byte>, dMax: nat)
    ensures |AdmittedOf(slots, seen0, key, dMax, 0)| ==
              SumTo(DepthCounts(slots, seen0, key, dMax, 0), RANK_DEPTH_MAX + 1)
  {
    assert AdmittedOf(slots, seen0, key, dMax, 0) == {};
    SumOfNone(RANK_DEPTH_MAX + 1, RANK_DEPTH_MAX + 1);
  }

  /** The drain's bookkeeping, read at its end. */
  lemma DrainEnd(slots: seq<nat>, seen0: set<nat>, key: seq<byte>, dMax: nat, cut: nat, quota0: nat, quota: nat,
                 examined: set<nat>, retained: set<nat>, survivors: nat, candidates: set<nat>)
    requires AdmittedOf(slots, seen0, key, dMax, |slots|) <= candidates
    requires Ascending(slots) && DrainInv(slots, seen0, key, dMax, cut, quota0, |slots|, quota, examined, retained)
    requires survivors == SumTo(DepthCounts(slots, seen0, key, dMax, |slots|), RANK_DEPTH_MAX + 1)
    requires Retained(DepthCounts(slots, seen0, key, dMax, |slots|), cut, quota0) == Lesser(survivors, FUZZY_CAP)
    ensures Budgeted(candidates, key, survivors, retained, AdmittedOf(slots, seen0, key, dMax, |slots|) - examined)
  {
    hide Admits, AdmittedOf, DepthCounts, SumTo, Retained, KeyDepth, Ascending;
    var all := AdmittedOf(slots, seen0, key, dMax, |slots|);
    CountAdmitted(slots, seen0, key, dMax, |slots|);
    SubsetSize(all, candidates);
    if survivors <= FUZZY_CAP {
      SameSize(retained, all);
    }
  }

  lemma SubsetSize(a: set<nat>, b: set<nat>)
    requires a <= b
    ensures |a| <= |b|
  {
    assert b == a + (b - a);
  }

  /** The sweep visits candidates only. */
  lemma SweepCandidates(uni: Unicode, st: State, fq: string, slots: seq<nat>, words: nat, seen0: set<nat>, dMax: nat)
    requires AtRest(uni, st) && Searchable(fq) && words <= st.bsiWords
    requires SweptTo(slots, st.bsi, st.bsiWords, ClassMask(Encode(fq)), 64 * words)
    ensures AdmittedOf(slots, seen0, st.rankKey, dMax, |slots|) <= Candidates(st.rows, Encode(fq))
  {
    hide AtRest, Encode, Qualifies, BsiOk, ClassMask, Ascending, Admits;
    SearchableText(fq);
    BitsOf(uni, st);
    MaskNamesClasses(Encode(fq));
    forall s | s in AdmittedOf(slots, seen0, st.rankKey, dMax, |slots|) ensures s in Candidates(st.rows, Encode(fq)) {
      assert s in slots;
      SweepIsExact(st.rows, st.bsi, st.bsiWords, ClassMask(Encode(fq)), s);
    }
  }

  lemma SameSize(a: set<nat>, b: set<nat>)
    requires a <= b && |a| == |b|
    ensures a == b
  {
    assert |b - a| == |b| - |a|;
    assert b == a + (b - a);
  }

  /** A row that could match has all the query's classes, so the sweep visits it. */
  lemma SweepVisits(uni: Unicode, st: State, fq: string, slots: seq<nat>, words: nat, s: nat)
    requires AtRest(uni, st) && Searchable(fq) && s < |st.rows| && FuzzyBaseOf(st.rows[s], fq).Some?
    requires SweptTo(slots, st.bsi, st.bsiWords, ClassMask(Encode(fq)), 64 * words)
    requires words <= st.bsiWords && |st.rows| <= 64 * words
    ensures s in slots
  {
    hide AtRest, Encode, Decode, DensityOf, Qualifies, BsiOk, ClassMask, IsSubsequence;
    SearchableText(fq);
    FuzzyBaseRange(st.rows[s], fq);
    FoldedIsText(uni, st, s);
    PrefilterSound(fq, Decode(st.rows[s].folded));
    BitsOf(uni, st);
    MaskNamesClasses(Encode(fq));
    SweepIsExact(st.rows, st.bsi, st.bsiWords, ClassMask(Encode(fq)), s);
  }

  lemma MaskNamesClasses(q: seq<byte>)
    requires q != []
    ensures ClassMask(q) != {} && forall c :: c in ClassMask(q) ==> c < BSI_CLASSES
  {
    assert q[0] in q;
    assert ClassOf(q[0]) in ClassMask(q);
  }

  /** A live row's folded text is an encoding. */
  lemma FoldedIsText(uni: Unicode, st: State, s: nat)
    requires AtRest(uni, st) && s < |st.rows| && st.rows[s].Live?
    ensures Encode(Decode(st.rows[s].folded)) == st.rows[s].folded
  {
    hide EntriesOk, MapOk, FreeOk, ArenasOk, ColumnsOk, MarksOk, Encode, Decode, Truncate, Fold;
    assert RowOk(uni, st.rows[s]);
    RoundTrip(Truncate(Fold(uni, st.rows[s].name), NAME_MAX));
  }

  /** The sweep visits live rows only. */
  lemma SweepLive(uni: Unicode, st: State, fq: string, slots: seq<nat>, words: nat)
    requires AtRest(uni, st) && Searchable(fq) && words <= st.bsiWords
    requires SweptTo(slots, st.bsi, st.bsiWords, ClassMask(Encode(fq)), 64 * words)
    ensures Ascending(slots) && forall s :: s in slots ==> s < |st.rows| && st.rows[s].Live?
  {
    hide AtRest, Encode, Qualifies, BsiOk, ClassMask, Ascending;
    SearchableText(fq);
    BitsOf(uni, st);
    MaskNamesClasses(Encode(fq));
    forall s | s in slots ensures s < |st.rows| && st.rows[s].Live? {
      SweepIsExact(st.rows, st.bsi, st.bsiWords, ClassMask(Encode(fq)), s);
    }
  }

  /** Every unclaimed row's fuzzy offer is done, or the budget let its candidate go. */
  lemma PassCovers(uni: Unicode, st: State, fq: string, slots: seq<nat>, words: nat, seen0: set<nat>, seen1: set<nat>,
                   o0: seq<nat>, o1: seq<nat>,
                   dMax: nat, examined: set<nat>, heap: seq<Scored>, cap: nat, accept: nat -> bool, s: nat)
    requires AtRest(uni, st) && Searchable(fq) && s < |st.rows| && s !in seen0
    requires SweptTo(slots, st.bsi, st.bsiWords, ClassMask(Encode(fq)), 64 * words) && words <= st.bsiWords
    requires |st.rows| <= 64 * words
    requires ExaminedOk(st, fq, seen0, seen1, o0, o1, examined, heap, cap, accept)
    requires KeyDepth(st.rankKey, s) > dMax ==> FuzzyDone(heap, cap, accept, st.rankKey, st.rows[s], fq, s)
    ensures FuzzyDone(heap, cap, accept, st.rankKey, st.rows[s], fq, s)
         || s in AdmittedOf(slots, seen0, st.rankKey, dMax, |slots|) - examined
  {
    hide AtRest, Encode, ClassMask, CoveredBy, Score, FuzzyBaseOf, KeyDepth, SweptTo;
    if FuzzyBaseOf(st.rows[s], fq).Some? && KeyDepth(st.rankKey, s) <= dMax {
      SweepVisits(uni, st, fq, slots, words, s);
      var i :| 0 <= i < |slots| && slots[i] == s;
      assert Admits(seen0, st.rankKey, dMax, slots[i]);
    }
  }

  lemma DeepDone(uni: Unicode, st: State, fq: string, sel: Selector, dMax: nat)
    requires Setup(uni, st, fq, sel) && dMax <= RANK_DEPTH_MAX && Ceiling(sel.floor, dMax)
    ensures forall s: nat :: s < |st.rows| && KeyDepth(st.rankKey, s) > dMax ==>
              FuzzyDone(sel.heap, sel.cap, sel.accept, st.rankKey, st.rows[s], fq, s)
  {
    hide AtRest, FuzzyDone, Ceiling, KeyDepth, Encode, NoControl;
    forall s: nat | s < |st.rows| && KeyDepth(st.rankKey, s) > dMax
      ensures FuzzyDone(sel.heap, sel.cap, sel.accept, st.rankKey, st.rows[s], fq, s)
    {
      TooDeep(sel, dMax, st.rankKey, st.rows[s], fq, s);
    }
  }

  lemma WordsCover(n: nat, words: nat)
    requires n <= 64 * words
    ensures n <= 64 * Lesser((n + 63) / 64, words) && Lesser((n + 63) / 64, words) <= words
  {
  }

  lemma SeenIs(uni: Unicode, st: State, fq: string, sel: Selector)
    requires Setup(uni, st, fq, sel)
    ensures SeenOk(sel.seen, sel.offers)
  {
    hide AtRest, SeenOk;
  }

  /** Only slots no earlier pass claimed are offered, once each. */
  lemma OffersAfter(st: State, fq: string, seen0: set<nat>, seen1: set<nat>, o0: seq<nat>, o1: seq<nat>,
                    examined: set<nat>,
                    heap: seq<Scored>, cap: nat, accept: nat -> bool)
    requires ExaminedOk(st, fq, seen0, seen1, o0, o1, examined, heap, cap, accept) && SeenOk(seen0, o0)
    ensures |o1| == |o0| && forall s :: 0 <= s < |o1| ==> o1[s] == o0[s] || (o0[s] == 0 && o1[s] == 1)
  {
    hide FuzzyDone;
  }

  lemma AllCovered(uni: Unicode, st: State, fq: string, slots: seq<nat>, words: nat, seen0: set<nat>, seen1: set<nat>,
                   o0: seq<nat>, o1: seq<nat>,
                   dMax: nat, examined: set<nat>, heap: seq<Scored>, cap: nat, accept: nat -> bool)
    requires AtRest(uni, st) && Searchable(fq) && SeenOk(seen0, o0) && |o0| == |st.rows|
    requires SweptTo(slots, st.bsi, st.bsiWords, ClassMask(Encode(fq)), 64 * words) && words <= st.bsiWords
    requires |st.rows| <= 64 * words
    requires ExaminedOk(st, fq, seen0, seen1, o0, o1, examined, heap, cap, accept)
    requires forall s: nat :: s < |st.rows| && KeyDepth(st.rankKey, s) > dMax ==>
               FuzzyDone(heap, cap, accept, st.rankKey, st.rows[s], fq, s)
    ensures forall s :: 0 <= s < |st.rows| && o0[s] == 0 ==>
              FuzzyDone(heap, cap, accept, st.rankKey, st.rows[s], fq, s)
              || s in AdmittedOf(slots, seen0, st.rankKey, dMax, |slots|) - examined
  {
    hide AtRest, Searchable, SweptTo, ExaminedOk, FuzzyDone, AdmittedOf, Encode, ClassMask, KeyDepth;
    forall s | 0 <= s < |st.rows| && o0[s] == 0
      ensures FuzzyDone(heap, cap, accept, st.rankKey, st.rows[s], fq, s)
              || s in AdmittedOf(slots, seen0, st.rankKey, dMax, |slots|) - examined
    {
      PassCovers(uni, st, fq, slots, words, seen0, seen1, o0, o1, dMax, examined, heap, cap, accept, s);
    }
  }

  /** Let-go candidates were never offered. */
  lemma DroppedFacts(slots: seq<nat>, seen0: set<nat>, key: seq<byte>, dMax: nat, st: State, fq: string,
                     seen1: set<nat>, o0: seq<nat>, o1: seq<nat>,
                     examined: set<nat>, heap: seq<Scored>, cap: nat, accept: nat -> bool)
    requires ExaminedOk(st, fq, seen0, seen1, o0, o1, examined, heap, cap, accept) && SeenOk(seen0, o0)
    requires forall s :: s in slots ==> s < |st.rows|
    ensures forall s :: s in AdmittedOf(slots, seen0, key, dMax, |slots|) - examined ==>
              s < |st.rows| && s < |o0| && s < |o1| && o0[s] == 0 && o1[s] == 0
  {
    hide FuzzyDone, KeyDepth;
    forall s | s in AdmittedOf(slots, seen0, key, dMax, |slots|) - examined
      ensures s < |st.rows| && s < |o0| && s < |o1| && o0[s] == 0 && o1[s] == 0
    {
      var i :| 0 <= i < |slots| && slots[i] == s && Admits(seen0, key, dMax, slots[i]);
      assert slots[i] in slots;
    }
  }

  /** The fuzzy pass. `dropped` holds the candidates the budget let go unverified. */
  method FuzzyPass(uni: Unicode, rankKey: seq<byte>, arena: seq<byte>, entries: seq<Entry>, bsi: seq<Word>,
                   bsiWords: nat, q: seq<byte>, fq: string,
                   poll: nat -> bool, sel: Selector, ghost st: State)
    returns (cancelled: bool, ghost survivors: nat, ghost retained: set<nat>, ghost dropped: set<nat>)
    requires Setup(uni, st, fq, sel) && q == Encode(fq) && |q| >= 3 && rankKey == st.rankKey && arena == st.foldedArena
    requires entries == st.entries
    requires bsi == st.bsi && bsiWords == st.bsiWords
    modifies sel
    ensures Setup(uni, st, fq, sel) && Advances(old(sel.heap), sel.heap, sel.cap)
    ensures |sel.offers| == |old(sel.offers)| && forall s :: 0 <= s < |sel.offers| ==>
              sel.offers[s] == old(sel.offers)[s] || (old(sel.offers)[s] == 0 && sel.offers[s] == 1)
    ensures cancelled ==> Raised(poll)
    ensures !cancelled ==> Budgeted(Candidates(st.rows, q), rankKey, survivors, retained, dropped)
    ensures !cancelled ==> forall s :: 0 <= s < |st.rows| && old(sel.offers)[s] == 0 ==>
              FuzzyDone(sel.heap, sel.cap, sel.accept, rankKey, st.rows[s], fq, s) || s in dropped
    ensures !cancelled ==> forall s :: s in dropped ==> s < |st.rows| && old(sel.offers)[s] == 0 && sel.offers[s] == 0
  {
    hide AtRest, Encode, Setup, Advances, CoveredBy, DrainInv, ExaminedOk, FuzzyDone, Admits, AdmittedOf, DepthCounts;
    hide Budgeted, Ceiling, SeenOk, SliceShape, SweptTo, ClassMask, Searchable;
    hide SumTo, Retained, Ascending, KeyDepth, Candidates, Raised;
    SetupFacts(uni, st, fq, sel);
    SearchableIsText(uni, st, fq, sel);
    BitsOf(uni, st);
    SweepShape(uni, st);
    MaskNamesClasses(q);
    ghost var heap0, seen0, o0 := sel.heap, sel.seen, sel.offers;
    var dMax := DepthCeiling(sel.floor);
    DeepDone(uni, st, fq, sel, dMax);
    SeenIs(uni, st, fq, sel);
    var words := Lesser((|entries| + 63) / 64, bsiWords);
    WordsCover(|entries|, bsiWords);
    var slots := SupersetSlots(bsi, bsiWords, words, ClassMask(q));
    SweepLive(uni, st, fq, slots, words);
    SweepCandidates(uni, st, fq, slots, words, seen0, dMax);
    var byDepth, count := CountByDepth(slots, sel.seen, rankKey, dMax);
    var cut, quota := FuzzyCapCut(byDepth, count);
    ghost var examined;
    cancelled, examined, retained := Drain(uni, rankKey, arena, entries, fq, slots, dMax, cut, quota, poll, sel, st);
    survivors := count;
    dropped := AdmittedOf(slots, seen0, rankKey, dMax, |slots|) - examined;
    OffersAfter(st, fq, seen0, sel.seen, o0, sel.offers, examined, sel.heap, sel.cap, sel.accept);
    if !cancelled {
      ghost var left :| DrainInv(slots, seen0, rankKey, dMax, cut, quota, |slots|, left, examined, retained);
      DrainEnd(slots, seen0, rankKey, dMax, cut, quota, left, examined, retained, survivors, Candidates(st.rows, q));
      FuzzyAdvances(heap0, sel.heap, sel.cap, sel.accept, rankKey);
      AllCovered(uni, st, fq, slots, words, seen0, sel.seen, o0, sel.offers, dMax, examined, sel.heap, sel.cap,
                 sel.accept);
      DroppedFacts(slots, seen0, rankKey, dMax, st, fq, sel.seen, o0, sel.offers, examined, sel.heap, sel.cap,
                   sel.accept);
    }
  }
}
