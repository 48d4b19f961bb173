/** The arena pass: one chunked scan of the folded arena, one offer per record at the best tier of its own hits. */
module ArenaScan {
  import opened Bytes
  import opened Utf8
  import opened Names
  import opened Ranking
  import opened Scanning
  import opened Table
  import opened Records
  import opened Columns
  import opened Ordering
  import opened Selecting
  import opened IndexState
  import opened Repair
  import opened Reference
  import opened HeadScan

  /** Arena bytes between cancellation polls. */
  const SCAN_POLL_CHUNK: nat := 0x10_0000

  // ---- tiers over part of a scan -------------------------------------------------------------

  predicate NoBetter(a: Option<Tier>, b: Option<Tier>) {
    a.Some? ==> b.Some? && TierBase(a.value) <= TierBase(b.value)
  }

  lemma {:induction false} BestHitGrows(acc: Option<Tier>, a: seq<byte>, n: nat, skip: bool, hits: seq<nat>, lo: nat,
                                        hi: nat)
    ensures NoBetter(acc, BestHit(acc, a, n, skip, hits, lo, hi))
    decreases hits
  {
    hide HitTier;
    if hits != [] {
      BestHitGrows(Tally(acc, a, n, skip, hits[0], lo, hi), a, n, skip, hits[1..], lo, hi);
    }
  }

  /** Fewer hits, or hits skipped, never give a better tier. */
  lemma {:induction false} BestHitMono(acc: Option<Tier>, acc': Option<Tier>, a: seq<byte>, n: nat, skip: bool,
                                       hits: seq<nat>, more: seq<nat>, lo: nat, hi: nat)
    requires NoBetter(acc, acc')
    ensures NoBetter(BestHit(acc, a, n, skip, hits, lo, hi), BestHit(acc', a, n, false, hits + more, lo, hi))
    decreases hits
  {
    hide HitTier;
    if hits == [] {
      assert hits + more == more;
      BestHitGrows(acc', a, n, false, more, lo, hi);
    } else {
      assert (hits + more)[0] == hits[0] && (hits + more)[1..] == hits[1..] + more;
      BestHitMono(Tally(acc, a, n, skip, hits[0], lo, hi), Tally(acc', a, n, false, hits[0], lo, hi), a, n, skip,
                  hits[1..], more, lo, hi);
    }
  }

  // ---- live records ------------------------------------------------------------------------------

  /** Slot `s` is live, and `[Lo, Hi)` of the arena is its record. */
  predicate LiveSlot(st: State, s: nat) {
    s < |st.rows| && s < |st.entries| && s < |st.rankKey| && st.rows[s].Live?
  }

  function Lo(st: State, s: nat): nat
    requires LiveSlot(st, s)
  {
    st.entries[s].foldedOff
  }

  function Hi(st: State, s: nat): nat
    requires LiveSlot(st, s)
  {
    st.entries[s].foldedOff + |st.rows[s].folded|
  }

  /** What a live slot's record is. */
  lemma RecordOf(uni: Unicode, st: State, s: nat)
    requires AtRest(uni, st) && LiveSlot(st, s)
    ensures Fenced(st.foldedArena, Lo(st, s), Hi(st, s)) && st.foldedArena[Lo(st, s)..Hi(st, s)] == st.rows[s].folded
    ensures s in st.recOf && st.recOf[s] < |st.arenaRecs| && st.arenaRecs[st.recOf[s]] == ArenaRec(Lo(st, s), s)
    ensures RecEnd(|st.foldedArena|, st.arenaRecs, st.recOf[s]) == Hi(st, s)
  {
    hide RowsOk, EntriesOk, MapOk, FreeOk, OwnerOk, NamesAscend, ColumnsOk, MarksOk, LiveBytes, Fences, LiveRecs;
    hide RecsOk, RecEnd;
    LiveRecordFacts(st.rows, st.entries, st.foldedArena, st.arenaEnd, st.arenaRecs, st.recOf, s);
  }

  lemma SlotShape(uni: Unicode, st: State, s: nat)
    requires AtRest(uni, st) && s < |st.rows| && st.rows[s].Live?
    ensures LiveSlot(st, s)
  {
    hide AtRest;
    SweepShape(uni, st);
  }

  /** The record an occurrence lies in: a live one's bytes, or no live record's. */
  lemma HitOwner(uni: Unicode, st: State, q: seq<byte>, h: nat) returns (i: nat)
    requires AtRest(uni, st) && q != [] && NoControl(q) && Occurs(st.foldedArena, q, h)
    ensures 1 <= h && h + |q| < |st.foldedArena| && InRec(st.arenaRecs, |st.foldedArena|, i, h) && i < |st.arenaRecs|
    ensures RecLive(st.arenaRecs, st.recOf, i) ==> LiveSlot(st, st.arenaRecs[i].slot)
    ensures forall s :: LiveSlot(st, s) ==>
              (Lo(st, s) <= h < Hi(st, s) <==> RecLive(st.arenaRecs, st.recOf, i) && st.arenaRecs[i].slot == s)
  {
    hide AtRest, RecLive, InRec, Occurs, Lo, Hi;
    i := HitRecord(uni, st, q, h);
    LiveOwner(uni, st, i);
    forall s | LiveSlot(st, s) ensures Lo(st, s) <= h < Hi(st, s) <==>
      RecLive(st.arenaRecs, st.recOf, i) && st.arenaRecs[i].slot == s {
      OwnsHit(uni, st, q, h, i, s);
    }
  }

  /** The record a hit lies in. */
  lemma HitRecord(uni: Unicode, st: State, q: seq<byte>, h: nat) returns (i: nat)
    requires AtRest(uni, st) && q != [] && NoControl(q) && Occurs(st.foldedArena, q, h)
    ensures 1 <= h && h + |q| < |st.foldedArena| && InRec(st.arenaRecs, |st.foldedArena|, i, h) && i < |st.arenaRecs|
  {
    hide AtRest, RecsOk;
    ArenaShape(uni, st);
    FirstByte(st.foldedArena, q, h);
    NoCrossing(st.foldedArena, q, h, 0);
    NoCrossing(st.foldedArena, q, h, |st.foldedArena| - 1);
    i := LastRec(st.arenaRecs, |st.foldedArena|, h, |st.arenaRecs|);
  }

  /** The arena around its records. */
  lemma ArenaShape(uni: Unicode, st: State)
    requires AtRest(uni, st)
    ensures st.foldedArena != [] ==> st.arenaRecs != [] && st.arenaRecs[0].off == 1
    ensures st.foldedArena != [] ==> st.foldedArena[0] == DELIM && st.foldedArena[|st.foldedArena| - 1] == DELIM
    ensures forall i, j :: 0 <= i < j < |st.arenaRecs| ==> st.arenaRecs[i].off < st.arenaRecs[j].off
    ensures RecsOk(st.foldedArena, |st.foldedArena|, st.arenaRecs)
  {
    hide RowsOk, EntriesOk, MapOk, FreeOk, OwnerOk, NamesAscend, ColumnsOk, MarksOk, LiveBytes, Fences, LiveRecs;
    if st.foldedArena != [] {
      RecAt(st.foldedArena, st.arenaEnd, st.arenaRecs, |st.arenaRecs| - 1);
    }
  }

  /** The last record starting at or before a byte. */
  lemma {:induction false} LastRec(recs: seq<ArenaRec>, end: nat, h: nat, n: nat) returns (i: nat)
    requires 0 < n <= |recs| && recs[0].off <= h < end
    requires if n < |recs| then h < recs[n].off else true
    ensures InRec(recs, end, i, h)
    decreases n
  {
    if recs[n - 1].off <= h {
      i := n - 1;
    } else {
      i := LastRec(recs, end, h, n - 1);
    }
  }

  lemma LiveOwner(uni: Unicode, st: State, i: nat)
    requires AtRest(uni, st) && i < |st.arenaRecs|
    ensures RecLive(st.arenaRecs, st.recOf, i) ==> LiveSlot(st, st.arenaRecs[i].slot)
  {
    hide RowsOk, EntriesOk, MapOk, FreeOk, OwnerOk, NamesAscend, ColumnsOk, MarksOk, LiveBytes, Fences, RecsOk, Holds;
    hide Settled;
    if RecLive(st.arenaRecs, st.recOf, i) {
      HoldsFacts(st.rows, st.entries, st.foldedArena, st.arenaEnd, st.arenaRecs, st.arenaRecs[i].slot, i);
      SlotShape(uni, st, st.arenaRecs[i].slot);
    }
  }

  lemma OwnsHit(uni: Unicode, st: State, q: seq<byte>, h: nat, i: nat, s: nat)
    requires AtRest(uni, st) && q != [] && NoControl(q) && Occurs(st.foldedArena, q, h) && LiveSlot(st, s)
    requires InRec(st.arenaRecs, |st.foldedArena|, i, h) && h + |q| < |st.foldedArena|
    ensures Lo(st, s) <= h < Hi(st, s) <==> RecLive(st.arenaRecs, st.recOf, i) && st.arenaRecs[i].slot == s
  {
    hide AtRest, Fenced, RecsOk, Occurs;
    RecordOf(uni, st, s);
    ArenaShape(uni, st);
    EndIsFence(uni, st, s);
    var r := st.recOf[s];
    FirstByte(st.foldedArena, q, h);
    if Lo(st, s) <= h < Hi(st, s) {
      InOwnRecord(st.arenaRecs, |st.foldedArena|, r, h);
      OnlyRec(st.foldedArena, |st.foldedArena|, st.arenaRecs, i, h);
    }
    if RecLive(st.arenaRecs, st.recOf, i) && st.arenaRecs[i].slot == s {
      assert i == r && h <= Hi(st, s);
    }
  }

  lemma EndIsFence(uni: Unicode, st: State, s: nat)
    requires AtRest(uni, st) && LiveSlot(st, s)
    ensures Hi(st, s) < |st.foldedArena| && st.foldedArena[Hi(st, s)] == DELIM
  {
    hide AtRest;
    RecordOf(uni, st, s);
  }

  lemma InOwnRecord(recs: seq<ArenaRec>, end: nat, r: nat, h: nat)
    requires r < |recs| && recs[r].off <= h < RecEnd(end, recs, r)
    ensures InRec(recs, end, r, h)
  {
  }

  // ---- the scan's invariant ------------------------------------------------------------------------

  /** Best tier among a slot's hits so far. */
  function HitsTier(st: State, q: seq<byte>, skip: bool, hits: seq<nat>, s: nat): Option<Tier>
    requires LiveSlot(st, s)
  {
    BestHit(None, st.foldedArena, |q|, skip, hits, Lo(st, s), Hi(st, s))
  }

  /** The slot's best hit so far is done, or is exactly what is pending. */
  predicate SlotInv(st: State, q: seq<byte>, skip: bool, hits: seq<nat>, pend: Option<(nat, Tier)>,
                    heap: seq<Scored>, cap: nat, accept: nat -> bool, s: nat)
    requires LiveSlot(st, s)
  {
    var t := HitsTier(st, q, skip, hits, s);
    TierDone(heap, cap, accept, st.rankKey, s, t) || (pend.Some? && pend.value.0 == s && t == Some(pend.value.1))
  }

  ghost predicate SlotsInv(st: State, q: seq<byte>, skip: bool, hits: seq<nat>, pend: Option<(nat, Tier)>,
                           heap: seq<Scored>, cap: nat, accept: nat -> bool) {
    forall s :: LiveSlot(st, s) ==> SlotInv(st, q, skip, hits, pend, heap, cap, accept, s)
  }

  /** The pending tier is no better than its slot's hits, and its record starts before the cursor. */
  predicate PendOk(st: State, q: seq<byte>, skip: bool, hits: seq<nat>, cursor: nat, pend: Option<(nat, Tier)>) {
    pend.Some? ==>
      && LiveSlot(st, pend.value.0) && pend.value.0 in st.recOf && Lo(st, pend.value.0) <= cursor
      && NoBetter(Some(pend.value.1), HitsTier(st, q, skip, hits, pend.value.0))
  }

  /** Only slots whose record lies before the pending one's have been offered. */
  predicate OffersOk(st: State, pend: Option<(nat, Tier)>, o0: seq<nat>, o1: seq<nat>) {
    && OffersWithin(o0, o1, 1)
    && forall s :: 0 <= s < |o0| ==>
         o1[s] == o0[s] || (pend.Some? && s in st.recOf && pend.value.0 in st.recOf && st.recOf[s] < st.recOf[pend.value.0])
  }

  ghost predicate ScanInv(st: State, q: seq<byte>, skip: bool, hits: seq<nat>, cursor: nat, pend: Option<(nat, Tier)>,
                          heap: seq<Scored>, cap: nat, accept: nat -> bool, o0: seq<nat>, o1: seq<nat>) {
    && SlotsInv(st, q, skip, hits, pend, heap, cap, accept)
    && PendOk(st, q, skip, hits, cursor, pend)
    && OffersOk(st, pend, o0, o1)
  }

  lemma HitElsewhere(st: State, q: seq<byte>, skip: bool, hits: seq<nat>, h: nat, s: nat)
    requires LiveSlot(st, s) && !(Lo(st, s) <= h < Hi(st, s))
    ensures HitsTier(st, q, skip, hits + [h], s) == HitsTier(st, q, skip, hits, s)
  {
    hide BestHit, HitTier;
    BestHitSnoc(None, st.foldedArena, |q|, skip, hits, h, Lo(st, s), Hi(st, s));
  }

  lemma HitHere(st: State, q: seq<byte>, skip: bool, hits: seq<nat>, h: nat, s: nat)
    requires LiveSlot(st, s) && Lo(st, s) <= h < Hi(st, s)
    ensures var tier := HitTier(st.foldedArena, |q|, h);
            HitsTier(st, q, skip, hits + [h], s) ==
              if skip && (tier.Exact? || tier.Prefix?) then HitsTier(st, q, skip, hits, s)
              else BestTier(HitsTier(st, q, skip, hits, s), tier)
  {
    hide BestHit, HitTier;
    BestHitSnoc(None, st.foldedArena, |q|, skip, hits, h, Lo(st, s), Hi(st, s));
  }

  /** A hit that needs no offer: skipped at a record's start, rejected by its bound, or in no live record. */
  lemma PassOver(st: State, q: seq<byte>, skip: bool, hits: seq<nat>, cursor: nat, pend: Option<(nat, Tier)>,
                 heap: seq<Scored>, cap: nat, accept: nat -> bool, o0: seq<nat>, o1: seq<nat>, h: nat)
    requires ScanInv(st, q, skip, hits, cursor, pend, heap, cap, accept, o0, o1) && cursor <= h
    requires forall s :: LiveSlot(st, s) && Lo(st, s) <= h < Hi(st, s) ==>
               var tier := HitTier(st.foldedArena, |q|, h);
               (skip && (tier.Exact? || tier.Prefix?)) || TierDone(heap, cap, accept, st.rankKey, s, Some(tier))
    ensures ScanInv(st, q, skip, hits + [h], h + |q|, pend, heap, cap, accept, o0, o1)
  {
    hide HitsTier, HitTier, TierDone, OffersOk;
    forall s | LiveSlot(st, s)
      ensures SlotInv(st, q, skip, hits + [h], pend, heap, cap, accept, s)
      ensures NoBetter(HitsTier(st, q, skip, hits, s), HitsTier(st, q, skip, hits + [h], s))
    {
      assert SlotInv(st, q, skip, hits, pend, heap, cap, accept, s);
      if Lo(st, s) <= h < Hi(st, s) {
        HitHere(st, q, skip, hits, h, s);
      } else {
        HitElsewhere(st, q, skip, hits, h, s);
      }
    }
  }

  /** The pending pair after a hit at `tier` in `slot`. */
  function Pending(pend: Option<(nat, Tier)>, slot: nat, tier: Tier): Option<(nat, Tier)> {
    if pend.Some? && pend.value.0 == slot && TierBase(tier) <= TierBase(pend.value.1) then pend else Some((slot, tier))
  }

  /** A hit in a live record: whatever was pending for another slot has been offered. */
  lemma TakeHit(uni: Unicode, st: State, q: seq<byte>, skip: bool, hits: seq<nat>, cursor: nat,
                pend: Option<(nat, Tier)>,
                heap: seq<Scored>, cap: nat, accept: nat -> bool, o0: seq<nat>, o1: seq<nat>, h: nat, slot: nat,
                heap': seq<Scored>, o2: seq<nat>)
    requires AtRest(uni, st) && ScanInv(st, q, skip, hits, cursor, pend, heap, cap, accept, o0, o1) && cursor <= h
    requires LiveSlot(st, slot) && Lo(st, slot) <= h < Hi(st, slot)
    requires forall s :: LiveSlot(st, s) && Lo(st, s) <= h < Hi(st, s) ==> s == slot
    requires var tier := HitTier(st.foldedArena, |q|, h); !(skip && (tier.Exact? || tier.Prefix?))
    requires forall s: nat, t :: TierDone(heap, cap, accept, st.rankKey, s, t) ==>
               TierDone(heap', cap, accept, st.rankKey, s, t)
    requires OffersWithin(o0, o2, 1) && |o1| == |o2|
    requires forall s :: 0 <= s < |o2| && (pend.None? || pend.value.0 == slot || pend.value.0 != s) ==> o2[s] == o1[s]
    requires pend.Some? && pend.value.0 != slot ==>
               TierDone(heap', cap, accept, st.rankKey, pend.value.0, Some(pend.value.1))
    ensures ScanInv(st, q, skip, hits + [h], h + |q|, Pending(pend, slot, HitTier(st.foldedArena, |q|, h)), heap', cap,
                    accept, o0, o2)
  {
    hide AtRest, HitsTier, HitTier, TierDone, OffersOk;
    var tier := HitTier(st.foldedArena, |q|, h);
    var pend' := Pending(pend, slot, tier);
    RecordOf(uni, st, slot);
    HitHere(st, q, skip, hits, h, slot);
    TakeOffers(uni, st, cursor, pend, slot, tier, o0, o1, o2, h, q, skip, hits);
    forall s | LiveSlot(st, s) ensures SlotInv(st, q, skip, hits + [h], pend', heap', cap, accept, s) {
      assert SlotInv(st, q, skip, hits, pend, heap, cap, accept, s);
      if s != slot {
        HitElsewhere(st, q, skip, hits, h, s);
      }
    }
  }

  /** Hits come in record order, so a new slot's record lies past the pending one's. */
  lemma TakeOffers(uni: Unicode, st: State, cursor: nat, pend: Option<(nat, Tier)>, slot: nat, tier: Tier,
                   o0: seq<nat>, o1: seq<nat>, o2: seq<nat>, h: nat, q: seq<byte>, skip: bool, hits: seq<nat>)
    requires AtRest(uni, st) && OffersOk(st, pend, o0, o1) && PendOk(st, q, skip, hits, cursor, pend) && cursor <= h
    requires LiveSlot(st, slot) && Lo(st, slot) <= h < Hi(st, slot)
    requires OffersWithin(o0, o2, 1) && |o1| == |o2|
    requires forall s :: 0 <= s < |o2| && (pend.None? || pend.value.0 == slot || pend.value.0 != s) ==> o2[s] == o1[s]
    ensures OffersOk(st, Pending(pend, slot, tier), o0, o2)
  {
    hide AtRest, HitsTier;
    RecordOf(uni, st, slot);
    if pend.Some? && pend.value.0 != slot {
      var p := pend.value.0;
      RecordOf(uni, st, p);
      ArenaShape(uni, st);
      if st.recOf[slot] < st.recOf[p] {
        Apart(st.foldedArena, |st.foldedArena|, st.arenaRecs, st.recOf[slot], st.recOf[p]);
      }
      assert st.recOf[p] < st.recOf[slot];
    }
  }

  lemma RecordUnderRow(uni: Unicode, row: Row, q: seq<byte>)
    requires q != [] && row.Live?
    ensures NoBetter(RecordTier(row.folded, q, false), RowTier(uni, row, q))
  {
    hide RecordTier, InLane;
  }

  /** The pending tier may be offered. */
  lemma PendFits(uni: Unicode, st: State, fq: string, skip: bool, hits: seq<nat>, rest: seq<nat>, cursor: nat,
                 pend: Option<(nat, Tier)>)
    requires AtRest(uni, st) && Searchable(fq) && |st.rankKey| == |st.rows|
    requires PendOk(st, Encode(fq), skip, hits, cursor, pend) && pend.Some?
    requires Scan(st.foldedArena, Encode(fq), 0) == hits + rest
    ensures var refs := RefsFor(uni, st.rows, st.rankKey, fq);
            var o := Score(st.rankKey[pend.value.0], pend.value.0, pend.value.1, TierBase(pend.value.1));
            Fits(refs, o)
  {
    var s, q := pend.value.0, Encode(fq);
    hide AtRest, Score, Fits, HitTier, Encode, BestHit, Scan, RecordTier, RowTier, RefFor, Fenced;
    RecordOf(uni, st, s);
    BestHitMono(None, None, st.foldedArena, |q|, skip, hits, rest, Lo(st, s), Hi(st, s));
    RecordScan(st.foldedArena, q, false, Lo(st, s), Hi(st, s));
    RecordUnderRow(uni, st.rows[s], q);
    TierFits(uni, st.rows, st.rankKey, fq, s, pend.value.1);
  }
}
