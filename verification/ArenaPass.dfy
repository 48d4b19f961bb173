/** The arena pass itself: window by window, hit by hit, into the selector. */
module ArenaPass {
  import opened Bytes
  import opened Utf8
  import opened Names
  import opened Polling
  import opened Ranking
  import opened Scanning
  import opened Table
  import opened Records
  import opened Columns
  import opened Ordering
  import opened Selecting
  import opened IndexState
  import opened Repair
  import opened Reference
  import opened HeadScan
  import opened ArenaScan

  /** The index, the query and the exhaustive offers a selector is run against. */
  ghost predicate Setup(uni: Unicode, st: State, fq: string, sel: Selector)
    reads sel
  {
    && sel.Valid() && AtRest(uni, st) && Searchable(fq) && |st.rankKey| == |st.rows|
    && sel.refs == RefsFor(uni, st.rows, st.rankKey, fq)
  }

  /** What `SlotAt` needs of an index at rest. */
  lemma MappingShape(uni: Unicode, st: State)
    requires AtRest(uni, st)
    ensures RecsOk(st.foldedArena, |st.foldedArena|, st.arenaRecs)
    ensures LiveRecs(st.rows, st.entries, st.foldedArena, |st.foldedArena|, st.arenaRecs, st.recOf)
    ensures EntriesOk(st.entries, st.rows, st.nameArena, |st.nameArena|)
    ensures OwnerOk(st.owner, st.arenaRecs, |st.foldedArena|)
  {
    hide RowsOk, MapOk, FreeOk, NamesAscend, ColumnsOk, MarksOk, LiveBytes, Fences, LiveRecs, RecsOk, EntriesOk;
    hide OwnerOk;
  }

  /** Offer the pending record, if any. */
  method OfferPend(uni: Unicode, rankKey: seq<byte>, pend: Option<(nat, Tier)>, sel: Selector, ghost st: State,
                   ghost fq: string, ghost skip: bool,
                   ghost hits: seq<nat>, ghost rest: seq<nat>, ghost cursor: nat, ghost o0: seq<nat>)
    requires Setup(uni, st, fq, sel) && rankKey == st.rankKey
    requires PendOk(st, Encode(fq), skip, hits, cursor, pend) && OffersOk(st, pend, o0, sel.offers) && |o0| == |st.rows|
    requires Scan(st.foldedArena, Encode(fq), 0) == hits + rest
    modifies sel
    ensures Setup(uni, st, fq, sel) && Advances(old(sel.heap), sel.heap, sel.cap) && OffersWithin(o0, sel.offers, 1)
    ensures forall s :: 0 <= s < |o0| && (pend.None? || pend.value.0 != s) ==> sel.offers[s] == old(sel.offers)[s]
    ensures pend.Some? ==> TierDone(sel.heap, sel.cap, sel.accept, rankKey, pend.value.0, Some(pend.value.1))
  {
    hide AtRest, Searchable, Encode, TierDone, Advances, CoveredBy, Score, Better, BestFirst, HeapCounted, SeenOk;
    hide FloorOf, FuzzyHeld, Fits, RefFor, HitsTier, Scan;
    if pend.None? {
      AdvancesRefl(sel.heap, sel.cap);
      return;
    }
    PendFits(uni, st, fq, skip, hits, rest, cursor, pend);
    sel.Offer(rankKey, pend.value.0, pend.value.1, TierBase(pend.value.1));
    OfferedTier(sel.heap, sel.cap, sel.accept, rankKey, pend.value.0, pend.value.1);
  }

  /** A hit's tier from the two bytes fencing it. */
  method ClassifyHit(arena: seq<byte>, n: nat, h: nat) returns (tier: Tier)
    requires 1 <= h && h + n < |arena|
    ensures tier == HitTier(arena, n, h)
  {
    tier := Classify(arena[h - 1], arena[h + n]);
  }

  /** Classify a hit and decide whether it needs no offer: answered by the head pass, or rejected by its bound. */
  method Dismiss(uni: Unicode, arena: seq<byte>, q: seq<byte>, short: bool, h: nat, sel: Selector,
                 ghost pend0: Option<(nat, Tier)>, ghost st: State, ghost fq: string, ghost hits: seq<nat>,
                 ghost cursor: nat, ghost o0: seq<nat>)
    returns (tier: Tier, dismissed: bool)
    requires Setup(uni, st, fq, sel) && arena == st.foldedArena && q == Encode(fq) && Occurs(arena, q, h) && cursor <= h
    requires ScanInv(st, q, short, hits, cursor, pend0, sel.heap, sel.cap, sel.accept, o0, sel.offers)
    ensures tier == HitTier(arena, |q|, h) && (!dismissed ==> !(short && (tier.Exact? || tier.Prefix?)))
    ensures dismissed ==>
              ScanInv(st, q, short, hits + [h], h + |q|, pend0, sel.heap, sel.cap, sel.accept, o0, sel.offers)
  {
    SetupFacts(uni, st, fq, sel);
    hide AtRest, Searchable, Encode, Occurs, ScanInv, Setup, HitTier, Classify, TierUpperBound, BestFirst, HeapCounted;
    hide SeenOk, FloorOf, FuzzyHeld, Fits, RefsOk, NoControl;
    HitBounds(uni, st, q, h);
    tier := ClassifyHit(arena, |q|, h);
    if short && (tier.Exact? || tier.Prefix?) {
      PassStart(st, q, short, hits, cursor, pend0, sel.heap, sel.cap, sel.accept, o0, sel.offers, h);
      return tier, true;
    }
    FloorReady(uni, st, fq, sel);
    dismissed := sel.Rejects(TierUpperBound(tier));
    if dismissed {
      PassRejected(uni, st, fq, q, short, hits, cursor, pend0, sel, o0, h);
    }
  }

  /** One hit: dismissed on its fence bytes alone, or mapped to its slot and grouped with its record's other hits. */
  method OnHit(uni: Unicode, rankKey: seq<byte>, arena: seq<byte>, owner: seq<nat>, recs: seq<ArenaRec>,
               entries: seq<Entry>,
               q: seq<byte>, short: bool, h: nat, pend0: Option<(nat, Tier)>, sel: Selector,
               ghost st: State, ghost fq: string, ghost hits: seq<nat>, ghost rest: seq<nat>, ghost cursor: nat,
               ghost o0: seq<nat>)
    returns (pend: Option<(nat, Tier)>)
    requires Setup(uni, st, fq, sel) && rankKey == st.rankKey && arena == st.foldedArena && owner == st.owner
    requires recs == st.arenaRecs && entries == st.entries
    requires q == Encode(fq) && Occurs(arena, q, h) && cursor <= h && |o0| == |st.rows|
    requires ScanInv(st, q, short, hits, cursor, pend0, sel.heap, sel.cap, sel.accept, o0, sel.offers)
    requires Scan(arena, q, 0) == hits + rest
    modifies sel
    ensures Setup(uni, st, fq, sel) && Advances(old(sel.heap), sel.heap, sel.cap)
    ensures ScanInv(st, q, short, hits + [h], h + |q|, pend, sel.heap, sel.cap, sel.accept, o0, sel.offers)
  {
    hide AtRest, Searchable, Encode, Advances, Scan, Occurs, ScanInv, Setup, HitTier;
    CapPositive(uni, st, fq, sel);
    AdvancesRefl(sel.heap, sel.cap);
    var tier, dismissed := Dismiss(uni, arena, q, short, h, sel, pend0, st, fq, hits, cursor, o0);
    if dismissed {
      pend := pend0;
    } else {
      pend := Group(uni, rankKey, arena, owner, recs, entries, q, short, h, tier, pend0, sel, st, fq, hits, rest,
                    cursor, o0);
    }
  }

  /** Map an unrejected hit to its slot and group it with the run of hits before it. */
  method Group(uni: Unicode, rankKey: seq<byte>, arena: seq<byte>, owner: seq<nat>, recs: seq<ArenaRec>,
               entries: seq<Entry>,
               q: seq<byte>, short: bool, h: nat, tier: Tier, pend0: Option<(nat, Tier)>, sel: Selector,
               ghost st: State, ghost fq: string, ghost hits: seq<nat>, ghost rest: seq<nat>, ghost cursor: nat,
               ghost o0: seq<nat>)
    returns (pend: Option<(nat, Tier)>)
    requires Setup(uni, st, fq, sel) && rankKey == st.rankKey && arena == st.foldedArena && owner == st.owner
    requires recs == st.arenaRecs && entries == st.entries
    requires q == Encode(fq) && Occurs(arena, q, h) && cursor <= h && |o0| == |st.rows|
    requires tier == HitTier(arena, |q|, h) && !(short && (tier.Exact? || tier.Prefix?))
    requires ScanInv(st, q, short, hits, cursor, pend0, sel.heap, sel.cap, sel.accept, o0, sel.offers)
    requires Scan(arena, q, 0) == hits + rest
    modifies sel
    ensures Setup(uni, st, fq, sel) && Advances(old(sel.heap), sel.heap, sel.cap)
    ensures ScanInv(st, q, short, hits + [h], h + |q|, pend, sel.heap, sel.cap, sel.accept, o0, sel.offers)
  {
    SetupFacts(uni, st, fq, sel);
    hide AtRest, Searchable, Encode, TierDone, Advances, CoveredBy, RefFor, HitsTier, Scan, Occurs, Setup, ScanInv;
    hide HitTier;
    hide PendOk, OffersOk, LiveRecs, RecsOk, EntriesOk, OwnerOk, InRec, Lo, Hi, LiveSlot;
    AdvancesRefl(sel.heap, sel.cap);
    ghost var i := HitOwner(uni, st, q, h);
    MappingShape(uni, st);
    var slot := SlotAt(owner, recs, entries, h, st.rows, st.nameArena, |st.nameArena|, arena, |arena|, st.recOf);
    if slot.None? {
      PassOver(st, q, short, hits, cursor, pend0, sel.heap, sel.cap, sel.accept, o0, sel.offers, h);
      return pend0;
    }
    ghost var heap, offers := sel.heap, sel.offers;
    ScanParts(st, q, short, hits, cursor, pend0, heap, sel.cap, sel.accept, o0, offers);
    OffersBound(st, pend0, o0, offers);
    if pend0.Some? && pend0.value.0 == slot.value {
      pend := if TierBase(tier) > TierBase(pend0.value.1) then Some((slot.value, tier)) else pend0;
    } else {
      OfferPend(uni, rankKey, pend0, sel, st, fq, short, hits, rest, cursor, o0);
      DoneAdvances(heap, sel.heap, sel.cap, sel.accept, rankKey);
      pend := Some((slot.value, tier));
    }
    TakeHit(uni, st, q, short, hits, cursor, pend0, heap, sel.cap, sel.accept, o0, offers, h, slot.value, sel.heap,
            sel.offers);
    assert pend == Pending(pend0, slot.value, tier);
  }

  lemma HitBounds(uni: Unicode, st: State, q: seq<byte>, h: nat)
    requires AtRest(uni, st) && q != [] && NoControl(q) && Occurs(st.foldedArena, q, h)
    ensures 1 <= h && h + |q| < |st.foldedArena|
  {
    hide AtRest, InRec, LiveSlot, RecLive, Occurs;
    var i := HitOwner(uni, st, q, h);
  }

  /** A start hit the head pass has answered. */
  lemma PassStart(st: State, q: seq<byte>, skip: bool, hits: seq<nat>, cursor: nat, pend: Option<(nat, Tier)>,
                  heap: seq<Scored>, cap: nat, accept: nat -> bool, o0: seq<nat>, o1: seq<nat>, h: nat)
    requires ScanInv(st, q, skip, hits, cursor, pend, heap, cap, accept, o0, o1) && cursor <= h
    requires skip && (HitTier(st.foldedArena, |q|, h).Exact? || HitTier(st.foldedArena, |q|, h).Prefix?)
    ensures ScanInv(st, q, skip, hits + [h], h + |q|, pend, heap, cap, accept, o0, o1)
  {
    hide ScanInv, HitTier, TierDone;
    PassOver(st, q, skip, hits, cursor, pend, heap, cap, accept, o0, o1, h);
  }

  /** A hit whose tier cannot reach the page. */
  lemma PassRejected(uni: Unicode, st: State, fq: string, q: seq<byte>, skip: bool, hits: seq<nat>, cursor: nat,
                     pend: Option<(nat, Tier)>,
                     sel: Selector, o0: seq<nat>, h: nat)
    requires Setup(uni, st, fq, sel) && (sel.Full() ==> sel.floor.Some?)
    requires sel.Rejects(TierUpperBound(HitTier(st.foldedArena, |q|, h))) && cursor <= h
    requires ScanInv(st, q, skip, hits, cursor, pend, sel.heap, sel.cap, sel.accept, o0, sel.offers)
    ensures ScanInv(st, q, skip, hits + [h], h + |q|, pend, sel.heap, sel.cap, sel.accept, o0, sel.offers)
  {
    hide ScanInv, HitTier, TierDone, AtRest;
    TierRejected(sel, st.rankKey, HitTier(st.foldedArena, |q|, h));
    PassOver(st, q, skip, hits, cursor, pend, sel.heap, sel.cap, sel.accept, o0, sel.offers, h);
  }

  lemma FloorReady(uni: Unicode, st: State, fq: string, sel: Selector)
    requires Setup(uni, st, fq, sel)
    ensures sel.Full() ==> sel.floor.Some?
  {
    hide AtRest;
  }

  lemma OffersBound(st: State, pend: Option<(nat, Tier)>, o0: seq<nat>, o1: seq<nat>)
    requires OffersOk(st, pend, o0, o1)
    ensures OffersWithin(o0, o1, 1)
  {
  }

  lemma TierRejected(sel: Selector, key: seq<byte>, t: Tier)
    requires sel.Valid() && sel.Rejects(TierUpperBound(t))
    ensures forall s: nat :: TierDone(sel.heap, sel.cap, sel.accept, key, s, Some(t))
  {
    hide TierDone;
    forall s: nat ensures TierDone(sel.heap, sel.cap, sel.accept, key, s, Some(t)) {
      RejectedTier(sel, key, s, t);
    }
  }

  /** Every hit of one window, in order. */
  method ScanWindow(uni: Unicode, rankKey: seq<byte>, arena: seq<byte>, owner: seq<nat>, recs: seq<ArenaRec>,
                    entries: seq<Entry>,
                    q: seq<byte>, short: bool, pos: nat, winEnd: nat, pend0: Option<(nat, Tier)>, poll: nat -> bool,
                    sel: Selector,
                    ghost st: State, ghost fq: string, ghost hits0: seq<nat>, ghost o0: seq<nat>)
    returns (cursor: nat, pend: Option<(nat, Tier)>, cancelled: bool, ghost hits: seq<nat>)
    requires Setup(uni, st, fq, sel) && rankKey == st.rankKey && arena == st.foldedArena && owner == st.owner
    requires recs == st.arenaRecs && entries == st.entries
    requires q == Encode(fq) && q != [] && |o0| == |st.rows| && pos <= winEnd <= |arena|
    requires ScanInv(st, q, short, hits0, pos, pend0, sel.heap, sel.cap, sel.accept, o0, sel.offers)
    requires Scan(arena, q, 0) == hits0 + Scan(arena, q, pos)
    modifies sel
    ensures Setup(uni, st, fq, sel) && Advances(old(sel.heap), sel.heap, sel.cap) && pos <= cursor <= winEnd
    ensures ScanInv(st, q, short, hits, cursor, pend, sel.heap, sel.cap, sel.accept, o0, sel.offers)
    ensures Scan(arena, q, 0) == hits + Scan(arena, q, cursor)
    ensures if cancelled then Raised(poll) else FindFrom(arena[..winEnd], q, cursor).None?
  {
    hide AtRest, Searchable, Encode, TierDone, Advances, CoveredBy, RefFor, HitsTier, FindFrom, Scan, Setup, ScanInv;
    hide Occurs, Raised;
    ghost var heap0 := sel.heap;
    CapPositive(uni, st, fq, sel);
    AdvancesRefl(sel.heap, sel.cap);
    cursor, pend, cancelled, hits := pos, pend0, false, hits0;
    while FindFrom(arena[..winEnd], q, cursor).Some?
      invariant Setup(uni, st, fq, sel) && Advances(heap0, sel.heap, sel.cap) && pos <= cursor <= winEnd
      invariant ScanInv(st, q, short, hits, cursor, pend, sel.heap, sel.cap, sel.accept, o0, sel.offers)
      invariant Scan(arena, q, 0) == hits + Scan(arena, q, cursor) && !cancelled
      decreases |arena| - cursor
    {
      var hit := FindFrom(arena[..winEnd], q, cursor).value;
      WindowHit(arena, q, cursor, winEnd, hit);
      var stop := Poll(poll);
      if stop {
        cancelled := true;
        break;
      }
      ghost var before := sel.heap;
      pend := OnHit(uni, rankKey, arena, owner, recs, entries, q, short, hit, pend, sel, st, fq, hits,
                    Scan(arena, q, cursor), cursor, o0);
      AdvancesTrans(heap0, before, sel.heap, sel.cap);
      hits := hits + [hit];
      cursor := hit + |q|;
    }
  }

  lemma CapPositive(uni: Unicode, st: State, fq: string, sel: Selector)
    requires Setup(uni, st, fq, sel)
    ensures 0 < sel.cap
  {
  }

  /** A hit in the window is the arena's own next hit. */
  lemma WindowHit(arena: seq<byte>, q: seq<byte>, cursor: nat, winEnd: nat, hit: nat)
    requires q != [] && winEnd <= |arena| && FindFrom(arena[..winEnd], q, cursor) == Some(hit)
    ensures cursor <= hit && hit + |q| <= winEnd && Occurs(arena, q, hit)
    ensures Scan(arena, q, cursor) == [hit] + Scan(arena, q, hit + |q|)
  {
    hide FindFrom, Occurs;
    FindInWindow(arena, q, cursor, winEnd);
    FindSpec(arena, q, cursor);
    ScanHit(arena, q, cursor, hit);
  }

  lemma ScanHit(arena: seq<byte>, q: seq<byte>, cursor: nat, hit: nat)
    requires q != [] && FindFrom(arena, q, cursor) == Some(hit)
    ensures Scan(arena, q, cursor) == [hit] + Scan(arena, q, hit + |q|)
  {
    hide FindFrom;
  }

  /** Past a window with no more hits, the scan resumes where no occurrence could have been missed. */
  lemma WindowResume(arena: seq<byte>, q: seq<byte>, cursor: nat, winEnd: nat, pos: nat)
    requires q != [] && cursor <= winEnd <= |arena| && FindFrom(arena[..winEnd], q, cursor).None?
    requires cursor <= pos
    requires (winEnd < |arena| ==> pos <= (if cursor + |q| >= winEnd + 1 then cursor else winEnd - (|q| - 1)))
    ensures Scan(arena, q, cursor) == Scan(arena, q, pos)
  {
    hide FindFrom, Occurs;
    FindInWindow(arena, q, cursor, winEnd);
    FindSpec(arena, q, cursor);
    forall k | cursor <= k < pos ensures !Occurs(arena, q, k) {
      if winEnd == |arena| && k + |q| > |arena| {
        TooLong(arena, q, k);
      }
    }
    ScanSkips(arena, q, cursor, pos);
  }

  lemma TooLong(arena: seq<byte>, q: seq<byte>, k: nat)
    requires k + |q| > |arena|
    ensures !Occurs(arena, q, k)
  {
  }

  lemma ScanOver(arena: seq<byte>, q: seq<byte>, pos: nat)
    requires q != [] && pos + |q| > |arena|
    ensures Scan(arena, q, pos) == []
  {
  }

  lemma ScanStart(st: State, q: seq<byte>, skip: bool, heap: seq<Scored>, cap: nat, accept: nat -> bool, o0: seq<nat>)
    ensures ScanInv(st, q, skip, [], 0, None, heap, cap, accept, o0, o0)
  {
    forall s | LiveSlot(st, s) ensures SlotInv(st, q, skip, [], None, heap, cap, accept, s) {
      assert HitsTier(st, q, skip, [], s) == None;
    }
  }

  /** Once the scan is over, every record's own tier is done. */
  lemma ScanDone(uni: Unicode, st: State, q: seq<byte>, skip: bool, hits: seq<nat>, cursor: nat,
                 pend: Option<(nat, Tier)>,
                 heap: seq<Scored>, heap': seq<Scored>, cap: nat, accept: nat -> bool, o0: seq<nat>, o1: seq<nat>)
    requires AtRest(uni, st) && q != [] && NoControl(q) && Scan(st.foldedArena, q, 0) == hits
    requires ScanInv(st, q, skip, hits, cursor, pend, heap, cap, accept, o0, o1)
    requires forall s: nat, t :: TierDone(heap, cap, accept, st.rankKey, s, t) ==>
               TierDone(heap', cap, accept, st.rankKey, s, t)
    requires pend.Some? ==> TierDone(heap', cap, accept, st.rankKey, pend.value.0, Some(pend.value.1))
    ensures forall s :: 0 <= s < |st.rows| && st.rows[s].Live? ==>
              TierDone(heap', cap, accept, st.rankKey, s, RecordTier(st.rows[s].folded, q, skip))
  {
    hide AtRest, TierDone, RecordTier, BestHit, Scan, Fenced;
    forall s | 0 <= s < |st.rows| && st.rows[s].Live?
      ensures TierDone(heap', cap, accept, st.rankKey, s, RecordTier(st.rows[s].folded, q, skip))
    {
      SlotShape(uni, st, s);
      RecordOf(uni, st, s);
      RecordScan(st.foldedArena, q, skip, Lo(st, s), Hi(st, s));
      assert SlotInv(st, q, skip, hits, pend, heap, cap, accept, s);
    }
  }

  /** The whole arena, a poll chunk and a needle's overlap at a time; the cursor moves at least a chunk and a
      byte per window. */
  method ScanArena(uni: Unicode, rankKey: seq<byte>, arena: seq<byte>, owner: seq<nat>, recs: seq<ArenaRec>,
                   entries: seq<Entry>,
                   q: seq<byte>, short: bool, poll: nat -> bool, sel: Selector, ghost st: State, ghost fq: string)
    returns (cancelled: bool)
    requires Setup(uni, st, fq, sel) && rankKey == st.rankKey && arena == st.foldedArena && owner == st.owner
    requires recs == st.arenaRecs && entries == st.entries
    requires q == Encode(fq)
    modifies sel
    ensures Setup(uni, st, fq, sel) && Advances(old(sel.heap), sel.heap, sel.cap)
    ensures OffersWithin(old(sel.offers), sel.offers, 1)
    ensures cancelled ==> Raised(poll)
    ensures !cancelled ==> forall s :: 0 <= s < |st.rows| && st.rows[s].Live? ==>
              TierDone(sel.heap, sel.cap, sel.accept, rankKey, s, RecordTier(st.rows[s].folded, q, short))
  {
    SetupFacts(uni, st, fq, sel);
    hide AtRest, Searchable, Encode, TierDone, Advances, CoveredBy, RefFor, HitsTier, FindFrom, Scan, Setup, ScanInv;
    hide Occurs, RecordTier, OffersOk, Raised;
    ghost var heap0, o0 := sel.heap, sel.offers;
    AdvancesRefl(sel.heap, sel.cap);
    ScanStart(st, q, short, sel.heap, sel.cap, sel.accept, o0);
    var pend: Option<(nat, Tier)> := None;
    var pos := 0;
    ghost var hits: seq<nat> := [];
    cancelled := false;
    while pos + |q| <= |arena| && !cancelled
      invariant Setup(uni, st, fq, sel) && Advances(heap0, sel.heap, sel.cap) && pos <= |arena|
      invariant ScanInv(st, q, short, hits, pos, pend, sel.heap, sel.cap, sel.accept, o0, sel.offers)
      invariant Scan(arena, q, 0) == hits + Scan(arena, q, pos) && (cancelled ==> Raised(poll))
      decreases !cancelled, |arena| - pos
    {
      var stop := Poll(poll);
      if stop {
        cancelled := true;
        break;
      }
      var winEnd := if pos + SCAN_POLL_CHUNK + |q| <= |arena| then pos + SCAN_POLL_CHUNK + |q| else |arena|;
      ghost var before := sel.heap;
      var cursor;
      cursor, pend, cancelled, hits := ScanWindow(uni, rankKey, arena, owner, recs, entries, q, short, pos, winEnd,
                                                  pend, poll, sel, st, fq, hits, o0);
      AdvancesTrans(heap0, before, sel.heap, sel.cap);
      if cancelled {
        pos := cursor;
        break;
      }
      // No hit starts before `winEnd - |q| + 1`, so resuming there skips nothing.
      pos := if winEnd == |arena| then |arena|
             else if winEnd >= |q| - 1 && winEnd - (|q| - 1) > cursor then winEnd - (|q| - 1) else cursor;
      WindowResume(arena, q, cursor, winEnd, pos);
      LaterCursor(st, q, short, hits, cursor, pos, pend, sel.heap, sel.cap, sel.accept, o0, sel.offers);
    }
    ghost var before, offers := sel.heap, sel.offers;
    ScanParts(st, q, short, hits, pos, pend, before, sel.cap, sel.accept, o0, offers);
    OfferPend(uni, rankKey, pend, sel, st, fq, short, hits, Scan(arena, q, pos), pos, o0);
    DoneAdvances(before, sel.heap, sel.cap, sel.accept, rankKey);
    AdvancesTrans(heap0, before, sel.heap, sel.cap);
    if !cancelled {
      ScanOver(arena, q, pos);
      ScanDone(uni, st, q, short, hits, pos, pend, before, sel.heap, sel.cap, sel.accept, o0, offers);
    }
  }

  lemma SetupFacts(uni: Unicode, st: State, fq: string, sel: Selector)
    requires Setup(uni, st, fq, sel)
    ensures 0 < sel.cap && |sel.offers| == |st.rows| && AtRest(uni, st) && Encode(fq) != [] && NoControl(Encode(fq))
    ensures |st.rankKey| == |st.rows|
  {
    hide AtRest;
  }

  lemma LaterCursor(st: State, q: seq<byte>, skip: bool, hits: seq<nat>, cursor: nat, pos: nat,
                    pend: Option<(nat, Tier)>,
                    heap: seq<Scored>, cap: nat, accept: nat -> bool, o0: seq<nat>, o1: seq<nat>)
    requires ScanInv(st, q, skip, hits, cursor, pend, heap, cap, accept, o0, o1) && cursor <= pos
    ensures ScanInv(st, q, skip, hits, pos, pend, heap, cap, accept, o0, o1)
  {
    hide SlotInv, OffersOk, HitsTier;
  }

  lemma ScanParts(st: State, q: seq<byte>, skip: bool, hits: seq<nat>, cursor: nat, pend: Option<(nat, Tier)>,
                  heap: seq<Scored>, cap: nat, accept: nat -> bool, o0: seq<nat>, o1: seq<nat>)
    requires ScanInv(st, q, skip, hits, cursor, pend, heap, cap, accept, o0, o1)
    ensures PendOk(st, q, skip, hits, cursor, pend) && OffersOk(st, pend, o0, o1)
  {
    hide SlotInv, OffersOk, HitsTier;
  }
}
