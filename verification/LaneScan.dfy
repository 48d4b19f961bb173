/** The initials pass: one scan of the fixed-stride lane column, offering each slot whose own lane holds the query. */
module LaneScan {
  import opened Bytes
  import opened Utf8
  import opened Names
  import opened Polling
  import opened Ranking
  import opened Scanning
  import opened Table
  import opened Columns
  import opened Ordering
  import opened Selecting
  import opened Reference
  import opened HeadScan

  /** An occurrence at `p` of the column lies inside slot `s`'s lane. */
  predicate Inside(p: nat, n: nat, s: nat) {
    8 * s <= p && p + n <= 8 * s + 8
  }

  /** Slot `s`'s lane holds the query at or after column offset `from`. */
  ghost predicate Ahead(col: seq<byte>, q: seq<byte>, s: nat, from: nat) {
    exists p: nat :: from <= p && Inside(p, |q|, s) && Occurs(col, q, p)
  }

  lemma LaneOccurs(col: seq<byte>, q: seq<byte>, s: nat, p: nat)
    requires 8 * s + 8 <= |col|
    ensures Occurs(LaneAt(col, s), q, p) <==> Occurs(col, q, 8 * s + p) && Inside(8 * s + p, |q|, s)
  {
    if p + |q| <= 8 {
      SliceOfSlice(col, 8 * s, 8 * s + 8, p, p + |q|);
    }
  }

  /** A lane's own occurrences are exactly the column's that do not straddle. */
  lemma InLaneIsAhead(uni: Unicode, rows: seq<Row>, col: seq<byte>, q: seq<byte>, s: nat)
    requires LanesOk(uni, rows, col) && s < |rows| && q != [] && NoControl(q) && |q| <= INITIALS_STRIDE
    ensures InLane(uni, rows[s], q) <==> Ahead(col, q, s, 0)
  {
    assert LaneAt(col, s) == LaneFor(uni, rows[s]);
    var lane := LaneFor(uni, rows[s]);
    hide LaneFor, LanesOk, Occurs;
    if InLane(uni, rows[s], q) {
      var p: nat :| Occurs(lane, q, p);
      LaneOccurs(col, q, s, p);
    }
    if Ahead(col, q, s, 0) {
      var p: nat :| Inside(p, |q|, s) && Occurs(col, q, p);
      LaneOccurs(col, q, s, p - 8 * s);
      EmptyLane(uni, rows[s], q, p - 8 * s);
    }
  }

  /** A tombstone's lane holds no query. */
  lemma EmptyLane(uni: Unicode, row: Row, q: seq<byte>, p: nat)
    requires q != [] && NoControl(q) && Occurs(LaneFor(uni, row), q, p)
    ensures row.Live?
  {
    FirstByte(LaneFor(uni, row), q, p);
    assert q[0] >= 0x20;
  }

  // ---- the scan's invariant --------------------------------------------------------------------

  /** Every lane that holds the query is still ahead of the cursor, pending, or done. */
  ghost predicate LanesCovered(col: seq<byte>, q: seq<byte>, n: nat, cursor: nat, pend: Option<nat>,
                               heap: seq<Scored>, cap: nat, accept: nat -> bool, key: seq<byte>, o0: seq<nat>,
                               o1: seq<nat>) {
    forall s: nat :: s < n && Ahead(col, q, s, 0) ==>
      Ahead(col, q, s, cursor) || pend == Some(s) || LaneDone(heap, cap, accept, key, s, o0, o1)
  }

  /** Slot `s` has had its one offer. */
  ghost predicate LaneDone(heap: seq<Scored>, cap: nat, accept: nat -> bool, key: seq<byte>, s: nat, o0: seq<nat>,
                           o1: seq<nat>) {
    TierDone(heap, cap, accept, key, s, Some(Initials)) && s < |o0| && s < |o1| && o1[s] == o0[s] + 1
  }

  /** The pending slot is at or before the cursor, and slots from it on are not offered yet. */
  ghost predicate LanePend(col: seq<byte>, q: seq<byte>, n: nat, cursor: nat, pend: Option<nat>, o0: seq<nat>,
                           o1: seq<nat>) {
    && OffersWithin(o0, o1, 1) && n == |o0|
    && (pend.Some? ==> pend.value < n && 8 * pend.value <= cursor && Ahead(col, q, pend.value, 0))
    && (forall s :: 0 <= s < n && (pend.Some? ==> pend.value <= s) ==> o1[s] == o0[s])
    && (forall s :: 0 <= s < n && o1[s] != o0[s] ==> Ahead(col, q, s, 0))
  }

  /** Resuming one byte past a straddling hit skips no lane's own occurrence. */
  lemma StraddleSkips(col: seq<byte>, q: seq<byte>, s: nat, cursor: nat, hit: nat)
    requires q != [] && FindFrom(col, q, cursor) == Some(hit) && hit % 8 + |q| > 8
    ensures Ahead(col, q, s, cursor) ==> Ahead(col, q, s, hit + 1)
  {
    FindSpec(col, q, cursor);
    hide FindFrom, Occurs;
    if Ahead(col, q, s, cursor) {
      var p: nat :| cursor <= p && Inside(p, |q|, s) && Occurs(col, q, p);
      assert p != hit;
    }
  }

  /** Resuming past a hit inside a lane skips at most that lane's. */
  lemma HitSkips(col: seq<byte>, q: seq<byte>, s: nat, cursor: nat, hit: nat)
    requires q != [] && FindFrom(col, q, cursor) == Some(hit) && hit % 8 + |q| <= 8
    ensures Inside(hit, |q|, hit / 8) && Ahead(col, q, hit / 8, 0)
    ensures Ahead(col, q, s, cursor) ==> Ahead(col, q, s, hit + |q|) || s == hit / 8
  {
    FindSpec(col, q, cursor);
    hide FindFrom, Occurs;
    assert Inside(hit, |q|, hit / 8);
    if Ahead(col, q, s, cursor) && s != hit / 8 {
      var p: nat :| cursor <= p && Inside(p, |q|, s) && Occurs(col, q, p);
      assert hit <= p;
      assert 8 * (hit / 8) + 8 <= 8 * s;
    }
  }

  lemma NoneAhead(col: seq<byte>, q: seq<byte>, s: nat, cursor: nat)
    requires q != [] && FindFrom(col, q, cursor).None?
    ensures !Ahead(col, q, s, cursor)
  {
    FindSpec(col, q, cursor);
  }

  /** What the caller may offer for a lane that holds the query. */
  lemma LaneFits(uni: Unicode, rows: seq<Row>, rankKey: seq<byte>, col: seq<byte>, fq: string, s: nat)
    requires LanesOk(uni, rows, col) && Searchable(fq) && |Encode(fq)| <= INITIALS_STRIDE && |rankKey| == |rows|
    requires s < |rows|
    requires Ahead(col, Encode(fq), s, 0)
    ensures var refs := RefsFor(uni, rows, rankKey, fq);
            var o := Score(rankKey[s], s, Initials, TierBase(Initials));
            Fits(refs, o)
  {
    hide Score, Fits, LanesOk;
    InLaneIsAhead(uni, rows, col, Encode(fq), s);
    TierFits(uni, rows, rankKey, fq, s, Initials);
  }

  // ---- the pass ----------------------------------------------------------------------------------

  /** Offer the pending slot, if any. */
  method OfferLane(uni: Unicode, rankKey: seq<byte>, pend: Option<nat>, sel: Selector,
                   ghost rows: seq<Row>, ghost col: seq<byte>, ghost fq: string, ghost o0: seq<nat>, ghost cursor: nat)
    requires sel.Valid() && LanesOk(uni, rows, col) && Searchable(fq) && |Encode(fq)| <= INITIALS_STRIDE
    requires |rankKey| == |rows|
    requires sel.refs == RefsFor(uni, rows, rankKey, fq)
    requires LanePend(col, Encode(fq), |rows|, cursor, pend, o0, sel.offers)
    modifies sel
    ensures sel.Valid() && Advances(old(sel.heap), sel.heap, sel.cap)
    ensures OffersWithin(o0, sel.offers, 1)
    ensures forall s :: 0 <= s < |rows| && (pend.Some? ==> pend.value < s) ==> sel.offers[s] == o0[s]
    ensures forall s :: 0 <= s < |rows| && pend != Some(s) ==> sel.offers[s] == old(sel.offers)[s]
    ensures pend.Some? ==> LaneDone(sel.heap, sel.cap, sel.accept, rankKey, pend.value, o0, sel.offers)
  {
    hide LanesOk, Searchable, Encode, TierDone, Advances, CoveredBy, Score, Better, BestFirst, HeapCounted, SeenOk;
    hide FloorOf, FuzzyHeld, Fits, RefFor, Ahead;
    if pend.None? {
      AdvancesRefl(sel.heap, sel.cap);
      return;
    }
    LaneFits(uni, rows, rankKey, col, fq, pend.value);
    sel.Offer(rankKey, pend.value, Initials, TierBase(Initials));
    OfferedTier(sel.heap, sel.cap, sel.accept, rankKey, pend.value, Initials);
  }

  method LanePass(uni: Unicode, rankKey: seq<byte>, lanes: seq<byte>, q: seq<byte>, poll: nat -> bool, sel: Selector,
                  ghost rows: seq<Row>, ghost fq: string)
    returns (cancelled: bool)
    requires sel.Valid() && LanesOk(uni, rows, lanes) && Searchable(fq) && q == Encode(fq) && |q| <= INITIALS_STRIDE
    requires |rankKey| == |rows|
    requires sel.refs == RefsFor(uni, rows, rankKey, fq)
    modifies sel
    ensures sel.Valid() && Advances(old(sel.heap), sel.heap, sel.cap) && OffersWithin(old(sel.offers), sel.offers, 1)
    ensures cancelled ==> Raised(poll)
    ensures !cancelled ==> forall s :: 0 <= s < |rows| && InLane(uni, rows[s], q) ==>
              TierDone(sel.heap, sel.cap, sel.accept, rankKey, s, Some(Initials))
    ensures !cancelled && |sel.heap| < sel.cap ==> forall s :: 0 <= s < |rows| ==>
              sel.offers[s] == old(sel.offers)[s] + if InLane(uni, rows[s], q) then 1 else 0
  {
    assert q != [] && NoControl(q);
    hide LanesOk, Searchable, Encode, TierDone, Advances, CoveredBy, Score, Better, BestFirst, HeapCounted, SeenOk;
    hide FloorOf, FuzzyHeld, Fits, RefFor, Ahead, FindFrom, LanePend, LanesCovered;
    ghost var heap0, o0 := sel.heap, sel.offers;
    AdvancesRefl(sel.heap, sel.cap);
    var pend: Option<nat> := None;
    var cursor := 0;
    cancelled := false;
    var out := false;
    ghost var heap := sel.heap;
    LanesStart(lanes, q, |rows|, heap, sel.cap, sel.accept, rankKey, o0);
    while FindFrom(lanes, q, cursor).Some? && !out
      invariant sel.Valid() && Advances(heap0, sel.heap, sel.cap)
      invariant LanePend(lanes, q, |rows|, cursor, pend, o0, sel.offers)
      invariant !cancelled && !out ==>
                  LanesCovered(lanes, q, |rows|, cursor, pend, sel.heap, sel.cap, sel.accept, rankKey, o0, sel.offers)
      invariant !cancelled && out ==> |sel.heap| == sel.cap && forall s: nat :: s < |rows| ==>
                  TierDone(sel.heap, sel.cap, sel.accept, rankKey, s, Some(Initials))
      invariant cursor <= |lanes| && (cancelled ==> Raised(poll))
      decreases !out, |lanes| - cursor
    {
      var hit := FindFrom(lanes, q, cursor).value;
      var stop := Poll(poll);
      if stop {
        cancelled, out := true, true;
        break;
      }
      FloorHeld(sel.heap, sel.cap);
      if sel.Rejects(TierUpperBound(Initials)) {
        AllRejected(sel, rankKey, |rows|);
        out := true;
        break;
      }
      if hit % INITIALS_STRIDE + |q| > INITIALS_STRIDE {
        StraddleStep(lanes, q, |rows|, cursor, pend, sel.heap, sel.cap, sel.accept, rankKey, o0, sel.offers, hit);
        cursor := hit + 1;
        continue;
      }
      var slot := hit / INITIALS_STRIDE;
      SlotOfHit(uni, rows, lanes, q, cursor, hit);
      if pend == Some(slot) {
        HitStep(lanes, q, |rows|, cursor, pend, sel.heap, sel.cap, sel.accept, rankKey, o0, sel.offers, hit, sel.heap,
                sel.offers);
      } else {
        ghost var before, offers := sel.heap, sel.offers;
        OfferLane(uni, rankKey, pend, sel, rows, lanes, fq, o0, cursor);
        DoneAdvances(before, sel.heap, sel.cap, sel.accept, rankKey);
        AdvancesTrans(heap0, before, sel.heap, sel.cap);
        HitStep(lanes, q, |rows|, cursor, pend, before, sel.cap, sel.accept, rankKey, o0, offers, hit, sel.heap,
                sel.offers);
        pend := Some(slot);
      }
      cursor := hit + |q|;
    }
    ghost var before, offers := sel.heap, sel.offers;
    OfferLane(uni, rankKey, pend, sel, rows, lanes, fq, o0, cursor);
    DoneAdvances(before, sel.heap, sel.cap, sel.accept, rankKey);
    FullStays(before, sel.heap, sel.cap);
    AdvancesTrans(heap0, before, sel.heap, sel.cap);
    if !cancelled {
      LanesEnd(uni, rows, lanes, q, cursor, pend, out, before, sel.heap, sel.cap, sel.accept, rankKey, o0, offers,
               sel.offers);
    }
  }

  lemma LanesStart(col: seq<byte>, q: seq<byte>, n: nat, heap: seq<Scored>, cap: nat, accept: nat -> bool,
                   key: seq<byte>, o0: seq<nat>)
    requires n == |o0|
    ensures LanesCovered(col, q, n, 0, None, heap, cap, accept, key, o0, o0) && LanePend(col, q, n, 0, None, o0, o0)
  {
  }

  lemma AllRejected(sel: Selector, key: seq<byte>, n: nat)
    requires sel.Valid() && sel.Rejects(TierUpperBound(Initials))
    ensures forall s: nat :: s < n ==> TierDone(sel.heap, sel.cap, sel.accept, key, s, Some(Initials))
    ensures |sel.heap| == sel.cap
  {
    hide TierDone;
    forall s: nat | s < n ensures TierDone(sel.heap, sel.cap, sel.accept, key, s, Some(Initials)) {
      RejectedTier(sel, key, s, Initials);
    }
  }

  lemma SlotOfHit(uni: Unicode, rows: seq<Row>, col: seq<byte>, q: seq<byte>, cursor: nat, hit: nat)
    requires LanesOk(uni, rows, col) && q != [] && FindFrom(col, q, cursor) == Some(hit)
    ensures hit / 8 < |rows|
  {
  }

  lemma StraddleStep(col: seq<byte>, q: seq<byte>, n: nat, cursor: nat, pend: Option<nat>, heap: seq<Scored>, cap: nat,
                     accept: nat -> bool, key: seq<byte>, o0: seq<nat>, o1: seq<nat>, hit: nat)
    requires q != [] && FindFrom(col, q, cursor) == Some(hit) && hit % 8 + |q| > 8
    requires LanesCovered(col, q, n, cursor, pend, heap, cap, accept, key, o0, o1)
    requires LanePend(col, q, n, cursor, pend, o0, o1)
    ensures LanesCovered(col, q, n, hit + 1, pend, heap, cap, accept, key, o0, o1)
    ensures LanePend(col, q, n, hit + 1, pend, o0, o1)
  {
    hide LaneDone, FindFrom, Ahead;
    forall s: nat | s < n && Ahead(col, q, s, 0)
      ensures Ahead(col, q, s, hit + 1) || pend == Some(s) || LaneDone(heap, cap, accept, key, s, o0, o1)
    {
      StraddleSkips(col, q, s, cursor, hit);
    }
  }

  /** A hit inside a lane: the slot before it is done, and it becomes the pending one. */
  lemma HitStep(col: seq<byte>, q: seq<byte>, n: nat, cursor: nat, pend: Option<nat>, heap: seq<Scored>, cap: nat,
                accept: nat -> bool, key: seq<byte>, o0: seq<nat>, o1: seq<nat>, hit: nat, heap': seq<Scored>,
                o2: seq<nat>)
    requires q != [] && FindFrom(col, q, cursor) == Some(hit) && hit % 8 + |q| <= 8 && hit / 8 < n
    requires LanesCovered(col, q, n, cursor, pend, heap, cap, accept, key, o0, o1)
    requires LanePend(col, q, n, cursor, pend, o0, o1)
    requires forall s: nat, t :: TierDone(heap, cap, accept, key, s, t) ==> TierDone(heap', cap, accept, key, s, t)
    requires OffersWithin(o0, o2, 1) && |o2| == |o1|
    requires forall s :: 0 <= s < n && (pend == Some(hit / 8) || pend != Some(s)) ==> o2[s] == o1[s]
    requires pend.Some? && pend.value != hit / 8 ==> LaneDone(heap', cap, accept, key, pend.value, o0, o2)
    ensures LanesCovered(col, q, n, hit + |q|, Some(hit / 8), heap', cap, accept, key, o0, o2)
    ensures LanePend(col, q, n, hit + |q|, Some(hit / 8), o0, o2)
  {
    hide TierDone, FindFrom, Ahead;
    var slot := hit / 8;
    HitSkips(col, q, slot, cursor, hit);
    if pend.Some? {
      assert 8 * pend.value <= cursor <= hit;
      assert pend.value <= slot;
    }
    forall s: nat | s < n && Ahead(col, q, s, 0)
      ensures Ahead(col, q, s, hit + |q|) || s == slot || LaneDone(heap', cap, accept, key, s, o0, o2)
    {
      HitSkips(col, q, s, cursor, hit);
    }
  }

  lemma FullStays(h0: seq<Scored>, h1: seq<Scored>, cap: nat)
    requires 0 < cap && Advances(h0, h1, cap)
    ensures |h0| == cap ==> |h1| == cap
  {
  }

  lemma LanesEnd(uni: Unicode, rows: seq<Row>, col: seq<byte>, q: seq<byte>, cursor: nat, pend: Option<nat>, out: bool,
                 heap: seq<Scored>, heap': seq<Scored>, cap: nat, accept: nat -> bool, key: seq<byte>, o0: seq<nat>,
                 o1: seq<nat>, o2: seq<nat>)
    requires LanesOk(uni, rows, col) && q != [] && NoControl(q) && |q| <= INITIALS_STRIDE && |o2| == |o0|
    requires out ==> |heap'| == cap && forall s: nat :: s < |rows| ==>
               TierDone(heap, cap, accept, key, s, Some(Initials))
    requires !out ==>
               FindFrom(col, q, cursor).None? && LanesCovered(col, q, |rows|, cursor, pend, heap, cap, accept, key, o0, o1)
    requires LanePend(col, q, |rows|, cursor, pend, o0, o1)
    requires forall s: nat, t :: TierDone(heap, cap, accept, key, s, t) ==> TierDone(heap', cap, accept, key, s, t)
    requires forall s :: 0 <= s < |rows| && pend != Some(s) ==> o2[s] == o1[s]
    requires pend.Some? ==> LaneDone(heap', cap, accept, key, pend.value, o0, o2)
    ensures forall s :: 0 <= s < |rows| && InLane(uni, rows[s], q) ==>
              TierDone(heap', cap, accept, key, s, Some(Initials))
    ensures |heap'| < cap ==> forall s :: 0 <= s < |rows| ==> o2[s] == o0[s] + if InLane(uni, rows[s], q) then 1 else 0
  {
    hide TierDone, LanesOk, Ahead, FindFrom, InLane;
    forall s | 0 <= s < |rows|
      ensures InLane(uni, rows[s], q) ==> TierDone(heap', cap, accept, key, s, Some(Initials))
      ensures |heap'| < cap ==> o2[s] == o0[s] + if InLane(uni, rows[s], q) then 1 else 0
    {
      InLaneIsAhead(uni, rows, col, q, s);
      if !out {
        NoneAhead(col, q, s, cursor);
      }
    }
  }
}
