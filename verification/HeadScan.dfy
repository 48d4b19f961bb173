/** A one-byte query's exact and prefix tiers, read off the head column instead of the arena. */
module HeadScan {
  import opened Bytes
  import opened Utf8
  import opened Names
  import opened Polling
  import opened Ranking
  import opened Scanning
  import opened Table
  import opened Columns
  import opened Ordering
  import opened Selecting
  import opened Reference

  /** The tier a row's first two folded bytes decide. */
  function HeadTier(row: Row, b: byte): Option<Tier> {
    if row.Live? && row.folded != [] && row.folded[0] == b then Some(if |row.folded| == 1 then Exact else Prefix)
    else None
  }

  // ---- the head pair decides exactly what the arena scan would have ------------------------

  /** Past its first byte a record has no exact or prefix hit. */
  lemma InnerHit(rec: seq<byte>, q: seq<byte>, h: nat)
    requires NoControl(rec) && 0 < h && h + |q| <= |rec|
    ensures !HitTier(rec, |q|, h).Exact? && !HitTier(rec, |q|, h).Prefix?
  {
  }

  /** Nothing past the first byte beats an exact or prefix hit there. */
  lemma {:induction false} StartKept(t: Tier, rec: seq<byte>, q: seq<byte>, p: nat)
    requires q != [] && NoControl(rec) && 0 < p && (t.Exact? || t.Prefix?)
    ensures ScanTier(Some(t), rec, q, false, p, 0, |rec|) == Some(t)
    decreases if p <= |rec| then |rec| - p + 1 else 0
  {
    var f := FindFrom(rec, q, p);
    if f.Some? {
      InnerHit(rec, q, f.value);
      StartKept(t, rec, q, f.value + |q|);
    }
  }

  /** Away from the start, skipping start hits skips nothing. */
  lemma {:induction false} SkipsNothing(acc: Option<Tier>, rec: seq<byte>, q: seq<byte>, p: nat)
    requires q != [] && NoControl(rec) && 0 < p
    ensures ScanTier(acc, rec, q, true, p, 0, |rec|) == ScanTier(acc, rec, q, false, p, 0, |rec|)
    decreases if p <= |rec| then |rec| - p + 1 else 0
  {
    var f := FindFrom(rec, q, p);
    if f.Some? {
      InnerHit(rec, q, f.value);
      SkipsNothing(Tally(acc, rec, |q|, false, f.value, 0, |rec|), rec, q, f.value + |q|);
    }
  }

  /** The head pass and the arena scan past start hits split the record's tier between them. */
  lemma HeadSplits(rec: seq<byte>, q: seq<byte>)
    requires |q| == 1 && rec != [] && NoControl(rec)
    ensures RecordTier(rec, q, false) ==
              if rec[0] == q[0] then Some(if |rec| == 1 then Exact else Prefix) else RecordTier(rec, q, true)
  {
    if rec[0] == q[0] {
      assert rec[0..1] == q;
      FindIs(rec, q, 0, 0);
      var t := HitTier(rec, 1, 0);
      assert Tally(None, rec, 1, false, 0, 0, |rec|) == Some(t);
      StartKept(t, rec, q, 1);
    } else {
      FirstByte(rec, q, 0);
      ScanSkipsOne(rec, q, false);
      ScanSkipsOne(rec, q, true);
      SkipsNothing(None, rec, q, 1);
    }
  }

  lemma ScanSkipsOne(rec: seq<byte>, q: seq<byte>, skipStart: bool)
    requires q != [] && !Occurs(rec, q, 0)
    ensures ScanTier(None, rec, q, skipStart, 0, 0, |rec|) == ScanTier(None, rec, q, skipStart, 1, 0, |rec|)
  {
    ScanSkips(rec, q, 0, 1);
  }

  // ---- the pass --------------------------------------------------------------------------------

  lemma AdvancesRefl(h: seq<Scored>, cap: nat)
    requires 0 < cap
    ensures Advances(h, h, cap)
  {
  }

  lemma AdvancesTrans(h0: seq<Scored>, h1: seq<Scored>, h2: seq<Scored>, cap: nat)
    requires 0 < cap && Advances(h0, h1, cap) && Advances(h1, h2, cap)
    ensures Advances(h0, h2, cap)
  {
    hide CoveredBy;
  }

  /** Offers of one pass: none to any slot more than `most` times. */
  predicate OffersWithin(o0: seq<nat>, o1: seq<nat>, most: nat) {
    |o1| == |o0| && forall s :: 0 <= s < |o0| ==> o0[s] <= o1[s] <= o0[s] + most
  }

  lemma HeadPair(uni: Unicode, rows: seq<Row>, head: seq<byte>, s: nat, b: byte)
    requires HeadOk(rows, head) && RowsOk(uni, rows) && s < |rows| && b >= 0x20
    ensures 2 * s + 2 <= |head|
    ensures head[2 * s] == b <==> HeadTier(rows[s], b).Some?
    ensures head[2 * s] == b ==> HeadTier(rows[s], b) == Some(if head[2 * s + 1] == DELIM then Exact else Prefix)
  {
    assert HeadAt(head, s) == HeadFor(rows[s]);
    assert HeadAt(head, s)[0] == head[2 * s] && HeadAt(head, s)[1] == head[2 * s + 1];
    assert RowOk(uni, rows[s]);
  }

  lemma HeadFits(uni: Unicode, rows: seq<Row>, rankKey: seq<byte>, fq: string, s: nat, b: byte)
    requires RowsOk(uni, rows) && fq != "" && Encode(fq) == [b] && |rankKey| == |rows| && s < |rows|
    requires HeadTier(rows[s], b).Some?
    ensures var refs := RefsFor(uni, rows, rankKey, fq);
            var t := HeadTier(rows[s], b).value;
            var o := Score(rankKey[s], s, t, TierBase(t));
            Fits(refs, o)
  {
    hide Encode, Score, Fits, FoldedRecord;
    assert RowOk(uni, rows[s]);
    HeadSplits(rows[s].folded, [b]);
    TierFits(uni, rows, rankKey, fq, s, HeadTier(rows[s], b).value);
  }

  method HeadPass(uni: Unicode, rankKey: seq<byte>, head: seq<byte>, b: byte, poll: nat -> bool, sel: Selector,
                  ghost rows: seq<Row>, ghost fq: string)
    returns (cancelled: bool)
    requires sel.Valid() && fq != "" && Encode(fq) == [b] && b >= 0x20 && |rankKey| == |rows|
    requires HeadOk(rows, head) && RowsOk(uni, rows) && sel.refs == RefsFor(uni, rows, rankKey, fq)
    modifies sel
    ensures sel.Valid() && Advances(old(sel.heap), sel.heap, sel.cap) && OffersWithin(old(sel.offers), sel.offers, 1)
    ensures cancelled ==> Raised(poll)
    ensures !cancelled ==> forall s :: 0 <= s < |rows| ==>
              TierDone(sel.heap, sel.cap, sel.accept, rankKey, s, HeadTier(rows[s], b))
  {
    hide HeadOk, RowsOk, Encode, HeadTier, TierDone, Advances, CoveredBy, Score, Better, BestFirst, HeapCounted, SeenOk;
    hide FloorOf, FuzzyHeld, Fits, RefFor;
    ghost var heap0, offers0 := sel.heap, sel.offers;
    AdvancesRefl(sel.heap, sel.cap);
    for slot := 0 to |rankKey|
      invariant sel.Valid() && Advances(heap0, sel.heap, sel.cap) && OffersWithin(offers0, sel.offers, 1)
      invariant forall s :: slot <= s < |rows| ==> sel.offers[s] == offers0[s]
      invariant forall s :: 0 <= s < slot ==> TierDone(sel.heap, sel.cap, sel.accept, rankKey, s, HeadTier(rows[s], b))
    {
      var stop := Poll(poll);
      if stop {
        return true;
      }
      HeadPair(uni, rows, head, slot, b);
      if head[2 * slot] != b {
        NoTier(sel.heap, sel.cap, sel.accept, rankKey, slot);
        continue;
      }
      var tier := if head[2 * slot + 1] == DELIM then Exact else Prefix;
      FloorHeld(sel.heap, sel.cap);
      if sel.Rejects(TierUpperBound(tier)) {
        RejectedTier(sel, rankKey, slot, tier);
        continue;
      }
      HeadFits(uni, rows, rankKey, fq, slot, b);
      ghost var before := sel.heap;
      sel.Offer(rankKey, slot, tier, TierBase(tier));
      DoneAdvances(before, sel.heap, sel.cap, sel.accept, rankKey);
      AdvancesTrans(heap0, before, sel.heap, sel.cap);
      OfferedTier(sel.heap, sel.cap, sel.accept, rankKey, slot, tier);
    }
    cancelled := false;
  }

  lemma NoTier(heap: seq<Scored>, cap: nat, accept: nat -> bool, key: seq<byte>, s: nat)
    ensures TierDone(heap, cap, accept, key, s, None)
  {
  }

  lemma OfferedTier(heap: seq<Scored>, cap: nat, accept: nat -> bool, key: seq<byte>, s: nat, t: Tier)
    requires s < |key| && (accept(s) ==> CoveredBy(heap, cap, Score(key[s], s, t, TierBase(t))))
    ensures TierDone(heap, cap, accept, key, s, Some(t))
  {
  }

  lemma FloorHeld(heap: seq<Scored>, cap: nat)
    requires 0 < cap && |heap| <= cap
    ensures |heap| >= cap ==> FloorOf(heap, cap).Some?
  {
  }

  /** A tier whose bound is rejected needs no offer. */
  lemma RejectedTier(sel: Selector, key: seq<byte>, s: nat, t: Tier)
    requires sel.Valid() && sel.Rejects(TierUpperBound(t))
    ensures TierDone(sel.heap, sel.cap, sel.accept, key, s, Some(t))
  {
    if s < |key| {
      UnderBound(key[s], s, t);
      sel.RejectedIsCovered(TierUpperBound(t), Score(key[s], s, t, TierBase(t)));
    }
  }
}
