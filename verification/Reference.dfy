/** The naive scorer the pruned search must agree with: every live slot, every tier, nothing skipped. */
module Reference {
  import opened Bytes
  import opened Utf8
  import opened Names
  import opened Ranking
  import opened Scanning
  import opened ClassBits
  import opened FuzzyTier
  import opened Table
  import opened Columns
  import opened Ordering
  import opened Selecting
  import opened IndexState

  /** A folded query the index searches for at all. */
  predicate Searchable(fq: string) {
    fq != "" && NoControl(Encode(fq))
  }

  /** The query fits a lane and occurs in this slot's own. */
  ghost predicate InLane(uni: Unicode, row: Row, q: seq<byte>) {
    row.Live? && |q| <= INITIALS_STRIDE && exists p: nat :: Occurs(LaneFor(uni, row), q, p)
  }

  /** The best tier a row earns outside the fuzzy tier: over its own record's scan, upgraded by its lane. */
  ghost function RowTier(uni: Unicode, row: Row, q: seq<byte>): Option<Tier>
    requires q != []
  {
    if row.Vacant? then None
    else
      var t := RecordTier(row.folded, q, false);
      if InLane(uni, row, q) && (t.None? || TierBase(Initials) > TierBase(t.value)) then Some(Initials) else t
  }

  /** A row's best tier and base. The fuzzy tier is asked only of rows nothing else claimed. */
  ghost function RowOffer(uni: Unicode, row: Row, fq: string): Option<(Tier, real)>
    requires fq != ""
  {
    var q := Encode(fq);
    if row.Vacant? then None
    else if RowTier(uni, row, q).Some? then Some((RowTier(uni, row, q).value, TierBase(RowTier(uni, row, q).value)))
    else if |q| >= 3 && DensityOf(Decode(row.folded), fq).Some? then
      Some((Fuzzy, 0.3 + 0.2 * DensityOf(Decode(row.folded), fq).value))
    else None
  }

  ghost function RefFor(uni: Unicode, row: Row, key: byte, slot: nat, fq: string): (r: Option<Scored>)
    requires fq != ""
    ensures r.Some? ==> r.value.slot == slot
  {
    match RowOffer(uni, row, fq)
    case None => None
    case Some(o) => Some(Score(key, slot, o.0, o.1))
  }

  ghost function RefsFor(uni: Unicode, rows: seq<Row>, rankKey: seq<byte>, fq: string): (refs: seq<Option<Scored>>)
    requires fq != "" && |rankKey| == |rows|
    ensures |refs| == |rows| && RefsOk(refs)
    ensures forall s :: 0 <= s < |rows| ==> refs[s] == RefFor(uni, rows[s], rankKey[s], s, fq)
  {
    seq(|rows|, s requires 0 <= s < |rows| => RefFor(uni, rows[s], rankKey[s], s, fq))
  }

  /** The reference page: rank every accepted row's best offer, higher score then lower slot, and cut to `k`. */
  ghost function ReferencePage(uni: Unicode, rows: seq<Row>, rankKey: seq<byte>, fq: string, accept: nat -> bool,
                               k: nat): seq<Scored>
    requires |rankKey| == |rows|
  {
    if Searchable(fq) then Top(Ranked(RefsFor(uni, rows, rankKey, fq), accept), k) else []
  }

  // ---- what may be offered --------------------------------------------------------------

  /** Bases tell the tiers apart. */
  lemma BaseInjective(a: Tier, b: Tier)
    requires TierBase(a) == TierBase(b)
    ensures a == b
  {
  }

  /** Offering a tier no better than the row's own is sound. */
  lemma TierFits(uni: Unicode, rows: seq<Row>, rankKey: seq<byte>, fq: string, s: nat, t: Tier)
    requires fq != "" && |rankKey| == |rows| && s < |rows| && rows[s].Live?
    requires RowTier(uni, rows[s], Encode(fq)).Some? && TierBase(t) <= TierBase(RowTier(uni, rows[s], Encode(fq)).value)
    ensures var refs := RefsFor(uni, rows, rankKey, fq);
            var o := Score(rankKey[s], s, t, TierBase(t));
            Fits(refs, o)
  {
    var best := RowTier(uni, rows[s], Encode(fq)).value;
    hide RowTier, Encode, DepthPen;
    ScoreMonotone(rankKey[s], TierBase(t), TierBase(best));
    if TierBase(t) == TierBase(best) {
      BaseInjective(t, best);
    }
  }

  // ---- covering one tier ------------------------------------------------------------------

  /** Slot `s` at tier `t`, if it has one and is accepted, is held or crowded out by better. */
  predicate TierDone(heap: seq<Scored>, cap: nat, accept: nat -> bool, key: seq<byte>, s: nat, t: Option<Tier>) {
    t.Some? && s < |key| && accept(s) ==> CoveredBy(heap, cap, Score(key[s], s, t.value, TierBase(t.value)))
  }

  lemma DoneAdvances(h0: seq<Scored>, h1: seq<Scored>, cap: nat, accept: nat -> bool, key: seq<byte>)
    requires 0 < cap && Advances(h0, h1, cap)
    ensures forall s: nat, t :: TierDone(h0, cap, accept, key, s, t) ==> TierDone(h1, cap, accept, key, s, t)
  {
    hide CoveredBy;
  }

  /** An offer under a tier's bound scores under it. */
  lemma UnderBound(key: byte, s: nat, t: Tier)
    ensures Score(key, s, t, TierBase(t)).score <= TierBase(t) <= TierUpperBound(t)
  {
    ScoreBound(key, TierBase(t));
  }
}
