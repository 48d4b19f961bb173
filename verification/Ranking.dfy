/** Tiers, scores and the order the page is sorted by. */
module Ranking {
  import opened Bytes
  import opened Names

  /** Folded-arena record delimiter. */
  const DELIM: byte := 0

  /** Widest depth a rank key carries, and its hidden-or-system bit. */
  const RANK_DEPTH_MAX: nat := 127
  const RANK_PENALIZED: nat := 128

  datatype Tier = Exact | Prefix | WordBoundary | Initials | Substring | Fuzzy

  /** A tier's base quality; for `Fuzzy` only the floor of a density-scaled base. */
  function TierBase(t: Tier): real {
    match t
    case Exact => 1.0
    case Prefix => 0.9
    case WordBoundary => 0.8
    case Initials => 0.7
    case Substring => 0.55
    case Fuzzy => 0.3
  }

  /** The most any offer of the tier can score. */
  function TierUpperBound(t: Tier): real {
    match t
    case Exact => 1.0
    case Prefix => 0.9
    case WordBoundary => 0.8
    case Initials => 0.7
    case Substring => 0.55
    case Fuzzy => 0.5
  }

  /** Tier of a hit from the two bytes fencing it. */
  function Classify(before: byte, after: byte): Tier {
    if before == DELIM && after == DELIM then Exact
    else if before == DELIM then Prefix
    else if IsSepByte(before) then WordBoundary
    else Substring
  }

  /** `depth_penalty * hidden_penalty` for a packed rank key. */
  function DepthPen(key: byte): (p: real)
    ensures 0.0 < p <= 1.0
  {
    var depth := key % 128;
    var p := 1.0 / (1.0 + 0.02 * depth as real);
    PenaltyRange(depth);
    if key >= RANK_PENALIZED then p * 0.85 else p
  }

  lemma PenaltyRange(depth: nat)
    ensures 0.0 < 1.0 / (1.0 + 0.02 * depth as real) <= 1.0
  {
    Reciprocal(1.0, 1.0 + 0.02 * depth as real);
  }

  lemma Reciprocal(a: real, b: real)
    requires 0.0 < a <= b
    ensures 0.0 < 1.0 / b <= 1.0 / a
  {
    var x, y := 1.0 / a, 1.0 / b;
    assert x * a == 1.0 && y * b == 1.0;
    if y <= 0.0 {
      ScaleLe(y, 0.0, b);
    }
    if y > x {
      ScaleLe(a, b, y);
      ScaleLess(x, y, a);
    }
  }

  lemma ScaleLe(a: real, b: real, c: real)
    requires a <= b && 0.0 <= c
    ensures a * c <= b * c
  {
  }

  lemma ScaleLess(a: real, b: real, c: real)
    requires a < b && 0.0 < c
    ensures a * c < b * c
  {
  }

  /** A deeper key never carries the larger penalty factor. */
  lemma DeeperIsNoBetter(shallow: byte, deep: byte)
    requires shallow < RANK_PENALIZED && shallow <= deep % 128
    ensures DepthPen(deep) <= DepthPen(shallow)
  {
    Reciprocal(1.0 + 0.02 * shallow as real, 1.0 + 0.02 * (deep % 128) as real);
    PenaltyRange(deep % 128);
  }

  /** A scored offer. */
  datatype Scored = Scored(score: real, slot: nat, tier: Tier)

  /** Higher score, then lower slot. */
  predicate Better(a: Scored, b: Scored) {
    a.score > b.score || (a.score == b.score && a.slot < b.slot)
  }

  function Score(key: byte, slot: nat, tier: Tier, base: real): (s: Scored)
    ensures s.slot == slot && s.tier == tier
  {
    Scored(base * DepthPen(key), slot, tier)
  }

  /** An offer's score never exceeds its base, which never exceeds its tier's bound. */
  lemma ScoreBound(key: byte, base: real)
    requires 0.0 <= base
    ensures base * DepthPen(key) <= base
  {
    ScaleLe(DepthPen(key), 1.0, base);
  }

  /** At one rank key a larger base gives a strictly larger score. */
  lemma ScoreMonotone(key: byte, a: real, b: real)
    ensures a < b ==> a * DepthPen(key) < b * DepthPen(key)
    ensures a == b ==> a * DepthPen(key) == b * DepthPen(key)
  {
    if a < b {
      ScaleLess(a, b, DepthPen(key));
    }
  }

  /** The better of two tiers by base, the first on a tie. */
  function BestTier(a: Option<Tier>, t: Tier): (r: Option<Tier>)
    ensures r.Some? && TierBase(r.value) >= TierBase(t) && (a.Some? ==> TierBase(r.value) >= TierBase(a.value))
    ensures r == Some(t) || r == a
  {
    if a.Some? && TierBase(t) <= TierBase(a.value) then a else Some(t)
  }
}
