/** Substring search, the non-overlapping scan, and the tier a record earns from its hits. */
module Scanning {
  import opened Bytes
  import opened Ranking

  predicate Occurs(a: seq<byte>, q: seq<byte>, p: nat) {
    p + |q| <= |a| && a[p..p + |q|] == q
  }

  lemma OccursAt(a: seq<byte>, q: seq<byte>, p: nat, k: nat)
    requires Occurs(a, q, p) && k < |q|
    ensures a[p + k] == q[k]
  {
    assert a[p..p + |q|][k] == a[p + k];
  }

  lemma FirstByte(a: seq<byte>, q: seq<byte>, p: nat)
    requires q != []
    ensures Occurs(a, q, p) ==> p < |a| && a[p] == q[0]
  {
    if Occurs(a, q, p) {
      OccursAt(a, q, p, 0);
    }
  }

  /** `memmem`: the leftmost occurrence of `q` at or after `p`. */
  function FindFrom(a: seq<byte>, q: seq<byte>, p: nat): (r: Option<nat>)
    ensures r.Some? ==> r.value >= p && r.value + |q| <= |a|
    decreases if p <= |a| then |a| - p + 1 else 0
  {
    if p + |q| > |a| then None
    else if Occurs(a, q, p) then Some(p)
    else FindFrom(a, q, p + 1)
  }

  lemma {:induction false} FindSpec(a: seq<byte>, q: seq<byte>, p: nat)
    ensures var r := FindFrom(a, q, p);
            && (r.Some? ==> Occurs(a, q, r.value))
            && forall k :: p <= k && (r.Some? ==> k < r.value) ==> !Occurs(a, q, k)
    decreases if p <= |a| then |a| - p + 1 else 0
  {
    if p + |q| <= |a| && !Occurs(a, q, p) {
      FindSpec(a, q, p + 1);
    }
  }

  /** Leftmost non-overlapping occurrences from `p` on. */
  function Scan(a: seq<byte>, q: seq<byte>, p: nat): seq<nat>
    requires q != []
    decreases if p <= |a| then |a| - p + 1 else 0
  {
    match FindFrom(a, q, p)
    case None => []
    case Some(h) => [h] + Scan(a, q, h + |q|)
  }

  lemma FindIs(a: seq<byte>, q: seq<byte>, p: nat, h: nat)
    requires p <= h && Occurs(a, q, h)
    requires forall k :: p <= k < h ==> !Occurs(a, q, k)
    ensures FindFrom(a, q, p) == Some(h)
  {
    FindSpec(a, q, p);
  }

  lemma FindNone(a: seq<byte>, q: seq<byte>, p: nat)
    requires forall k :: p <= k ==> !Occurs(a, q, k)
    ensures FindFrom(a, q, p) == None
  {
    FindSpec(a, q, p);
  }

  /** Nothing starts in `[p, p')`, so the scan may resume at `p'`. */
  lemma ScanSkips(a: seq<byte>, q: seq<byte>, p: nat, p': nat)
    requires q != [] && p <= p'
    requires forall k :: p <= k < p' ==> !Occurs(a, q, k)
    ensures FindFrom(a, q, p) == FindFrom(a, q, p')
    ensures Scan(a, q, p) == Scan(a, q, p')
  {
    FindSpec(a, q, p');
    match FindFrom(a, q, p')
    case None => FindNone(a, q, p);
    case Some(h) => FindIs(a, q, p, h);
  }

  lemma WindowOccurs(a: seq<byte>, q: seq<byte>, end: nat, k: nat)
    requires end <= |a|
    ensures Occurs(a[..end], q, k) <==> Occurs(a, q, k) && k + |q| <= end
  {
    if k + |q| <= end {
      assert a[..end][k..k + |q|] == a[k..k + |q|];
    }
  }

  /** A search confined to a window sees exactly the occurrences that end inside it. */
  lemma FindInWindow(a: seq<byte>, q: seq<byte>, p: nat, end: nat)
    requires end <= |a|
    ensures FindFrom(a[..end], q, p).Some? ==> FindFrom(a, q, p) == FindFrom(a[..end], q, p)
    ensures FindFrom(a[..end], q, p).None? ==> forall k :: p <= k && k + |q| <= end ==> !Occurs(a, q, k)
  {
    FindSpec(a[..end], q, p);
    var w := FindFrom(a[..end], q, p);
    forall k: nat ensures Occurs(a[..end], q, k) <==> Occurs(a, q, k) && k + |q| <= end {
      WindowOccurs(a, q, end, k);
    }
    if w.Some? {
      FindIs(a, q, p, w.value);
    }
  }

  // ---- tiers ---------------------------------------------------------------

  /** Tier of a hit, reading past either end of the text as a fence. */
  function HitTier(a: seq<byte>, n: nat, h: nat): Tier {
    Classify(if 0 < h <= |a| then a[h - 1] else DELIM, if h + n < |a| then a[h + n] else DELIM)
  }

  predicate Counts(a: seq<byte>, n: nat, skipStart: bool, h: nat, lo: nat, hi: nat) {
    lo <= h < hi && !(skipStart && (HitTier(a, n, h).Exact? || HitTier(a, n, h).Prefix?))
  }

  function Tally(acc: Option<Tier>, a: seq<byte>, n: nat, skipStart: bool, h: nat, lo: nat, hi: nat): Option<Tier> {
    if Counts(a, n, skipStart, h, lo, hi) then BestTier(acc, HitTier(a, n, h)) else acc
  }

  /** Best tier among the hits that start in `[lo, hi)`. */
  function BestHit(acc: Option<Tier>, a: seq<byte>, n: nat, skipStart: bool, hits: seq<nat>, lo: nat,
                   hi: nat): Option<Tier>
    decreases hits
  {
    if hits == [] then acc
    else BestHit(Tally(acc, a, n, skipStart, hits[0], lo, hi), a, n, skipStart, hits[1..], lo, hi)
  }

  /** Best tier over the leftmost non-overlapping scan of `a` from `p`, counting hits in `[lo, hi)`. */
  function ScanTier(acc: Option<Tier>, a: seq<byte>, q: seq<byte>, skipStart: bool, p: nat, lo: nat,
                    hi: nat): Option<Tier>
    requires q != []
    decreases if p <= |a| then |a| - p + 1 else 0
  {
    match FindFrom(a, q, p)
    case None => acc
    case Some(h) => ScanTier(Tally(acc, a, |q|, skipStart, h, lo, hi), a, q, skipStart, h + |q|, lo, hi)
  }

  /** The tier of one record: the best over its own leftmost non-overlapping scan. */
  function RecordTier(rec: seq<byte>, q: seq<byte>, skipStart: bool): Option<Tier>
    requires q != []
  {
    ScanTier(None, rec, q, skipStart, 0, 0, |rec|)
  }

  lemma {:induction false} BestHitOfScan(acc: Option<Tier>, a: seq<byte>, q: seq<byte>, skipStart: bool, p: nat,
                                         lo: nat, hi: nat)
    requires q != []
    ensures BestHit(acc, a, |q|, skipStart, Scan(a, q, p), lo, hi) == ScanTier(acc, a, q, skipStart, p, lo, hi)
    decreases if p <= |a| then |a| - p + 1 else 0
  {
    match FindFrom(a, q, p)
    case None =>
    case Some(h) =>
      assert Scan(a, q, p)[1..] == Scan(a, q, h + |q|);
      BestHitOfScan(Tally(acc, a, |q|, skipStart, h, lo, hi), a, q, skipStart, h + |q|, lo, hi);
  }

  lemma {:induction false} BestHitSnoc(acc: Option<Tier>, a: seq<byte>, n: nat, skipStart: bool, hits: seq<nat>, h: nat,
                                       lo: nat, hi: nat)
    ensures BestHit(acc, a, n, skipStart, hits + [h], lo, hi)
         == Tally(BestHit(acc, a, n, skipStart, hits, lo, hi), a, n, skipStart, h, lo, hi)
    decreases hits
  {
    if hits == [] {
      assert BestHit(Tally(acc, a, n, skipStart, h, lo, hi), a, n, skipStart, [], lo, hi)
          == Tally(acc, a, n, skipStart, h, lo, hi);
      assert ([] + [h])[1..] == [];
    } else {
      assert (hits + [h])[1..] == hits[1..] + [h];
      BestHitSnoc(Tally(acc, a, n, skipStart, hits[0], lo, hi), a, n, skipStart, hits[1..], h, lo, hi);
    }
  }

  /** `[lo, hi)` is a record of `a` with a fence on either side. */
  predicate Fenced(a: seq<byte>, lo: nat, hi: nat) {
    0 < lo <= hi < |a| && a[lo - 1] == DELIM && a[hi] == DELIM
  }

  /** No occurrence of a delimiter-free query crosses a fence. */
  lemma NoCrossing(a: seq<byte>, q: seq<byte>, h: nat, fence: nat)
    requires NoControl(q) && Occurs(a, q, h) && fence < |a| && a[fence] == DELIM
    ensures fence < h || h + |q| <= fence
  {
    if h <= fence < h + |q| {
      OccursAt(a, q, h, fence - h);
    }
  }

  lemma LocalOccurs(a: seq<byte>, q: seq<byte>, lo: nat, hi: nat, p: nat)
    requires lo <= hi <= |a| && lo <= p
    ensures Occurs(a[lo..hi], q, p - lo) <==> Occurs(a, q, p) && p + |q| <= hi
  {
    if p + |q| <= hi {
      SliceOfSlice(a, lo, hi, p - lo, p - lo + |q|);
    }
  }

  lemma FindLocal(a: seq<byte>, q: seq<byte>, lo: nat, hi: nat, p: nat)
    requires Fenced(a, lo, hi) && NoControl(q) && q != [] && lo <= p <= hi
    ensures match FindFrom(a[lo..hi], q, p - lo)
            case Some(k) => FindFrom(a, q, p) == Some(lo + k) && lo + k + |q| <= hi
            case None => forall k :: p <= k <= hi ==> !Occurs(a, q, k)
  {
    FindSpec(a[lo..hi], q, p - lo);
    var r := FindFrom(a[lo..hi], q, p - lo);
    forall k | p <= k <= hi ensures Occurs(a, q, k) <==> Occurs(a[lo..hi], q, k - lo) {
      LocalOccurs(a, q, lo, hi, k);
      if Occurs(a, q, k) {
        NoCrossing(a, q, k, hi);
      }
    }
    if r.Some? {
      FindIs(a, q, p, lo + r.value);
    }
  }

  lemma {:induction false} HitsAfter(acc: Option<Tier>, a: seq<byte>, q: seq<byte>, skipStart: bool, p: nat, lo: nat,
                                     hi: nat)
    requires q != [] && hi <= p
    ensures ScanTier(acc, a, q, skipStart, p, lo, hi) == acc
    decreases if p <= |a| then |a| - p + 1 else 0
  {
    var f := FindFrom(a, q, p);
    if f.Some? {
      HitsAfter(acc, a, q, skipStart, f.value + |q|, lo, hi);
    }
  }

  lemma {:induction false} HitsBefore(acc: Option<Tier>, a: seq<byte>, q: seq<byte>, skipStart: bool, p: nat, lo: nat,
                                      hi: nat)
    requires q != [] && NoControl(q) && Fenced(a, lo, hi) && p <= lo
    ensures ScanTier(acc, a, q, skipStart, p, lo, hi) == ScanTier(acc, a, q, skipStart, lo, lo, hi)
    decreases lo - p
  {
    hide FindFrom, Occurs;
    FindSpec(a, q, p);
    var f := FindFrom(a, q, p);
    if f.Some? && f.value < lo {
      NoCrossing(a, q, f.value, lo - 1);
      HitsBefore(acc, a, q, skipStart, f.value + |q|, lo, hi);
    } else {
      ScanSkips(a, q, p, lo);
    }
  }

  lemma TallyLocal(acc: Option<Tier>, a: seq<byte>, n: nat, skipStart: bool, k: nat, lo: nat, hi: nat)
    requires Fenced(a, lo, hi) && 0 < n && lo + k + n <= hi
    ensures Tally(acc, a, n, skipStart, lo + k, lo, hi) == Tally(acc, a[lo..hi], n, skipStart, k, 0, hi - lo)
  {
    assert HitTier(a, n, lo + k) == HitTier(a[lo..hi], n, k);
  }

  lemma {:induction false} HitsInside(acc: Option<Tier>, a: seq<byte>, q: seq<byte>, skipStart: bool, p: nat, lo: nat,
                                      hi: nat)
    requires q != [] && NoControl(q) && Fenced(a, lo, hi) && lo <= p <= hi
    ensures ScanTier(acc, a, q, skipStart, p, lo, hi) == ScanTier(acc, a[lo..hi], q, skipStart, p - lo, 0, hi - lo)
    decreases hi - p
  {
    hide FindFrom, Occurs, Tally;
    FindLocal(a, q, lo, hi, p);
    match FindFrom(a[lo..hi], q, p - lo)
    case None =>
      ScanSkips(a, q, p, hi);
      HitsAfter(acc, a, q, skipStart, hi, lo, hi);
    case Some(k) =>
      TallyLocal(acc, a, |q|, skipStart, k, lo, hi);
      HitsInside(Tally(acc, a, |q|, skipStart, lo + k, lo, hi), a, q, skipStart, lo + k + |q|, lo, hi);
  }

  /** The arena-wide scan gives a record exactly the tier the record's own scan gives it. */
  lemma RecordScan(a: seq<byte>, q: seq<byte>, skipStart: bool, lo: nat, hi: nat)
    requires q != [] && NoControl(q) && Fenced(a, lo, hi)
    ensures BestHit(None, a, |q|, skipStart, Scan(a, q, 0), lo, hi) == RecordTier(a[lo..hi], q, skipStart)
  {
    BestHitOfScan(None, a, q, skipStart, 0, lo, hi);
    HitsBefore(None, a, q, skipStart, 0, lo, hi);
    HitsInside(None, a, q, skipStart, lo, lo, hi);
  }

  /** A record has a tier exactly when the query occurs in it. */
  lemma RecordTierExists(rec: seq<byte>, q: seq<byte>)
    requires q != []
    ensures RecordTier(rec, q, false).Some? <==> exists p :: Occurs(rec, q, p)
  {
    FindSpec(rec, q, 0);
    var f := FindFrom(rec, q, 0);
    if f.Some? {
      TierKept(Tally(None, rec, |q|, false, f.value, 0, |rec|), rec, q, f.value + |q|);
      assert Occurs(rec, q, f.value);
    }
  }

  lemma {:induction false} TierKept(acc: Option<Tier>, rec: seq<byte>, q: seq<byte>, p: nat)
    requires q != []
    ensures acc.Some? ==> ScanTier(acc, rec, q, false, p, 0, |rec|).Some?
    decreases if p <= |rec| then |rec| - p + 1 else 0
  {
    var f := FindFrom(rec, q, p);
    if f.Some? {
      TierKept(Tally(acc, rec, |q|, false, f.value, 0, |rec|), rec, q, f.value + |q|);
    }
  }
}
