/** The fuzzy tier: subsequence density, and the budget that bounds how many candidates are verified. */
module FuzzyTier {
  import opened Bytes
  import opened Ranking
  import opened ClassBits

  // ---- subsequences --------------------------------------------------------------------

  lemma {:induction false} SubLength<T>(q: seq<T>, t: seq<T>)
    requires IsSubsequence(q, t)
    ensures |q| <= |t|
  {
    if q != [] && t != [] {
      SubLength(if q[0] == t[0] then q[1..] else q, t[1..]);
    }
  }

  /** Dropping the query's first element keeps it a subsequence. */
  lemma {:induction false} SubTail<T>(q: seq<T>, t: seq<T>)
    requires q != [] && IsSubsequence(q, t)
    ensures IsSubsequence(q[1..], t)
  {
    if |q| > 1 {
      if q[0] == t[0] {
        if q[1] == t[0] {
          SubTail(q[1..], t[1..]);
        }
      } else {
        SubTail(q, t[1..]);
        if q[1] == t[0] {
          SubTail(q[1..], t[1..]);
        }
      }
    }
  }

  /** More text in front never hurts. */
  lemma SubFront<T>(q: seq<T>, x: T, t: seq<T>)
    requires IsSubsequence(q, t)
    ensures IsSubsequence(q, [x] + t)
  {
    assert ([x] + t)[1..] == t;
    if q != [] && q[0] == x {
      SubTail(q, t);
    }
  }

  /** One more element of text can only serve as the query's last. */
  lemma {:induction false} SubSnoc<T>(q: seq<T>, t: seq<T>, y: T)
    ensures IsSubsequence(q, t + [y]) <==>
              IsSubsequence(q, t) || (q != [] && q[|q| - 1] == y && IsSubsequence(q[..|q| - 1], t))
    decreases |t|
  {
    if q == [] {
    } else if t == [] {
      assert (t + [y])[1..] == [];
      assert q[1..] == [] <==> |q| == 1;
    } else {
      assert (t + [y])[1..] == t[1..] + [y];
      if q[0] == t[0] {
        SubSnoc(q[1..], t[1..], y);
        if |q| > 1 {
          assert q[1..][..|q| - 2] == q[..|q| - 1][1..];
        } else {
          assert q[..|q| - 1] == [];
        }
      } else {
        SubSnoc(q, t[1..], y);
        assert |q| > 1 ==> q[..|q| - 1][0] == q[0];
      }
    }
  }

  /** Dropping the query's last element keeps it a subsequence. */
  lemma {:induction false} SubInit<T>(q: seq<T>, t: seq<T>)
    requires q != [] && IsSubsequence(q, t)
    ensures IsSubsequence(q[..|q| - 1], t)
    decreases |t|
  {
    if |q| > 1 {
      if q[0] == t[0] {
        SubInit(q[1..], t[1..]);
        assert q[..|q| - 1][1..] == q[1..][..|q| - 2];
      } else {
        SubInit(q, t[1..]);
      }
    }
  }

  lemma {:induction false} SubPrefix<T>(q: seq<T>, t: seq<T>, k: nat)
    requires k <= |q| && IsSubsequence(q, t)
    ensures IsSubsequence(q[..k], t)
    decreases |q| - k
  {
    if k < |q| {
      SubPrefix(q, t, k + 1);
      SubInit(q[..k + 1], t);
      assert q[..k + 1][..k] == q[..k];
    } else {
      assert q[..k] == q;
    }
  }

  // ---- the density window -------------------------------------------------------------------

  /** `[start, end]` is the latest-starting window at the earliest possible end. */
  ghost predicate Window(name: string, q: string, start: nat, end: nat) {
    && start <= end < |name|
    && IsSubsequence(q, name[..end + 1]) && !IsSubsequence(q, name[..end])
    && IsSubsequence(q, name[start..end + 1]) && !IsSubsequence(q, name[start + 1..end + 1])
  }

  /** Matched length over window length. */
  function Density(q: string, start: nat, end: nat): real
    requires start <= end
  {
    |q| as real / (end - start + 1) as real
  }

  lemma DensityRange(name: string, q: string, start: nat, end: nat)
    requires q != [] && Window(name, q, start, end)
    ensures 0.0 < Density(q, start, end) <= 1.0
  {
    SubLength(q, name[start..end + 1]);
    var n, w := |q| as real, (end - start + 1) as real;
    assert n <= w && 0.0 < n;
    QuotientRange(n, w);
  }

  /** Of two windows the tighter is strictly denser, and only an unbroken match, as long as the query, has density 1. */
  lemma TighterIsDenser(q: string, s0: nat, e0: nat, s1: nat, e1: nat)
    requires q != [] && s0 <= e0 && s1 <= e1
    ensures Density(q, s0, e0) > Density(q, s1, e1) <==> e0 - s0 < e1 - s1
    ensures Density(q, s0, e0) == 1.0 <==> e0 - s0 + 1 == |q|
    ensures Density(q, s0, e0) * (e0 - s0 + 1) as real == |q| as real
  {
    var n, v, w := |q| as real, (e0 - s0 + 1) as real, (e1 - s1 + 1) as real;
    QuotientFalls(n, v, w);
    QuotientFalls(n, w, v);
    assert n / v * v == n;
  }

  lemma QuotientFalls(n: real, v: real, w: real)
    requires 0.0 < n && 0.0 < v && 0.0 < w
    ensures v < w ==> n / v > n / w
    ensures v == w ==> n / v == n / w
    ensures n / v == 1.0 ==> n == v
  {
    var a, b := n / v, n / w;
    assert a * v == n && b * w == n;
    if b <= 0.0 {
      ScaleLe(b, 0.0, w);
    }
    if v < w && a <= b {
      ScaleLe(a, b, v);
      ScaleLess(v, w, b);
    }
  }

  lemma QuotientRange(n: real, w: real)
    requires 0.0 < n <= w
    ensures 0.0 < n / w <= 1.0
  {
    var d := n / w;
    assert d * w == n;
    if d > 1.0 {
      ScaleLess(1.0, d, w);
    }
    if d <= 0.0 {
      ScaleLe(d, 0.0, w);
    }
  }

  /** What the forward pass knows: the first `qi` query characters, and no more, are matched in `t`. */
  ghost predicate Greedy(q: string, t: string, qi: nat) {
    && qi <= |q| && IsSubsequence(q[..qi], t)
    && (qi < |q| ==> !IsSubsequence(q[..qi + 1], t))
  }

  lemma GreedyStep(q: string, t: string, qi: nat, c: char)
    requires Greedy(q, t, qi) && qi < |q|
    ensures Greedy(q, t + [c], if c == q[qi] then qi + 1 else qi)
    ensures IsSubsequence(q, t + [c]) <==> c == q[qi] && qi + 1 == |q|
  {
    SubSnoc(q[..qi + 1], t, c);
    assert q[..qi + 1][..qi] == q[..qi];
    SubSnoc(q[..qi], t, c);
    if qi + 1 < |q| {
      SubSnoc(q[..qi + 2], t, c);
      assert q[..qi + 2][..qi + 1] == q[..qi + 1];
      if IsSubsequence(q[..qi + 2], t) {
        SubPrefix(q[..qi + 2], t, qi + 1);
      }
    }
    if IsSubsequence(q, t + [c]) {
      SubPrefix(q, t + [c], qi + 1);
      if qi + 2 <= |q| {
        SubPrefix(q, t + [c], qi + 2);
      }
    }
    assert qi + 1 == |q| ==> q[..qi + 1] == q;
  }

  /** What the backward pass knows: the last `|q| - qj` query characters, and no more, are matched in `t`. */
  ghost predicate GreedyBack(q: string, t: string, qj: nat) {
    && qj <= |q| && IsSubsequence(q[qj..], t)
    && (qj > 0 ==> !IsSubsequence(q[qj - 1..], t))
  }

  lemma {:induction false} SubSuffix<T>(q: seq<T>, t: seq<T>, k: nat)
    requires k <= |q| && IsSubsequence(q, t)
    ensures IsSubsequence(q[k..], t)
  {
    if k > 0 {
      SubTail(q, t);
      SubSuffix(q[1..], t, k - 1);
      assert q[1..][k - 1..] == q[k..];
    }
  }

  lemma GreedyBackStep(q: string, t: string, qj: nat, c: char)
    requires GreedyBack(q, t, qj) && qj > 0
    ensures GreedyBack(q, [c] + t, if c == q[qj - 1] then qj - 1 else qj)
  {
    assert ([c] + t)[1..] == t;
    assert q[qj - 1..][1..] == q[qj..];
    SubFront(q[qj..], c, t);
    if c == q[qj - 1] && qj > 1 && IsSubsequence(q[qj - 2..], [c] + t) {
      assert q[qj - 2..][1..] == q[qj - 1..];
      SubTail(q[qj - 2..], [c] + t);
      if q[qj - 2] != c {
        SubTail(q[qj - 2..], t);
      }
    }
  }

  /** The forward pass: index of the character that completes the query earliest. */
  method EarliestEnd(name: string, q: string) returns (end: Option<nat>)
    requires q != []
    ensures end.Some? <==> IsSubsequence(q, name)
    ensures end.Some? ==>
              end.value < |name| && IsSubsequence(q, name[..end.value + 1]) && !IsSubsequence(q, name[..end.value])
  {
    var qi := 0;
    for ci := 0 to |name|
      invariant qi < |q| && Greedy(q, name[..ci], qi) && !IsSubsequence(q, name[..ci])
    {
      GreedyStep(q, name[..ci], qi, name[ci]);
      assert name[..ci] + [name[ci]] == name[..ci + 1];
      if name[ci] == q[qi] {
        qi := qi + 1;
        if qi == |q| {
          SubGrows(q, name, ci + 1);
          return Some(ci);
        }
      }
    }
    assert name[..|name|] == name;
    end := None;
  }

  lemma {:induction false} SubGrows(q: string, name: string, n: nat)
    requires n <= |name| && IsSubsequence(q, name[..n])
    ensures IsSubsequence(q, name)
    decreases |name| - n
  {
    if n < |name| {
      SubSnoc(q, name[..n], name[n]);
      assert name[..n] + [name[n]] == name[..n + 1];
      SubGrows(q, name, n + 1);
    } else {
      assert name[..n] == name;
    }
  }

  /** The backward pass from that end: it always completes, at the latest start. */
  method LatestStart(name: string, q: string, end: nat) returns (start: nat)
    requires q != [] && end < |name| && IsSubsequence(q, name[..end + 1]) && !IsSubsequence(q, name[..end])
    ensures Window(name, q, start, end)
  {
    var qj: nat, idx: nat := |q|, end + 1;
    start := end;
    hide IsSubsequence, GreedyBack;
    BackStart(q, name[end + 1..end + 1]);
    while idx > 0 && qj > 0
      invariant 0 <= idx <= end + 1 && qj <= |q|
      invariant GreedyBack(q, name[idx..end + 1], qj)
      invariant qj == 0 ==> idx == start <= end && !IsSubsequence(q, name[start + 1..end + 1])
    {
      BackFar(q, name[idx..end + 1], qj, name[idx - 1]);
      assert [name[idx - 1]] + name[idx..end + 1] == name[idx - 1..end + 1];
      idx := idx - 1;
      if name[idx] == q[qj - 1] {
        qj := qj - 1;
        start := idx;
      }
    }
    BackDone(name, q, end, idx, qj);
  }

  lemma BackFar(q: string, t: string, qj: nat, c: char)
    requires GreedyBack(q, t, qj) && 0 < qj <= |q|
    ensures GreedyBack(q, [c] + t, if c == q[qj - 1] then qj - 1 else qj) && !IsSubsequence(q, t)
  {
    GreedyBackStep(q, t, qj, c);
    BackShort(q, t, qj);
  }

  lemma BackShort(q: string, t: string, qj: nat)
    requires GreedyBack(q, t, qj) && qj > 0
    ensures !IsSubsequence(q, t)
  {
    if IsSubsequence(q, t) {
      SubSuffix(q, t, qj - 1);
    }
  }

  lemma BackStart(q: string, t: string)
    requires q != [] && t == []
    ensures GreedyBack(q, t, |q|)
  {
  }

  /** The pass cannot run off the front with the query incomplete: the whole of it is there. */
  lemma BackDone(name: string, q: string, end: nat, idx: nat, qj: nat)
    requires end < |name| && IsSubsequence(q, name[..end + 1]) && idx <= end + 1 && (idx == 0 || qj == 0)
    requires GreedyBack(q, name[idx..end + 1], qj)
    ensures qj == 0 && IsSubsequence(q, name[idx..end + 1])
  {
    assert q[0..] == q;
    if qj > 0 {
      assert name[0..end + 1] == name[..end + 1];
      BackShort(q, name[idx..end + 1], qj);
    }
  }

  /** There is only one such window. */
  lemma WindowUnique(name: string, q: string, s0: nat, e0: nat, s1: nat, e1: nat)
    requires Window(name, q, s0, e0) && Window(name, q, s1, e1)
    ensures s0 == s1 && e0 == e1
  {
    if e0 < e1 {
      SubGrowsTo(q, name, e0 + 1, e1);
    } else if e1 < e0 {
      SubGrowsTo(q, name, e1 + 1, e0);
    }
    if s0 < s1 {
      SubFrontTo(q, name, s0 + 1, s1, e0 + 1);
    } else if s1 < s0 {
      SubFrontTo(q, name, s1 + 1, s0, e0 + 1);
    }
  }

  lemma SubGrowsTo(q: string, name: string, n: nat, m: nat)
    requires n <= m <= |name| && IsSubsequence(q, name[..n])
    ensures IsSubsequence(q, name[..m])
  {
    assert name[..m][..n] == name[..n];
    SubGrows(q, name[..m], n);
  }

  lemma {:induction false} SubFrontTo(q: string, name: string, from: nat, at: nat, end: nat)
    requires from <= at <= end <= |name| && IsSubsequence(q, name[at..end])
    ensures IsSubsequence(q, name[from..end])
    decreases at - from
  {
    if from < at {
      SubFront(q, name[at - 1], name[at..end]);
      assert [name[at - 1]] + name[at..end] == name[at - 1..end];
      SubFrontTo(q, name, from, at - 1, end);
    }
  }

  /** The density the fuzzy tier ranks by. */
  ghost function DensityOf(name: string, q: string): Option<real> {
    if exists start: nat, end: nat :: Window(name, q, start, end) then
      var start: nat, end: nat :| Window(name, q, start, end);
      Some(Density(q, start, end))
    else None
  }

  /** Density of the query in the name: none unless it is a subsequence, then over the tightened earliest window. */
  method FuzzyDensity(name: string, q: string) returns (d: Option<real>)
    requires q != []
    ensures d == DensityOf(name, q)
    ensures d.Some? <==> IsSubsequence(q, name)
    ensures d.Some? ==> 0.0 < d.value <= 1.0
  {
    var end := EarliestEnd(name, q);
    if end.None? {
      NoWindow(name, q);
      return None;
    }
    var start := LatestStart(name, q, end.value);
    DensityRange(name, q, start, end.value);
    DensityIs(name, q, start, end.value);
    d := Some(Density(q, start, end.value));
  }

  lemma DensityIs(name: string, q: string, start: nat, end: nat)
    requires Window(name, q, start, end)
    ensures DensityOf(name, q) == Some(Density(q, start, end))
  {
    forall s: nat, e: nat | Window(name, q, s, e) ensures s == start && e == end {
      WindowUnique(name, q, s, e, start, end);
    }
  }

  /** A subsequence has a window, so a density. */
  lemma DensityExists(name: string, q: string)
    requires q != [] && IsSubsequence(q, name)
    ensures exists start: nat, end: nat ::
              Window(name, q, start, end) && DensityOf(name, q) == Some(Density(q, start, end))
  {
    assert name[..|name|] == name;
    var end := FirstEnd(name, q, |name|);
    assert name[0..end + 1] == name[..end + 1];
    var start := LastStart(name, q, end, 0);
    DensityIs(name, q, start, end);
  }

  lemma {:induction false} FirstEnd(name: string, q: string, n: nat) returns (end: nat)
    requires q != [] && n <= |name| && IsSubsequence(q, name[..n])
    ensures end < n && IsSubsequence(q, name[..end + 1]) && !IsSubsequence(q, name[..end])
    decreases n
  {
    if n > 0 && IsSubsequence(q, name[..n - 1]) {
      end := FirstEnd(name, q, n - 1);
    } else {
      end := n - 1;
    }
  }

  lemma {:induction false} LastStart(name: string, q: string, end: nat, from: nat) returns (start: nat)
    requires q != [] && end < |name| && from <= end
    requires IsSubsequence(q, name[..end + 1]) && !IsSubsequence(q, name[..end])
    requires IsSubsequence(q, name[from..end + 1])
    ensures Window(name, q, start, end)
    decreases end - from
  {
    if IsSubsequence(q, name[from + 1..end + 1]) {
      assert |name[from + 1..end + 1]| == end - from;
      start := LastStart(name, q, end, from + 1);
    } else {
      start := from;
    }
  }

  lemma NoWindow(name: string, q: string)
    requires !IsSubsequence(q, name)
    ensures DensityOf(name, q) == None
  {
    forall start: nat, end: nat ensures !Window(name, q, start, end) {
      if Window(name, q, start, end) {
        SubGrows(q, name, end + 1);
      }
    }
  }

  /** The bound a fuzzy offer never exceeds, and why its tier's floor would be the wrong bound. */
  lemma FuzzyBase(name: string, q: string)
    requires q != [] && DensityOf(name, q).Some?
    ensures TierBase(Fuzzy) < 0.3 + 0.2 * DensityOf(name, q).value <= TierUpperBound(Fuzzy)
    ensures IsSubsequence(q, name)
  {
    if !IsSubsequence(q, name) {
      NoWindow(name, q);
    }
    var start: nat, end: nat :| Window(name, q, start, end) && DensityOf(name, q) == Some(Density(q, start, end));
    DensityRange(name, q, start, end);
  }

  // ---- the verification budget ------------------------------------------------------------------

  const FUZZY_CAP: nat := 20000

  function SumTo(counts: seq<nat>, n: nat): nat
    requires n <= |counts|
  {
    if n == 0 then 0 else SumTo(counts, n - 1) + counts[n - 1]
  }

  function Lesser(a: nat, b: nat): nat {
    if a <= b then a else b
  }

  /** Candidates shallower than the cut, and as many at the cut as the quota allows. */
  function Retained(byDepth: seq<nat>, cut: nat, quota: nat): nat
    requires cut < |byDepth|
  {
    SumTo(byDepth, cut) + Lesser(byDepth[cut], quota)
  }

  /** Where the budget runs out: exactly `min(survivors, FUZZY_CAP)` candidates are retained, shallowest first. */
  method FuzzyCapCut(byDepth: seq<nat>, survivors: nat) returns (cut: nat, quota: nat)
    requires |byDepth| == RANK_DEPTH_MAX + 1 && survivors == SumTo(byDepth, |byDepth|)
    ensures cut <= RANK_DEPTH_MAX && Retained(byDepth, cut, quota) == Lesser(survivors, FUZZY_CAP)
  {
    if survivors <= FUZZY_CAP {
      return RANK_DEPTH_MAX, FUZZY_CAP;
    }
    var acc := 0;
    for d := 0 to |byDepth|
      invariant acc == SumTo(byDepth, d) < FUZZY_CAP
    {
      if acc + byDepth[d] >= FUZZY_CAP {
        return d, FUZZY_CAP - acc;
      }
      acc := acc + byDepth[d];
    }
    cut, quota := RANK_DEPTH_MAX, FUZZY_CAP;
  }
}
