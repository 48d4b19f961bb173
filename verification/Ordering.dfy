/** Sorting, de-duplication by slot, and what makes two rankings agree on their first `k` rows. */
module Ordering {
  import opened Bytes
  import opened Ranking

  /** Best first: nothing later is better than anything earlier. */
  predicate BestFirst(s: seq<Scored>) {
    forall i, j :: 0 <= i < j < |s| ==> !Better(s[j], s[i])
  }

  predicate DistinctSlots(s: seq<Scored>) {
    forall i, j :: 0 <= i < j < |s| ==> s[i].slot != s[j].slot
  }

  /** The drain's first order: by slot, best first within a slot. */
  predicate SlotThenBest(a: Scored, b: Scored) {
    a.slot < b.slot || (a.slot == b.slot && Better(a, b))
  }

  predicate InSlotOrder(s: seq<Scored>) {
    forall i, j :: 0 <= i < j < |s| ==> !SlotThenBest(s[j], s[i])
  }

  function InsertBest(x: Scored, s: seq<Scored>): (r: seq<Scored>)
    ensures |r| == |s| + 1
    ensures forall y :: y in r <==> y == x || y in s
  {
    if s == [] || Better(x, s[0]) then [x] + s else [s[0]] + InsertBest(x, s[1..])
  }

  lemma {:induction false} InsertBestSorted(x: Scored, s: seq<Scored>)
    requires BestFirst(s)
    ensures BestFirst(InsertBest(x, s))
  {
    if s != [] && !Better(x, s[0]) {
      InsertBestSorted(x, s[1..]);
      var t := InsertBest(x, s[1..]);
      forall y | y in t ensures !Better(y, s[0]) {
        if y != x {
          assert y in s[1..];
        }
      }
    }
  }

  lemma {:induction false} InsertBestDistinct(x: Scored, s: seq<Scored>)
    requires DistinctSlots(s) && forall y :: y in s ==> y.slot != x.slot
    ensures DistinctSlots(InsertBest(x, s))
  {
    if s != [] && !Better(x, s[0]) {
      InsertBestDistinct(x, s[1..]);
      var t := InsertBest(x, s[1..]);
      forall y | y in t ensures y.slot != s[0].slot {
        if y != x {
          assert y in s[1..];
        }
      }
    }
  }

  function SortBest(s: seq<Scored>): (r: seq<Scored>)
    ensures |r| == |s|
    ensures forall y :: y in r <==> y in s
  {
    if s == [] then [] else InsertBest(s[0], SortBest(s[1..]))
  }

  lemma {:induction false} SortBestSorted(s: seq<Scored>)
    ensures BestFirst(SortBest(s))
    ensures DistinctSlots(s) ==> DistinctSlots(SortBest(s))
  {
    if s != [] {
      SortBestSorted(s[1..]);
      InsertBestSorted(s[0], SortBest(s[1..]));
      if DistinctSlots(s) {
        InsertBestDistinct(s[0], SortBest(s[1..]));
      }
    }
  }

  function InsertBySlot(x: Scored, s: seq<Scored>): (r: seq<Scored>)
    ensures |r| == |s| + 1
    ensures forall y :: y in r <==> y == x || y in s
  {
    if s == [] || SlotThenBest(x, s[0]) then [x] + s else [s[0]] + InsertBySlot(x, s[1..])
  }

  lemma {:induction false} InsertBySlotSorted(x: Scored, s: seq<Scored>)
    requires InSlotOrder(s)
    ensures InSlotOrder(InsertBySlot(x, s))
  {
    if s != [] && !SlotThenBest(x, s[0]) {
      InsertBySlotSorted(x, s[1..]);
      var t := InsertBySlot(x, s[1..]);
      forall y | y in t ensures !SlotThenBest(y, s[0]) {
        if y != x {
          assert y in s[1..];
        }
      }
    }
  }

  function SortBySlot(s: seq<Scored>): (r: seq<Scored>)
    ensures |r| == |s|
    ensures forall y :: y in r <==> y in s
  {
    if s == [] then [] else InsertBySlot(s[0], SortBySlot(s[1..]))
  }

  lemma {:induction false} SortBySlotSorted(s: seq<Scored>)
    ensures InSlotOrder(SortBySlot(s))
  {
    if s != [] {
      SortBySlotSorted(s[1..]);
      InsertBySlotSorted(s[0], SortBySlot(s[1..]));
    }
  }

  /** `dedup_by_key`: the first element of each run of equal slots. */
  function Dedup(s: seq<Scored>): (r: seq<Scored>)
    ensures s != [] ==> r != [] && r[0] == s[0]
    ensures forall y :: y in r ==> y in s
  {
    if s == [] then []
    else
      var rest := Dedup(s[1..]);
      assert forall k :: 1 <= k < |rest| ==> rest[k] in s[1..];
      if |s| >= 2 && s[1].slot == s[0].slot then [s[0]] + rest[1..] else [s[0]] + rest
  }

  /** On a slot-ordered list, one element per slot survives. */
  lemma {:induction false} DedupDistinct(s: seq<Scored>)
    requires InSlotOrder(s)
    ensures DistinctSlots(Dedup(s))
  {
    if |s| >= 2 {
      DedupDistinct(s[1..]);
      var rest := Dedup(s[1..]);
      if s[1].slot == s[0].slot {
        assert forall k :: 1 <= k < |rest| ==> rest[k].slot != rest[0].slot;
      } else {
        forall y | y in rest ensures y.slot != s[0].slot {
          var i :| 1 <= i < |s| && s[i] == y;
          assert !SlotThenBest(s[1], s[0]);
          assert i > 1 ==> !SlotThenBest(s[i], s[1]);
        }
      }
    }
  }

  predicate Covers(d: seq<Scored>, x: Scored) {
    exists y :: y in d && y.slot == x.slot && !Better(x, y)
  }

  /** ... and the survivor is the slot's best. */
  lemma {:induction false} DedupKeepsBest(s: seq<Scored>)
    requires InSlotOrder(s)
    ensures forall x :: x in s ==> Covers(Dedup(s), x)
  {
    if s != [] {
      DedupKeepsBest(s[1..]);
      assert Covers(Dedup(s), s[0]) by { assert Dedup(s)[0] == s[0]; }
      forall x | x in s[1..] ensures Covers(Dedup(s), x) {
        CoverLifts(s, x);
      }
      assert forall x :: x in s ==> x == s[0] || x in s[1..];
    }
  }

  lemma CoverLifts(s: seq<Scored>, x: Scored)
    requires InSlotOrder(s) && |s| >= 2 && Covers(Dedup(s[1..]), x)
    ensures Covers(Dedup(s), x)
  {
    var d, rest := Dedup(s), Dedup(s[1..]);
    var y :| y in rest && y.slot == x.slot && !Better(x, y);
    if s[1].slot == s[0].slot {
      assert !SlotThenBest(s[1], s[0]);
      assert d[0] == s[0] && d[1..] == rest[1..];
      if y != rest[0] {
        assert y in rest[1..];
      }
    } else {
      assert d[1..] == rest;
    }
  }

  predicate HasBetterOrSame(r: seq<Scored>, x: Scored) {
    exists y :: y in r && y.slot == x.slot && (x == y || Better(y, x))
  }

  /** Two rankings of distinct slots, both best first. If the first `k` rows of `r` all appear in `p`, and each row of
      `p` is some row of `r` or a worse offer of the same slot, then the first `k` rows agree. */
  lemma {:induction false} SameTop(p: seq<Scored>, r: seq<Scored>, k: nat)
    requires BestFirst(p) && DistinctSlots(p) && BestFirst(r) && DistinctSlots(r)
    requires forall i :: 0 <= i < k && i < |r| ==> r[i] in p
    requires forall x :: x in p ==> HasBetterOrSame(r, x)
    ensures (if k <= |p| then p[..k] else p) == (if k <= |r| then r[..k] else r)
    decreases k
  {
    if k > 0 {
      var i := k - 1;
      SameTop(p, r, i);
      if i < |r| {
        NotBefore(r, i);
      }
      if i < |p| {
        assert p[i] in p;
        RowDetermined(p, r, i);
      }
    }
  }

  lemma NotBefore(r: seq<Scored>, i: nat)
    requires DistinctSlots(r) && i < |r|
    ensures r[i] !in r[..i]
  {
  }

  lemma RowDetermined(p: seq<Scored>, r: seq<Scored>, i: nat)
    requires BestFirst(p) && DistinctSlots(p) && BestFirst(r) && DistinctSlots(r)
    requires i < |p| && i <= |r| && p[..i] == r[..i]
    requires i < |r| ==> r[i] in p
    requires HasBetterOrSame(r, p[i])
    ensures i < |r| && p[i] == r[i]
  {
    var y :| y in r && y.slot == p[i].slot && (p[i] == y || Better(y, p[i]));
    var j :| 0 <= j < |r| && r[j] == y;
    if j < i {
      SamePrefix(p, r, i, j);
    }
    var n :| 0 <= n < |p| && p[n] == r[i];
    if n < i {
      SamePrefix(p, r, i, n);
    }
  }

  lemma SamePrefix<T>(p: seq<T>, r: seq<T>, i: nat, j: nat)
    requires j < i <= |p| && i <= |r| && p[..i] == r[..i]
    ensures p[j] == r[j]
  {
    assert p[..i][j] == r[..i][j];
  }
}
