/** The bounded heap the passes offer into, and why draining it gives the exhaustive page. */
module Selecting {
  import opened Bytes
  import opened Ranking
  import opened Ordering

  // ---- the exhaustive ranking the heap is measured against -------------------

  /** One best offer per slot, or none; `refs[s]` belongs to slot `s`. */
  predicate RefsOk(refs: seq<Option<Scored>>) {
    forall s :: 0 <= s < |refs| && refs[s].Some? ==> refs[s].value.slot == s
  }

  /** Best offers of the first `n` slots, those the caller accepts. */
  function Collect(refs: seq<Option<Scored>>, accept: nat -> bool, n: nat): seq<Scored>
    requires n <= |refs|
  {
    if n == 0 then []
    else if refs[n - 1].Some? && accept(n - 1) then Collect(refs, accept, n - 1) + [refs[n - 1].value]
    else Collect(refs, accept, n - 1)
  }

  /** Every accepted slot's best offer, sorted: the list the page is the front of. */
  function Ranked(refs: seq<Option<Scored>>, accept: nat -> bool): seq<Scored> {
    SortBest(Collect(refs, accept, |refs|))
  }

  function Top<T>(s: seq<T>, k: nat): seq<T> {
    if k <= |s| then s[..k] else s
  }

  lemma {:induction false} Collected(refs: seq<Option<Scored>>, accept: nat -> bool, n: nat)
    requires RefsOk(refs) && n <= |refs|
    ensures DistinctSlots(Collect(refs, accept, n))
    ensures forall x :: x in Collect(refs, accept, n) <==> x.slot < n && accept(x.slot) && refs[x.slot] == Some(x)
  {
    if n > 0 {
      Collected(refs, accept, n - 1);
      var c := Collect(refs, accept, n - 1);
      assert forall i :: 0 <= i < |c| ==> c[i] in c;
    }
  }

  lemma RankedIs(refs: seq<Option<Scored>>, accept: nat -> bool)
    requires RefsOk(refs)
    ensures BestFirst(Ranked(refs, accept)) && DistinctSlots(Ranked(refs, accept))
    ensures forall x :: x in Ranked(refs, accept) <==> x.slot < |refs| && accept(x.slot) && refs[x.slot] == Some(x)
  {
    Collected(refs, accept, |refs|);
    SortBestSorted(Collect(refs, accept, |refs|));
  }

  // ---- counting offers per slot ------------------------------------------------

  function CountSlot(s: seq<Scored>, slot: nat): nat {
    if s == [] then 0 else (if s[0].slot == slot then 1 else 0) + CountSlot(s[1..], slot)
  }

  function Without(s: seq<Scored>, slot: nat): (r: seq<Scored>)
    ensures forall x :: x in r <==> x in s && x.slot != slot
  {
    if s == [] then []
    else if s[0].slot == slot then Without(s[1..], slot)
    else [s[0]] + Without(s[1..], slot)
  }

  lemma {:induction false} CountWithout(s: seq<Scored>, slot: nat, other: nat)
    ensures |s| == CountSlot(s, slot) + |Without(s, slot)|
    ensures other != slot ==> CountSlot(Without(s, slot), other) == CountSlot(s, other)
  {
    if s != [] {
      CountWithout(s[1..], slot, other);
      assert s[0].slot != slot ==> Without(s, slot)[1..] == Without(s[1..], slot);
    }
  }

  predicate Confined(s: seq<Scored>, slots: set<nat>, m: nat) {
    forall x :: x in s ==> x.slot in slots && CountSlot(s, x.slot) <= m
  }

  lemma ConfinedWithout(s: seq<Scored>, slots: set<nat>, m: nat, a: nat)
    requires Confined(s, slots, m)
    ensures Confined(Without(s, a), slots - {a}, m)
  {
    forall x | x in Without(s, a) ensures x.slot in slots - {a} && CountSlot(Without(s, a), x.slot) <= m {
      CountWithout(s, a, x.slot);
    }
  }

  /** Offers confined to `n` slots, at most `m` each, number at most `m * n`. */
  lemma {:induction false} Pigeonhole(s: seq<Scored>, slots: set<nat>, m: nat, n: nat)
    requires Confined(s, slots, m) && |slots| <= n
    ensures |s| <= m * n
    decreases n
  {
    if s != [] {
      var a := s[0].slot;
      assert s[0] in s;
      CountWithout(s, a, a);
      ConfinedWithout(s, slots, m, a);
      hide CountSlot, Without;
      assert |slots - {a}| == |slots| - 1;
      Pigeonhole(Without(s, a), slots - {a}, m, n - 1);
      MulStep(m, n - 1);
    } else {
      MulLe(m, 0, n);
    }
  }

  lemma MulLe(m: nat, a: nat, b: nat)
    requires a <= b
    ensures m * a <= m * b
  {
  }

  lemma MulStep(m: nat, n: nat)
    ensures m * (n + 1) == m * n + m
  {
  }

  lemma {:induction false} CountInsert(x: Scored, s: seq<Scored>, slot: nat)
    ensures CountSlot(InsertBest(x, s), slot) == CountSlot(s, slot) + (if x.slot == slot then 1 else 0)
  {
    if s == [] || Better(x, s[0]) {
      assert ([x] + s)[1..] == s;
    } else {
      CountInsert(x, s[1..], slot);
      assert InsertBest(x, s)[1..] == InsertBest(x, s[1..]);
    }
  }

  lemma {:induction false} CountPrefix(s: seq<Scored>, n: nat, slot: nat)
    requires n <= |s|
    ensures CountSlot(s[..n], slot) <= CountSlot(s, slot)
  {
    if n > 0 {
      CountPrefix(s[1..], n - 1, slot);
      assert s[..n][1..] == s[1..][..n - 1];
    }
  }

  // ---- draining ------------------------------------------------------------------

  /** `x` is a slot's best offer or a worse one for the same, accepted, slot. */
  predicate Sound(refs: seq<Option<Scored>>, accept: nat -> bool, x: Scored) {
    && x.slot < |refs| && accept(x.slot) && refs[x.slot].Some?
    && (x == refs[x.slot].value || Better(refs[x.slot].value, x))
  }

  /** `c` is held, or the heap is full of offers at least as good. */
  predicate CoveredBy(heap: seq<Scored>, cap: nat, c: Scored) {
    c in heap || (0 < |heap| == cap && !Better(c, heap[|heap| - 1]))
  }

  /** Sort by slot, keep each slot's best, sort best first. */
  function Page(heap: seq<Scored>): seq<Scored> {
    SortBest(Dedup(SortBySlot(heap)))
  }

  lemma PageIs(heap: seq<Scored>)
    ensures BestFirst(Page(heap)) && DistinctSlots(Page(heap))
    ensures forall x :: x in Page(heap) ==> x in heap
    ensures forall x :: x in heap ==> Covers(Page(heap), x)
  {
    hide SortBySlot, Dedup, SortBest, Better, BestFirst, DistinctSlots;
    var a := SortBySlot(heap);
    SortBySlotSorted(heap);
    DedupDistinct(a);
    DedupKeepsBest(a);
    SortBestSorted(Dedup(a));
    forall x | x in heap ensures Covers(Page(heap), x) {
      assert x in a;
      var y :| y in Dedup(a) && y.slot == x.slot && !Better(x, y);
      assert y in Page(heap);
    }
  }

  /** What a page is: the heap's offers, no slot twice, each slot's best, best first; what it leaves out is no better
      than what fills it. */
  ghost predicate IsPage(page: seq<Scored>, heap: seq<Scored>, k: nat) {
    && BestFirst(page) && DistinctSlots(page) && |page| <= k
    && (forall x :: x in page ==> x in heap)
    && (forall x, y :: x in page && y in heap && y.slot == x.slot ==> !Better(y, x))
    && (forall x :: x in heap ==> Covers(page, x) || (|page| == k && forall y :: y in page ==> !Better(x, y)))
  }

  lemma TopIsPage(heap: seq<Scored>, k: nat)
    ensures IsPage(Top(Page(heap), k), heap, k)
  {
    hide Page, Covers, Better;
    PageIs(heap);
    var all, page := Page(heap), Top(Page(heap), k);
    forall x, y | x in page && y in heap && y.slot == x.slot ensures !Better(y, x) {
      CoveredBest(all, x, y);
    }
    forall x | x in heap ensures Covers(page, x) || (|page| == k && forall y :: y in page ==> !Better(x, y)) {
      CutAt(all, k, x);
    }
  }

  /** Among distinct slots that cover `y`, the one of `y`'s slot is no worse. */
  lemma CoveredBest(all: seq<Scored>, x: Scored, y: Scored)
    requires DistinctSlots(all) && x in all && Covers(all, y) && y.slot == x.slot
    ensures !Better(y, x)
  {
    var z :| z in all && z.slot == y.slot && !Better(y, z);
    SameSlotSame(all, x, z);
  }

  /** What a cut leaves out is no better than what it keeps. */
  lemma CutAt(all: seq<Scored>, k: nat, x: Scored)
    requires BestFirst(all) && Covers(all, x)
    ensures var page := Top(all, k); Covers(page, x) || (|page| == k && forall y :: y in page ==> !Better(x, y))
  {
    var page := Top(all, k);
    var z :| z in all && z.slot == x.slot && !Better(x, z);
    var i :| 0 <= i < |all| && all[i] == z;
    if i < |page| {
      assert page[i] in page;
    } else {
      forall y | y in page ensures !Better(x, y) {
        var j :| 0 <= j < |page| && page[j] == y;
        assert !Better(all[i], all[j]);
      }
    }
  }

  lemma SameSlotSame(s: seq<Scored>, x: Scored, y: Scored)
    requires DistinctSlots(s) && x in s && y in s && x.slot == y.slot
    ensures x == y
  {
  }

  function SlotsOf(s: seq<Scored>): set<nat> {
    set x | x in s :: x.slot
  }

  lemma {:induction false} SlotsBound(s: seq<Scored>)
    ensures |SlotsOf(s)| <= |s|
  {
    if s != [] {
      SlotsBound(s[..|s| - 1]);
      assert SlotsOf(s) == SlotsOf(s[..|s| - 1]) + {s[|s| - 1].slot};
    }
  }

  /** Every held offer is sound and was counted when it was offered. */
  predicate HeapCounted(heap: seq<Scored>, refs: seq<Option<Scored>>, accept: nat -> bool, offers: seq<nat>) {
    && |offers| == |refs|
    && forall x :: x in heap ==> Sound(refs, accept, x) && CountSlot(heap, x.slot) <= offers[x.slot]
  }

  /** A slot's bit is set exactly when it has been offered. */
  predicate SeenOk(seen: set<nat>, offers: seq<nat>) {
    forall s :: 0 <= s < |offers| ==> (s in seen <==> offers[s] > 0)
  }

  /** `x` may be offered: its slot's best offer, or a worse one, and then the best is not a fuzzy one. */
  predicate Fits(refs: seq<Option<Scored>>, x: Scored) {
    && x.slot < |refs| && refs[x.slot].Some?
    && (x == refs[x.slot].value || (Better(refs[x.slot].value, x) && !refs[x.slot].value.tier.Fuzzy?))
  }

  /** A slot whose best offer is fuzzy has been offered nothing else. */
  ghost predicate FuzzyHeld(heap: seq<Scored>, cap: nat, accept: nat -> bool, refs: seq<Option<Scored>>,
                            offers: seq<nat>) {
    forall s ::
      0 <= s < |refs| && s < |offers| && offers[s] > 0 && refs[s].Some? && refs[s].value.tier.Fuzzy? && accept(s) ==>
      CoveredBy(heap, cap, refs[s].value)
  }

  lemma FuzzyHeldMore(h0: seq<Scored>, h1: seq<Scored>, cap: nat, accept: nat -> bool, refs: seq<Option<Scored>>,
                      offers: seq<nat>, x: Scored)
    requires 0 < cap && FuzzyHeld(h0, cap, accept, refs, offers) && Advances(h0, h1, cap) && Fits(refs, x)
    requires x.slot < |offers|
    requires accept(x.slot) ==> CoveredBy(h1, cap, x)
    ensures FuzzyHeld(h1, cap, accept, refs, offers[x.slot := offers[x.slot] + 1])
  {
    hide CoveredBy, Better;
  }

  predicate HeapOk(heap: seq<Scored>, m: nat, refs: seq<Option<Scored>>, accept: nat -> bool) {
    BestFirst(heap) && forall x :: x in heap ==> Sound(refs, accept, x) && CountSlot(heap, x.slot) <= m
  }

  /** A held offer at least as good as an absent best offer belongs to a slot ranked above it. */
  lemma HeldRanksAbove(refs: seq<Option<Scored>>, accept: nat -> bool, r: seq<Scored>, i: nat, x: Scored)
    requires BestFirst(r) && i < |r|
    requires forall y :: y in r <==> y.slot < |refs| && accept(y.slot) && refs[y.slot] == Some(y)
    requires RefsOk(refs) && Sound(refs, accept, x) && x != r[i] && !Better(r[i], x)
    ensures x.slot in SlotsOf(r[..i])
  {
    var y := refs[x.slot].value;
    assert y in r && r[i] in r;
    var n :| 0 <= n < |r| && r[n] == y;
    assert Better(y, r[i]);
    assert r[..i][n] == y;
  }

  /** One of the `k` best rows cannot have been crowded out of a heap of `m * k` offers, `m` per slot. */
  lemma TopRowHeld(heap: seq<Scored>, m: nat, k: nat, refs: seq<Option<Scored>>, accept: nat -> bool, i: nat)
    requires RefsOk(refs) && 0 < m && 0 < k && HeapOk(heap, m, refs, accept)
    requires i < |Ranked(refs, accept)| && i < k
    requires CoveredBy(heap, m * k, Ranked(refs, accept)[i])
    ensures Ranked(refs, accept)[i] in heap
  {
    RankedIs(refs, accept);
    var r := Ranked(refs, accept);
    hide Ranked, CountSlot, RefsOk, Better;
    if r[i] !in heap {
      assert Confined(heap, SlotsOf(r[..i]), m) by {
        forall x | x in heap ensures x.slot in SlotsOf(r[..i]) {
          NoneBelowLast(heap, r[i], x);
          HeldRanksAbove(refs, accept, r, i, x);
        }
      }
      SlotsBound(r[..i]);
      hide SlotsOf;
      MulStep(m, k - 1);
      Pigeonhole(heap, SlotsOf(r[..i]), m, k - 1);
    }
  }

  lemma NoneBelowLast(heap: seq<Scored>, c: Scored, x: Scored)
    requires BestFirst(heap) && x in heap && !Better(c, heap[|heap| - 1])
    ensures !Better(c, x)
  {
    var j :| 0 <= j < |heap| && heap[j] == x;
    assert j < |heap| - 1 ==> !Better(heap[|heap| - 1], heap[j]);
  }

  /** Every row of the front of the ranking survives the drain. */
  lemma RowsDrained(heap: seq<Scored>, m: nat, k: nat, refs: seq<Option<Scored>>, accept: nat -> bool, i: nat)
    requires RefsOk(refs) && 0 < m && 0 < k && HeapOk(heap, m, refs, accept)
    requires forall s :: 0 <= s < |refs| && refs[s].Some? && accept(s) ==> CoveredBy(heap, m * k, refs[s].value)
    requires i < k && i < |Ranked(refs, accept)|
    ensures Ranked(refs, accept)[i] in Page(heap)
  {
    RankedIs(refs, accept);
    PageIs(heap);
    var p, r := Page(heap), Ranked(refs, accept);
    hide Page, Ranked, CoveredBy, CountSlot, Better, BestFirst, DistinctSlots, Covers;
    assert r[i] in r;
    TopRowHeld(heap, m, k, refs, accept, i);
    BestSurvives(heap, p, refs, accept, r[i]);
  }

  /** No drained row outranks what the ranking has for its slot. */
  lemma RowsBounded(heap: seq<Scored>, m: nat, refs: seq<Option<Scored>>, accept: nat -> bool, x: Scored)
    requires RefsOk(refs) && HeapOk(heap, m, refs, accept) && x in Page(heap)
    ensures HasBetterOrSame(Ranked(refs, accept), x)
  {
    RankedIs(refs, accept);
    PageIs(heap);
    hide Page, Ranked, CountSlot, BestFirst, DistinctSlots, Covers;
    assert Sound(refs, accept, x);
    assert refs[x.slot].value in Ranked(refs, accept);
  }

  /** Draining gives the front of the exhaustive ranking. */
  lemma DrainIsTop(heap: seq<Scored>, m: nat, k: nat, refs: seq<Option<Scored>>, accept: nat -> bool)
    requires RefsOk(refs) && 0 < m && 0 < k && HeapOk(heap, m, refs, accept)
    requires forall s :: 0 <= s < |refs| && refs[s].Some? && accept(s) ==> CoveredBy(heap, m * k, refs[s].value)
    ensures Top(Page(heap), k) == Top(Ranked(refs, accept), k)
  {
    hide Page, Ranked, CoveredBy, HeapOk, RefsOk, HasBetterOrSame, BestFirst, DistinctSlots, Covers, Better;
    var p, r := Page(heap), Ranked(refs, accept);
    forall i | 0 <= i < k && i < |r| ensures r[i] in p {
      RowsDrained(heap, m, k, refs, accept, i);
    }
    forall x | x in p ensures HasBetterOrSame(r, x) {
      RowsBounded(heap, m, refs, accept, x);
    }
    RankedIs(refs, accept);
    PageIs(heap);
    SameTop(p, r, k);
  }

  lemma BestSurvives(heap: seq<Scored>, p: seq<Scored>, refs: seq<Option<Scored>>, accept: nat -> bool, c: Scored)
    requires c in heap && Covers(p, c) && (forall x :: x in p ==> x in heap)
    requires forall x :: x in heap ==> Sound(refs, accept, x)
    requires c.slot < |refs| && refs[c.slot] == Some(c)
    ensures c in p
  {
    var y :| y in p && y.slot == c.slot && !Better(c, y);
    assert Sound(refs, accept, y);
  }

  /** The heap after admitting `s`: pushed while there is room, in place of the root once full. */
  function Admit(heap: seq<Scored>, cap: nat, s: Scored): (r: seq<Scored>)
    requires 0 < cap && |heap| <= cap
    ensures |r| == if |heap| < cap then |heap| + 1 else cap
  {
    if |heap| < cap then InsertBest(s, heap) else InsertBest(s, heap[..cap - 1])
  }

  lemma AdmitKeepsHeap(heap: seq<Scored>, cap: nat, s: Scored)
    requires 0 < cap && |heap| <= cap && BestFirst(heap)
    ensures BestFirst(Admit(heap, cap, s))
    ensures forall x :: x in Admit(heap, cap, s) ==> x == s || x in heap
  {
    if |heap| < cap {
      InsertBestSorted(s, heap);
    } else {
      InsertBestSorted(s, heap[..cap - 1]);
      assert forall x :: x in heap[..cap - 1] ==> x in heap;
    }
  }

  lemma AdmitCounts(heap: seq<Scored>, cap: nat, s: Scored, slot: nat)
    requires 0 < cap && |heap| <= cap
    ensures CountSlot(Admit(heap, cap, s), slot) <= CountSlot(heap, slot) + (if s.slot == slot then 1 else 0)
  {
    if |heap| < cap {
      CountInsert(s, heap, slot);
    } else {
      CountInsert(s, heap[..cap - 1], slot);
      CountPrefix(heap, cap - 1, slot);
    }
  }

  /** Admission never uncovers anything, and the worst held offer never gets worse. */
  lemma AdmitCovers(heap: seq<Scored>, cap: nat, s: Scored, c: Scored)
    requires 0 < cap && |heap| <= cap && BestFirst(heap)
    requires |heap| == cap ==> Better(s, heap[cap - 1])
    ensures CoveredBy(Admit(heap, cap, s), cap, s)
    ensures CoveredBy(heap, cap, c) ==> CoveredBy(Admit(heap, cap, s), cap, c)
    ensures |heap| == cap ==> Admit(heap, cap, s)[cap - 1].score >= heap[cap - 1].score
  {
    AdmitKeepsHeap(heap, cap, s);
    var h := Admit(heap, cap, s);
    if |heap| == cap {
      var old_, new_ := heap[cap - 1], h[cap - 1];
      assert new_ == s || new_ in heap[..cap - 1] by {
        assert new_ in h;
      }
      assert !Better(old_, new_) by {
        if new_ != s {
          var j :| 0 <= j < cap - 1 && heap[j] == new_;
          assert !Better(heap[cap - 1], heap[j]);
        }
      }
      if c in heap && c !in h {
        assert heap == heap[..cap - 1] + [old_];
        assert c == old_;
      }
    }
  }

  /** What one admission does to a counted heap. */
  lemma Admitted(heap: seq<Scored>, cap: nat, s: Scored, refs: seq<Option<Scored>>, accept: nat -> bool,
                 offers: seq<nat>)
    requires 0 < cap && |heap| <= cap && BestFirst(heap) && HeapCounted(heap, refs, accept, offers)
    requires |heap| == cap ==> Better(s, heap[cap - 1])
    requires Sound(refs, accept, s)
    ensures BestFirst(Admit(heap, cap, s))
    ensures HeapCounted(Admit(heap, cap, s), refs, accept, offers[s.slot := offers[s.slot] + 1])
    ensures CoveredBy(Admit(heap, cap, s), cap, s)
    ensures forall c :: CoveredBy(heap, cap, c) ==> CoveredBy(Admit(heap, cap, s), cap, c)
    ensures |heap| == cap ==> Admit(heap, cap, s)[cap - 1].score >= heap[cap - 1].score
  {
    AdmitKeepsHeap(heap, cap, s);
    var h, o := Admit(heap, cap, s), offers[s.slot := offers[s.slot] + 1];
    forall x | x in h ensures Sound(refs, accept, x) && CountSlot(h, x.slot) <= o[x.slot] {
      AdmitCounts(heap, cap, s, x.slot);
      if x !in heap {
        NotHeldCount(heap, x.slot, offers, refs, accept);
      }
    }
    forall c ensures CoveredBy(heap, cap, c) ==> CoveredBy(h, cap, c) {
      AdmitCovers(heap, cap, s, c);
    }
    AdmitCovers(heap, cap, s, s);
  }

  lemma CountedMore(heap: seq<Scored>, refs: seq<Option<Scored>>, accept: nat -> bool, offers: seq<nat>, slot: nat)
    requires HeapCounted(heap, refs, accept, offers) && slot < |offers|
    ensures HeapCounted(heap, refs, accept, offers[slot := offers[slot] + 1])
  {
  }

  lemma SeenMore(seen: set<nat>, offers: seq<nat>, slot: nat)
    requires SeenOk(seen, offers) && slot < |offers|
    ensures SeenOk(seen + {slot}, offers[slot := offers[slot] + 1])
  {
  }

  /** A slot's count never exceeds its offers, held or not. */
  lemma {:induction false} NotHeldCount(heap: seq<Scored>, slot: nat, offers: seq<nat>, refs: seq<Option<Scored>>,
                                        accept: nat -> bool)
    requires HeapCounted(heap, refs, accept, offers) && slot < |offers|
    ensures CountSlot(heap, slot) <= offers[slot]
  {
    if CountSlot(heap, slot) > 0 {
      var x := Witness(heap, slot);
    }
  }

  lemma {:induction false} Witness(heap: seq<Scored>, slot: nat) returns (x: Scored)
    requires CountSlot(heap, slot) > 0
    ensures x in heap && x.slot == slot
  {
    if heap[0].slot == slot {
      x := heap[0];
    } else {
      x := Witness(heap[1..], slot);
    }
  }

  /** The heap after an offer: the filter is asked only about offers that would be admitted. */
  function Offered(heap: seq<Scored>, cap: nat, ok: bool, s: Scored): (r: seq<Scored>)
    requires 0 < cap && |heap| <= cap
    ensures |r| <= cap
  {
    if ok && (|heap| < cap || Better(s, heap[cap - 1])) then Admit(heap, cap, s) else heap
  }

  function FloorOf(heap: seq<Scored>, cap: nat): Option<real>
    requires 0 < cap
  {
    if |heap| == cap then Some(heap[cap - 1].score) else None
  }

  /** Nothing covered is uncovered, and a full heap stays full with its worst offer no worse. */
  ghost predicate Advances(h0: seq<Scored>, h1: seq<Scored>, cap: nat)
    requires 0 < cap
  {
    && (forall c :: CoveredBy(h0, cap, c) ==> CoveredBy(h1, cap, c))
    && (|h0| == cap ==> |h1| == cap && h1[cap - 1].score >= h0[cap - 1].score)
  }

  lemma OfferedOk(heap: seq<Scored>, cap: nat, s: Scored, refs: seq<Option<Scored>>, accept: nat -> bool,
                  offers: seq<nat>)
    requires 0 < cap && |heap| <= cap && BestFirst(heap) && HeapCounted(heap, refs, accept, offers)
    requires Fits(refs, s)
    ensures var h := Offered(heap, cap, accept(s.slot), s);
            && BestFirst(h)
            && HeapCounted(h, refs, accept, offers[s.slot := offers[s.slot] + 1])
            && (accept(s.slot) ==> CoveredBy(h, cap, s))
            && Advances(heap, h, cap)
  {
    CountedMore(heap, refs, accept, offers, s.slot);
    if accept(s.slot) && (|heap| < cap || Better(s, heap[cap - 1])) {
      Admitted(heap, cap, s, refs, accept, offers);
    }
  }

  /** Push while there is room, else replace the root if better; the filter runs last, the floor follows the root. */
  method AdmitInto(heap0: seq<Scored>, floor0: Option<real>, cap: nat, accept: nat -> bool, s: Scored)
    returns (heap: seq<Scored>, floor: Option<real>)
    requires 0 < cap && |heap0| <= cap && floor0 == FloorOf(heap0, cap)
    ensures heap == Offered(heap0, cap, accept(s.slot), s) && floor == FloorOf(heap, cap)
  {
    hide Better, InsertBest;
    heap, floor := heap0, floor0;
    if |heap| < cap {
      if accept(s.slot) {
        heap := InsertBest(s, heap);
        if |heap| == cap {
          floor := Some(heap[cap - 1].score);
        }
      }
    } else if Better(s, heap[cap - 1]) {
      if accept(s.slot) {
        heap := InsertBest(s, heap[..cap - 1]);
        floor := Some(heap[cap - 1].score);
      }
    }
  }

  // ---- the selector ------------------------------------------------------------

  class Selector {
    const accept: nat -> bool
    const cap: nat
    /** The min-heap's contents, best first; the root is the last element. */
    var heap: seq<Scored>
    /** Score of the worst held offer once the heap is full; `None` is negative infinity. */
    var floor: Option<real>
    var seen: set<nat>
    /** The exhaustive best offers, and how often each slot has been offered. */
    ghost const refs: seq<Option<Scored>>
    ghost var offers: seq<nat>

    ghost predicate Valid()
      reads this
    {
      && 0 < cap && |heap| <= cap && BestFirst(heap) && RefsOk(refs) && |offers| == |refs|
      && floor == FloorOf(heap, cap)
      && HeapCounted(heap, refs, accept, offers)
      && SeenOk(seen, offers) && FuzzyHeld(heap, cap, accept, refs, offers)
    }

    constructor (maxResults: nat, offersPerSlot: nat, ghost refs: seq<Option<Scored>>, accept: nat -> bool)
      requires RefsOk(refs)
      ensures Valid() && this.refs == refs && this.accept == accept
      ensures cap == (if maxResults * offersPerSlot > 0 then maxResults * offersPerSlot else 1)
      ensures offers == Repeat(0 as nat, |refs|) && heap == [] && seen == {}
    {
      var c := maxResults * offersPerSlot;
      this.cap := if c > 0 then c else 1;
      this.accept := accept;
      this.heap := [];
      this.floor := None;
      this.seen := {};
      this.refs := refs;
      this.offers := Repeat(0 as nat, |refs|);
    }

    predicate Full()
      reads this
    {
      |heap| >= cap
    }

    /** A candidate bounded by `ub` provably cannot reach the page. Strict: a tie still has the slot tie-break. */
    predicate Rejects(ub: real)
      reads this
      requires Full() ==> floor.Some?
    {
      Full() && ub < floor.value
    }

    /** A rejected bound covers every offer under it. */
    lemma RejectedIsCovered(ub: real, c: Scored)
      requires Valid() && Rejects(ub) && c.score <= ub
      ensures CoveredBy(heap, cap, c)
    {
    }

    method Offer(rankKey: seq<byte>, slot: nat, tier: Tier, base: real)
      requires Valid() && slot < |refs| && slot < |rankKey| && Fits(refs, Score(rankKey[slot], slot, tier, base))
      modifies this
      ensures Valid()
      ensures accept(slot) ==> CoveredBy(heap, cap, Score(rankKey[slot], slot, tier, base))
      ensures Advances(old(heap), heap, cap)
      ensures offers == old(offers)[slot := old(offers[slot]) + 1]
      ensures seen == old(seen) + {slot}
    {
      var s := Score(rankKey[slot], slot, tier, base);
      hide HeapCounted, BestFirst, CoveredBy, RefsOk, Score, Better, SeenOk, Advances, Offered, FloorOf, FuzzyHeld;
      hide Fits;
      SeenMore(seen, offers, slot);
      OfferedOk(heap, cap, s, refs, accept, offers);
      FuzzyHeldMore(heap, Offered(heap, cap, accept(slot), s), cap, accept, refs, offers, s);
      var next, bar := AdmitInto(heap, floor, cap, accept, s);
      heap, floor, seen, offers := next, bar, seen + {slot}, offers[slot := offers[slot] + 1];
    }

    /** The final page: one best offer per slot, best first, at most `maxResults`. */
    method Drain(maxResults: nat) returns (page: seq<Scored>)
      ensures IsPage(page, heap, maxResults)
      ensures page == Top(Page(heap), maxResults)
    {
      hide IsPage;
      TopIsPage(heap, maxResults);
      var all := SortBySlot(heap);
      all := Dedup(all);
      all := SortBest(all);
      page := if maxResults <= |all| then all[..maxResults] else all;
    }
  }
}
