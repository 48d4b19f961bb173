/** The n-gram presence sets that let a query skip a scan it cannot win. */
module Presence {
  import opened Bytes
  import opened Names
  import opened Table
  import opened Columns
  import opened Scanning

  /** Folded-arena size at which the trigram set is worth its own two mebibytes. */
  const TRI_PRESENT_MIN_ARENA: nat := 0x20_0000

  function BigramAt(t: seq<byte>, k: nat): nat
    requires k + 1 < |t|
  {
    t[k] as nat * 256 + t[k + 1]
  }

  function TrigramAt(t: seq<byte>, k: nat): nat
    requires k + 2 < |t|
  {
    t[k] as nat * 65536 + t[k + 1] as nat * 256 + t[k + 2]
  }

  /** A bit set of n-grams, by index. `tri` is absent while the arena is too small to have earned it. */
  datatype Grams = Grams(uni: set<nat>, bi: set<nat>, tri: Option<set<nat>>)

  predicate Noted(g: Grams, t: seq<byte>) {
    && (forall k :: 0 <= k < |t| ==> t[k] in g.uni)
    && (forall k :: 0 <= k < |t| - 1 ==> BigramAt(t, k) in g.bi)
    && (g.tri.Some? ==> forall k :: 0 <= k < |t| - 2 ==> TrigramAt(t, k) in g.tri.value)
  }

  predicate GramsCover(g: Grams, h: Grams) {
    g.uni <= h.uni && g.bi <= h.bi && (h.tri.Some? ==> g.tri.Some? && g.tri.value <= h.tri.value)
  }

  /** Record every byte, bigram and (when the set is held) trigram of one text. */
  method Note(g: Grams, t: seq<byte>) returns (h: Grams)
    ensures Noted(h, t) && GramsCover(g, h) && (h.tri.Some? <==> g.tri.Some?)
  {
    var uni, bi := g.uni, g.bi;
    for k := 0 to |t|
      invariant g.uni <= uni && forall j :: 0 <= j < k ==> t[j] in uni
    {
      uni := uni + {t[k] as nat};
    }
    for k := 0 to |t|
      invariant g.bi <= bi && forall j :: 0 <= j < k && j < |t| - 1 ==> BigramAt(t, j) in bi
    {
      if k + 1 < |t| {
        bi := bi + {BigramAt(t, k)};
      }
    }
    var tri := g.tri;
    if tri.Some? {
      for k := 0 to |t|
        invariant tri.Some? && g.tri.value <= tri.value
        invariant forall j :: 0 <= j < k && j < |t| - 2 ==> TrigramAt(t, j) in tri.value
      {
        if k + 2 < |t| {
          tri := Some(tri.value + {TrigramAt(t, k)});
        }
      }
    }
    h := Grams(uni, bi, tri);
  }

  lemma NotedMore(g: Grams, h: Grams, t: seq<byte>)
    requires GramsCover(g, h) && Noted(g, t)
    ensures Noted(h, t)
  {
  }

  /** Whether text built from noted n-grams can possibly contain `q`: bytes first, then bigrams, then trigrams. */
  predicate MayContain(g: Grams, q: seq<byte>) {
    && (forall k :: 0 <= k < |q| ==> q[k] in g.uni)
    && (forall k :: 0 <= k < |q| - 1 ==> BigramAt(q, k) in g.bi)
    && (g.tri.Some? ==> forall k :: 0 <= k < |q| - 2 ==> TrigramAt(q, k) in g.tri.value)
  }

  /** A negative gate proves the scan would find nothing: no noted text contains `q`. */
  lemma GateSound(g: Grams, t: seq<byte>, q: seq<byte>, p: nat)
    requires Noted(g, t) && Occurs(t, q, p)
    ensures MayContain(g, q)
  {
    forall k | 0 <= k < |q| ensures q[k] == t[p + k] {
      OccursAt(t, q, p, k);
    }
    forall k | 0 <= k < |q| - 1 ensures BigramAt(q, k) in g.bi {
      assert BigramAt(q, k) == BigramAt(t, p + k);
    }
    if g.tri.Some? {
      forall k | 0 <= k < |q| - 2 ensures TrigramAt(q, k) in g.tri.value {
        assert TrigramAt(q, k) == TrigramAt(t, p + k);
      }
    }
  }

  // ---- the two families over an index's rows --------------------------------------

  /** The arena sets cover every live record. */
  predicate ArenaNoted(rows: seq<Row>, g: Grams) {
    forall s :: 0 <= s < |rows| && rows[s].Live? ==> Noted(g, rows[s].folded)
  }

  /** The initials sets cover every live lane, each lane on its own. */
  predicate LanesNoted(uni: Unicode, rows: seq<Row>, g: Grams) {
    forall s :: 0 <= s < |rows| && rows[s].Live? ==> Noted(g, LaneFor(uni, rows[s]))
  }

  lemma ArenaNotedPut(rows: seq<Row>, g: Grams, h: Grams, slot: nat, row: Row)
    requires ArenaNoted(rows, g) && GramsCover(g, h) && slot <= |rows|
    requires row.Live? ==> Noted(h, row.folded)
    ensures ArenaNoted(Put(rows, slot, row), h)
  {
    var rows' := Put(rows, slot, row);
    forall s | 0 <= s < |rows'| && rows'[s].Live? ensures Noted(h, rows'[s].folded) {
      if s != slot {
        NotedMore(g, h, rows[s].folded);
      }
    }
  }

  lemma LanesNotedPut(uni: Unicode, rows: seq<Row>, g: Grams, h: Grams, slot: nat, row: Row)
    requires LanesNoted(uni, rows, g) && GramsCover(g, h) && slot <= |rows|
    requires row.Live? ==> Noted(h, LaneFor(uni, row))
    ensures LanesNoted(uni, Put(rows, slot, row), h)
  {
    var rows' := Put(rows, slot, row);
    forall s | 0 <= s < |rows'| && rows'[s].Live? ensures Noted(h, LaneFor(uni, rows'[s])) {
      if s != slot {
        NotedMore(g, h, LaneFor(uni, rows[s]));
      }
    }
  }

  /** Pass A's gate never hides a live record. */
  lemma ArenaGate(rows: seq<Row>, g: Grams, q: seq<byte>)
    requires ArenaNoted(rows, g) && !MayContain(g, q)
    ensures forall s, p: nat :: 0 <= s < |rows| && rows[s].Live? ==> !Occurs(rows[s].folded, q, p)
  {
    forall s, p: nat | 0 <= s < |rows| && rows[s].Live? && Occurs(rows[s].folded, q, p) ensures false {
      GateSound(g, rows[s].folded, q, p);
    }
  }

  /** Pass B's gate never hides a live lane. */
  lemma LanesGate(uni: Unicode, rows: seq<Row>, g: Grams, q: seq<byte>)
    requires LanesNoted(uni, rows, g) && !MayContain(g, q)
    ensures forall s, p: nat :: 0 <= s < |rows| && rows[s].Live? ==> !Occurs(LaneFor(uni, rows[s]), q, p)
  {
    forall s, p: nat | 0 <= s < |rows| && rows[s].Live? && Occurs(LaneFor(uni, rows[s]), q, p) ensures false {
      GateSound(g, LaneFor(uni, rows[s]), q, p);
    }
  }

  predicate AllNoted(g: Grams, texts: seq<seq<byte>>) {
    forall i :: 0 <= i < |texts| ==> Noted(g, texts[i])
  }

  /** Allocate or drop the trigram set by arena size, filling a set it allocates from the live records if asked. */
  method ResizeTri(g: Grams, arenaLen: nat, texts: seq<seq<byte>>, populate: bool) returns (h: Grams)
    requires AllNoted(g, texts)
    ensures h.uni == g.uni && h.bi == g.bi
    ensures h.tri.Some? <==> arenaLen >= TRI_PRESENT_MIN_ARENA
    ensures populate ==> AllNoted(h, texts)
  {
    var want := arenaLen >= TRI_PRESENT_MIN_ARENA;
    if want == g.tri.Some? {
      return g;
    }
    if !want {
      return g.(tri := None);
    }
    h := g.(tri := Some({}));
    if populate {
      for s := 0 to |texts|
        invariant h.uni == g.uni && h.bi == g.bi && h.tri.Some?
        invariant AllNoted(h, texts[..s])
      {
        var tri := h.tri.value;
        var t := texts[s];
        for k := 0 to |t|
          invariant h.tri.value <= tri && forall j :: 0 <= j < k && j < |t| - 2 ==> TrigramAt(t, j) in tri
        {
          if k + 2 < |t| {
            tri := tri + {TrigramAt(t, k)};
          }
        }
        ghost var before := h;
        h := h.(tri := Some(tri));
        forall j | 0 <= j < s ensures Noted(h, texts[j]) {
          assert texts[..s][j] == texts[j];
          NotedMore(before, h, texts[j]);
        }
      }
      assert texts[..|texts|] == texts;
    }
  }
}
