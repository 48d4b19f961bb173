/** Searches are blind to compaction: with depths exact, every page comes back with the same files and scores. */
module Stability {
  import opened Bytes
  import opened Utf8
  import opened Names
  import opened Ranking
  import opened Ordering
  import opened Selecting
  import opened Table
  import opened Columns
  import opened Reference
  import opened FuzzyTier
  import opened Scanning
  import opened TieredSearch
  import opened Compaction
  import FuzzyScan

  /** An offer under its slot's old number. */
  function Back(x: Scored, orig: seq<nat>): Scored {
    if x.slot < |orig| then x.(slot := orig[x.slot]) else x
  }

  function BackAll(s: seq<Scored>, orig: seq<nat>): (r: seq<Scored>)
    ensures |r| == |s| && forall i :: 0 <= i < |s| ==> r[i] == Back(s[i], orig)
  {
    seq(|s|, i requires 0 <= i < |s| => Back(s[i], orig))
  }

  predicate Ascends(orig: seq<nat>) {
    forall j, k :: 0 <= j < k < |orig| ==> orig[j] < orig[k]
  }

  /** The same best offers under new slot numbers. */
  ghost predicate Renamed(refs: seq<Option<Scored>>, refs': seq<Option<Scored>>, orig: seq<nat>, a: nat -> bool,
                          a': nat -> bool) {
    && RefsOk(refs) && RefsOk(refs') && |refs'| == |orig| && Ascends(orig)
    && (forall k :: 0 <= k < |orig| ==> orig[k] < |refs|)
    && (forall k :: 0 <= k < |orig| ==> (refs'[k].Some? <==> refs[orig[k]].Some?))
    && (forall k :: 0 <= k < |orig| && refs'[k].Some? ==>
           Back(refs'[k].value, orig) == refs[orig[k]].value && a'(k) == a(orig[k]))
    && (forall s :: 0 <= s < |refs| && refs[s].Some? ==> s in orig)
  }

  /** Renumbering in order changes no comparison. */
  lemma BackKeepsOrder(x: Scored, y: Scored, orig: seq<nat>)
    requires Ascends(orig) && x.slot < |orig| && y.slot < |orig|
    ensures Better(Back(x, orig), Back(y, orig)) <==> Better(x, y)
    ensures Back(x, orig).slot == Back(y, orig).slot <==> x.slot == y.slot
  {
  }

  lemma BackSorted(s: seq<Scored>, orig: seq<nat>)
    requires BestFirst(s) && DistinctSlots(s) && Ascends(orig) && forall x :: x in s ==> x.slot < |orig|
    ensures BestFirst(BackAll(s, orig)) && DistinctSlots(BackAll(s, orig))
  {
    hide Better;
    var r := BackAll(s, orig);
    forall i, j | 0 <= i < j < |r| ensures !Better(r[j], r[i]) && r[i].slot != r[j].slot {
      assert s[i] in s && s[j] in s;
      BackKeepsOrder(s[j], s[i], orig);
    }
  }

  /** Two rankings with the same rows are the same ranking. */
  lemma SameRows(p: seq<Scored>, r: seq<Scored>)
    requires BestFirst(p) && DistinctSlots(p) && BestFirst(r) && DistinctSlots(r)
    requires forall x :: x in p <==> x in r
    ensures p == r
  {
    hide Better, BestFirst, DistinctSlots;
    var k := |p| + |r|;
    forall i | 0 <= i < k && i < |r| ensures r[i] in p {
      assert r[i] in r;
    }
    SameTop(p, r, k);
  }

  /** Ranking commutes with renumbering. */
  lemma RankedRenamed(refs: seq<Option<Scored>>, refs': seq<Option<Scored>>, orig: seq<nat>, a: nat -> bool,
                      a': nat -> bool)
    requires Renamed(refs, refs', orig, a, a')
    ensures BackAll(Ranked(refs', a'), orig) == Ranked(refs, a)
  {
    RankedIs(refs, a);
    RankedIs(refs', a');
    var p, r := Ranked(refs', a'), Ranked(refs, a);
    hide Ranked, Better, BestFirst, DistinctSlots;
    BackSorted(p, orig);
    forall x ensures x in BackAll(p, orig) <==> x in r {
      if x in BackAll(p, orig) {
        var i :| 0 <= i < |p| && Back(p[i], orig) == x;
        assert p[i] in p;
      }
      if x in r {
        var k :| 0 <= k < |orig| && orig[k] == x.slot;
        assert refs'[k].value in p;
        var i :| 0 <= i < |p| && p[i] == refs'[k].value;
        assert BackAll(p, orig)[i] == x;
      }
    }
    SameRows(BackAll(p, orig), r);
  }

  /** Survivors rank under their new numbers exactly as under their old ones. */
  lemma RefsRenamed(uni: Unicode, rows: seq<Row>, key: seq<byte>, orig: seq<nat>, fq: string, accept: string -> bool)
    requires Survivors(rows, orig) && |key| == |rows| && fq != ""
    ensures Renamed(RefsFor(uni, rows, key, fq), RefsFor(uni, Gather(rows, orig), Gather(key, orig), fq), orig,
                    NameAccept(rows, accept), NameAccept(Gather(rows, orig), accept))
  {
    hide RowTier, DensityOf, Encode, DepthPen;
    var refs, refs' := RefsFor(uni, rows, key, fq), RefsFor(uni, Gather(rows, orig), Gather(key, orig), fq);
    forall k | 0 <= k < |orig|
      ensures refs'[k].Some? <==> refs[orig[k]].Some?
      ensures refs'[k].Some? ==> Back(refs'[k].value, orig) == refs[orig[k]].value
    {
      assert Gather(rows, orig)[k] == rows[orig[k]] && Gather(key, orig)[k] == key[orig[k]];
    }
  }

  /** The reference page of the survivors is the reference page, under new slot numbers: the same files,
      the same scores. */
  lemma CompactionKeepsPages(uni: Unicode, rows: seq<Row>, key: seq<byte>, orig: seq<nat>, fq: string,
                             accept: string -> bool, k: nat)
    requires Survivors(rows, orig) && |key| == |rows|
    ensures HitsOf(Gather(rows, orig),
                   ReferencePage(uni, Gather(rows, orig), Gather(key, orig), fq, NameAccept(Gather(rows, orig), accept), k))
         == HitsOf(rows, ReferencePage(uni, rows, key, fq, NameAccept(rows, accept), k))
  {
    hide RefsFor, NameAccept, Ranked, Better, Encode;
    if Searchable(fq) {
      RefsRenamed(uni, rows, key, orig, fq, accept);
      var refs, refs' := RefsFor(uni, rows, key, fq), RefsFor(uni, Gather(rows, orig), Gather(key, orig), fq);
      var a, a' := NameAccept(rows, accept), NameAccept(Gather(rows, orig), accept);
      RankedRenamed(refs, refs', orig, a, a');
      RankedIs(refs', a');
      PagesMatch(rows, orig, Ranked(refs', a'), Ranked(refs, a), k);
    }
  }

  lemma PagesMatch(rows: seq<Row>, orig: seq<nat>, p: seq<Scored>, r: seq<Scored>, k: nat)
    requires Survivors(rows, orig) && BackAll(p, orig) == r && forall x :: x in p ==> x.slot < |orig|
    ensures HitsOf(Gather(rows, orig), Top(p, k)) == HitsOf(rows, Top(r, k))
  {
    forall i | 0 <= i < |Top(p, k)| ensures HitsOf(Gather(rows, orig), Top(p, k))[i] == HitsOf(rows, Top(r, k))[i] {
      assert p[i] in p;
      assert Gather(rows, orig)[p[i].slot] == rows[orig[p[i].slot]];
    }
  }

  // ---- the candidates survive too -----------------------------------------------------------

  /** A compaction adds nothing for the fuzzy tier to verify. */
  lemma CandidatesKept(rows: seq<Row>, orig: seq<nat>, q: seq<byte>)
    requires Survivors(rows, orig)
    ensures |FuzzyScan.Candidates(Gather(rows, orig), q)| <= |FuzzyScan.Candidates(rows, q)|
  {
    var after := FuzzyScan.Candidates(Gather(rows, orig), q);
    forall k | k in after ensures k < |orig| && orig[k] in FuzzyScan.Candidates(rows, q) {
      assert Gather(rows, orig)[k] == rows[orig[k]];
    }
    Injected(after, orig, FuzzyScan.Candidates(rows, q));
  }

  lemma {:induction false} Injected(a: set<nat>, orig: seq<nat>, b: set<nat>)
    requires forall k :: k in a ==> k < |orig| && orig[k] in b
    requires forall j, k :: 0 <= j < k < |orig| ==> orig[j] != orig[k]
    ensures |a| <= |b|
    decreases |a|
  {
    if k :| k in a {
      Injected(a - {k}, orig, b - {orig[k]});
    }
  }
}
