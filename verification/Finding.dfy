/** Searches from outside: every file is found by its own name, whatever the case, and depths count from the table. */
module Finding {
  import opened Bytes
  import opened Utf8
  import opened Names
  import opened Ranking
  import opened Table
  import opened IndexState
  import opened Repair
  import opened TieredSearch
  import opened Relevance
  import opened Answering
  import opened VolumeIndex
  import FuzzyScan
  import FuzzyTier
  import Reference
  import Polling
  import Placing
  import Paths

  /** With exact depths a file is worth what its depth in the file table makes it worth. */
  lemma WorthAtDepth(uni: Unicode, st: State, fq: string, f: nat)
    requires AtRest(uni, st) && DepthsExact(st) && fq != "" && f in Contents(st) && |st.rankKey| == |st.rows|
    ensures CachedDepth(st, f) == Paths.DepthIn(Contents(st), f, 127)
    ensures WorthAt(uni, st, fq, f) == Worth(uni, Contents(st)[f], Paths.DepthIn(Contents(st), f, 127), fq)
  {
    hide StateOk, Contents, Worth, DepthsExact, Paths.DepthIn;
    Placing.ExactFileByFile(uni, st);
    assert Placing.RankedAtDepth(st, f);
  }

  // ---- nothing wanted is missing ------------------------------------------------------------

  ghost function FrnsOf(hits: seq<Hit>, n: nat): set<nat>
    requires n <= |hits|
  {
    set i | 0 <= i < n :: hits[i].frn
  }

  lemma {:induction false} FrnsCount(hits: seq<Hit>, n: nat)
    requires n <= |hits| && forall i, j :: 0 <= i < j < |hits| ==> hits[i].frn != hits[j].frn
    ensures |FrnsOf(hits, n)| == n
  {
    if n > 0 {
      FrnsCount(hits, n - 1);
      assert FrnsOf(hits, n) == FrnsOf(hits, n - 1) + {hits[n - 1].frn};
    }
  }

  /** A page as large as the file table leaves out nothing wanted. */
  lemma LargePageHasAll(uni: Unicode, st: State, fq: string, accept: string -> bool, k: nat, hits: seq<Hit>, f: nat)
    requires AtRest(uni, st) && fq != "" && |st.rankKey| == |st.rows| && IsAnswer(uni, st, fq, accept, k, hits)
    requires Wanted(uni, st, fq, accept, f) && |Contents(st)| <= k
    ensures IsHit(hits, f)
  {
    hide StateOk, Contents, WorthAt, MatchOf;
    if !IsHit(hits, f) {
      var frns := FrnsOf(hits, |hits|);
      FrnsCount(hits, |hits|);
      assert f !in frns && frns + {f} <= Contents(st).Keys;
      Smaller(frns + {f}, Contents(st).Keys);
    }
  }

  lemma {:induction false} Smaller(a: set<nat>, b: set<nat>)
    requires a <= b
    ensures |a| <= |b|
    decreases |a|
  {
    if x :| x in a {
      Smaller(a - {x}, b - {x});
    }
  }

  // ---- by name ------------------------------------------------------------------------------------

  /** A name the index holds is a query it searches for. */
  lemma HeldIsSearchable(uni: Unicode, st: State, f: nat, query: string)
    requires AtRest(uni, st) && f in Contents(st)
    requires LowerAlike(uni, uni.nfc(Contents(st)[f].name), uni.nfc(query)) && |Encode(Fold(uni, query))| <= 65535
    ensures Reference.Searchable(Fold(uni, query)) && Fold(uni, query) != ""
    ensures MatchOf(uni, Contents(st)[f].name, Fold(uni, query)).Whole?
  {
    hide StateOk, Contents, MatchOf, NoControl, Encode, Fold, FoldedRecord, Truncate;
    RowIsFile(uni, st, f);
    FoldsAlike(uni, Contents(st)[f].name, query);
    if Fold(uni, query) == "" {
      NothingEncoded();
    }
    FindsItsName(uni, Contents(st)[f].name, query);
  }

  lemma FoldsAlike(uni: Unicode, name: string, query: string)
    requires LowerAlike(uni, uni.nfc(name), uni.nfc(query)) && |Encode(Fold(uni, query))| <= 65535
    ensures FoldedRecord(uni, name) == Encode(Fold(uni, query))
  {
    hide Encode;
    SameFold(uni, name, query);
    TruncateFits(Fold(uni, query), NAME_MAX);
  }

  lemma NothingEncoded()
    ensures Encode("") == []
  {
  }

  /** Searching a file's name, in whatever case, finds it, on a page with room for every file; and no file at its key
      that is not named so comes before it. */
  method FindByName(ix: VolumeIndex, f: nat, query: string, maxResults: nat, accept: string -> bool, poll: nat -> bool)
    returns (hits: seq<Hit>, found: bool)
    requires ix.Valid() && f in Contents(ix.Snap()) && accept(Contents(ix.Snap())[f].name)
    requires LowerAlike(ix.uni, ix.uni.nfc(Contents(ix.Snap())[f].name), ix.uni.nfc(query))
    requires |Encode(Fold(ix.uni, query))| <= 65535 && |Contents(ix.Snap())| <= maxResults
    requires |FuzzyScan.Candidates(ix.spec.rows, Encode(Fold(ix.uni, query)))| <= FuzzyTier.FUZZY_CAP
    ensures found || Polling.Raised(poll)
    ensures found ==> IsHit(hits, f)
    ensures found ==> forall g ::
              g in Contents(ix.Snap())
              && FoldedRecord(ix.uni, Contents(ix.Snap())[g].name) != Encode(Fold(ix.uni, query))
              && |ix.strides.rankKey| == |ix.spec.rows| && CachedDepth(ix.Snap(), f) == CachedDepth(ix.Snap(), g)
              && (Penalised(Contents(ix.Snap())[f]) <==> Penalised(Contents(ix.Snap())[g])) ==>
                Before(hits, f, g)
  {
    hide AtRest, CursorOk, Contents, MatchOf, Fold, FoldedRecord, IsAnswer, HitsSound, Reference.Searchable, LowerAlike;
    hide Reference.ReferencePage, FuzzyScan.Candidates, FuzzyScan.Budgeted, PageSound, HitsOf, NameAccept, CachedDepth;
    hide Before, IsHit, Penalised;
    var stopped;
    ghost var page, survivors, retained, dropped;
    HeldIsSearchable(ix.uni, ix.Snap(), f, query);
    hits, stopped, page, survivors, retained, dropped := ix.Search(query, maxResults, accept, poll);
    found := !stopped;
    if found {
      FoundFirst(ix.uni, ix.Snap(), Fold(ix.uni, query), accept, maxResults, hits, f);
    }
  }

  lemma FoundFirst(uni: Unicode, st: State, fq: string, accept: string -> bool, k: nat, hits: seq<Hit>, f: nat)
    requires AtRest(uni, st) && Reference.Searchable(fq) && |st.rankKey| == |st.rows|
    requires IsAnswer(uni, st, fq, accept, k, hits) && |Contents(st)| <= k
    requires f in Contents(st) && accept(Contents(st)[f].name) && MatchOf(uni, Contents(st)[f].name, fq).Whole?
    ensures IsHit(hits, f)
    ensures forall g ::
              g in Contents(st) && FoldedRecord(uni, Contents(st)[g].name) != Encode(fq)
              && CachedDepth(st, f) == CachedDepth(st, g)
              && (Penalised(Contents(st)[f]) <==> Penalised(Contents(st)[g])) ==>
                Before(hits, f, g)
  {
    hide StateOk, Contents, IsAnswer, Before, CachedDepth, AfterSeparator, OccursIn, LaneOf, FoldedRecord, Encode;
    hide NoControl, IsHit, Penalised;
    WholeIsName(uni, Contents(st)[f].name, fq);
    LargePageHasAll(uni, st, fq, accept, k, hits, f);
    forall g | g in Contents(st) && FoldedRecord(uni, Contents(st)[g].name) != Encode(fq)
               && CachedDepth(st, f) == CachedDepth(st, g)
               && (Penalised(Contents(st)[f]) <==> Penalised(Contents(st)[g]))
      ensures Before(hits, f, g)
    {
      AnswerOrder(uni, st, fq, accept, k, hits, f, g);
    }
  }

  lemma WholeIsName(uni: Unicode, name: string, fq: string)
    requires fq != "" && MatchOf(uni, name, fq).Whole?
    ensures FoldedRecord(uni, name) == Encode(fq)
  {
    hide FoldedRecord, Encode, AfterSeparator, OccursIn, LaneOf;
  }

  /** Two queries that differ in case alone get the same hits, within the fuzzy budget. */
  method SearchIgnoresCase(ix: VolumeIndex, a: string, b: string, maxResults: nat, accept: string -> bool,
                           poll: nat -> bool)
    returns (hitsA: seq<Hit>, hitsB: seq<Hit>, stopped: bool)
    requires ix.Valid() && LowerAlike(ix.uni, ix.uni.nfc(a), ix.uni.nfc(b))
    requires |FuzzyScan.Candidates(ix.spec.rows, Encode(Fold(ix.uni, a)))| <= FuzzyTier.FUZZY_CAP
    ensures stopped ==> Polling.Raised(poll)
    ensures !stopped ==> hitsA == hitsB
  {
    hide AtRest, CursorOk, Contents, Fold, IsAnswer, HitsSound, Reference.Searchable, LowerAlike, Answers;
    hide Reference.ReferencePage, FuzzyScan.Candidates, HitsOf, NameAccept;
    SameFold(ix.uni, a, b);
    var stopA, stopB;
    ghost var p0, s0, r0, d0, p1, s1, r1, d1;
    hitsA, stopA, p0, s0, r0, d0 := ix.Search(a, maxResults, accept, poll);
    hitsB, stopB, p1, s1, r1, d1 := ix.Search(b, maxResults, accept, poll);
    stopped := stopA || stopB;
  }
}
