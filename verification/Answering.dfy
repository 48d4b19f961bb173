/** The page of hits, told from the file table: who is on it, at what score, in what order. */
module Answering {
  import opened Bytes
  import opened Utf8
  import opened Names
  import opened Ranking
  import opened Scanning
  import opened ClassBits
  import opened FuzzyTier
  import opened Table
  import opened Columns
  import opened Records
  import opened Presence
  import opened Ordering
  import opened Selecting
  import opened Reference
  import opened IndexState
  import opened Repair
  import opened TieredSearch
  import opened Relevance
  import FuzzyScan

  // ---- what a file is worth to a query -------------------------------------------------------

  /** How well a name answers: the six ways, from 1.0 down; characters in order count up to 0.5 as they stand closer. */
  ghost function Quality(uni: Unicode, name: string, fq: string): real
    requires fq != ""
  {
    match MatchOf(uni, name, fq)
    case Whole => 1.0
    case Start => 0.9
    case Word => 0.8
    case Lane => 0.7
    case Inside => 0.55
    case Spread =>
      0.3 + 0.2 * (match DensityOf(Decode(FoldedRecord(uni, name)), fq) case None => 0.0 case Some(d) => d)
    case Nothing => 0.0
  }

  /** The score of a file `depth` links down: less the deeper it stands, and less by 15 percent if hidden or system. */
  ghost function Worth(uni: Unicode, file: File, depth: nat, fq: string): real
    requires fq != ""
  {
    Quality(uni, file.name, fq) / (1.0 + 0.02 * depth as real)
    * (if file.flags.hidden || file.flags.system then 0.85 else 1.0)
  }

  /** A live row's facts. */
  lemma RowIsFile(uni: Unicode, st: State, f: nat)
    requires AtRest(uni, st) && f in Contents(st)
    ensures |st.rankKey| == |st.rows| && f in st.frnMap && st.frnMap[f] < |st.rows|
    ensures var row := st.rows[st.frnMap[f]];
            && row.Live? && row.frn == f && FileOf(row) == Contents(st)[f]
            && row.folded == FoldedRecord(uni, row.name) && row.folded != [] && NoControl(row.folded)
            && KeyOk(row, st.rankKey[st.frnMap[f]])
  {
    hide RecsOk, LiveRecs, OwnerOk, NamesAscend, LanesOk, HeadOk, BsiOk, ArenaNoted, LanesNoted, FreeOk, MarksOk;
    hide EntriesOk, FoldedRecord;
    SweepShape(uni, st);
    FilesCount(st.rows, st.frnMap);
    assert RowOk(uni, st.rows[st.frnMap[f]]);
  }

  /** The tier a row earns is the way its name answers. */
  lemma TierIsMatch(uni: Unicode, row: Row, fq: string)
    requires row.Live? && row.folded == FoldedRecord(uni, row.name) && NoControl(row.folded)
    requires fq != "" && Encode(fq) != []
    ensures RowTier(uni, row, Encode(fq)) ==
              match MatchOf(uni, row.name, fq)
              case Whole => Some(Exact)
              case Start => Some(Prefix)
              case Word => Some(WordBoundary)
              case Lane => Some(Initials)
              case Inside => Some(Substring)
              case Spread => None
              case Nothing => None
  {
    hide Encode, LaneOf, FoldedRecord, RecordTier, AfterSeparator, Occurs, NoControl;
    RecordTierIs(row.folded, Encode(fq));
    InLaneIs(uni, row, Encode(fq));
  }

  lemma InLaneIs(uni: Unicode, row: Row, q: seq<byte>)
    requires row.Live?
    ensures InLane(uni, row, q) <==> |q| <= 8 && OccursIn(LaneOf(uni, row.name), q)
  {
    hide LaneOf;
    var lane := LaneFor(uni, row);
    assert lane == LaneOf(uni, row.name);
    if p: nat :| Occurs(lane, q, p) {
    }
  }

  lemma Penalty(key: byte, base: real)
    ensures base * DepthPen(key) ==
              base / (1.0 + 0.02 * (key as int % 128) as real) * (if key >= RANK_PENALIZED then 0.85 else 1.0)
  {
    var d := 1.0 + 0.02 * (key as int % 128) as real;
    var p := 1.0 / d;
    Divide(base, d);
    assert base * (p * 0.85) == base * p * 0.85;
  }

  lemma Divide(a: real, d: real)
    requires d > 0.0
    ensures a * (1.0 / d) == a / d
  {
    var p := 1.0 / d;
    assert p * d == 1.0;
    assert a * p * d == a * (p * d);
    assert a * p * d == a;
  }

  /** A row's best offer is its file's worth, at the depth it is ranked by. */
  lemma OfferIsWorth(uni: Unicode, row: Row, key: byte, s: nat, fq: string)
    requires row.Live? && row.folded == FoldedRecord(uni, row.name) && NoControl(row.folded) && KeyOk(row, key)
    requires Searchable(fq)
    ensures RefFor(uni, row, key, s, fq).None? <==> MatchOf(uni, row.name, fq).Nothing?
    ensures RefFor(uni, row, key, s, fq).Some? ==>
              RefFor(uni, row, key, s, fq).value.score == Worth(uni, FileOf(row), key as int % 128, fq)
  {
    hide Encode, FoldedRecord, RowTier, MatchOf, RefFor, DepthPen, NoControl, FuzzyScan.FuzzyBaseOf;
    FuzzyScan.SearchableText(fq);
    TierIsMatch(uni, row, fq);
    FuzzyScan.RefIs(uni, row, key, s, fq);
    SpreadHasBase(uni, row, fq);
    Penalty(key, Quality(uni, row.name, fq));
  }

  lemma SpreadHasBase(uni: Unicode, row: Row, fq: string)
    requires row.Live? && row.folded == FoldedRecord(uni, row.name) && fq != ""
    ensures MatchOf(uni, row.name, fq).Spread? ==>
              |Encode(fq)| >= 3 && FuzzyScan.FuzzyBaseOf(row, fq) == Some(Quality(uni, row.name, fq))
    ensures MatchOf(uni, row.name, fq).Nothing? ==> |Encode(fq)| < 3 || FuzzyScan.FuzzyBaseOf(row, fq).None?
  {
    hide Encode, FoldedRecord, Decode, AfterSeparator, OccursIn, LaneOf, Window;
    var name := Decode(row.folded);
    if IsSubsequence(fq, name) {
      DensityExists(name, fq);
    } else {
      NoWindow(name, fq);
    }
  }

  // ---- the page ------------------------------------------------------------------------------------

  /** A held file whose name the caller accepts and answers the query. */
  ghost predicate Wanted(uni: Unicode, st: State, fq: string, accept: string -> bool, f: nat)
    requires MapOk(st.rows, st.frnMap) && fq != ""
  {
    f in Contents(st) && accept(Contents(st)[f].name) && !MatchOf(uni, Contents(st)[f].name, fq).Nothing?
  }

  /** The depth a file is ranked by. */
  function CachedDepth(st: State, f: nat): nat
    requires MapOk(st.rows, st.frnMap) && f in Contents(st) && |st.rankKey| == |st.rows|
  {
    st.rankKey[st.frnMap[f]] as int % 128
  }

  /** A file's worth at the depth it is ranked by. */
  ghost function WorthAt(uni: Unicode, st: State, fq: string, f: nat): real
    requires MapOk(st.rows, st.frnMap) && fq != "" && f in Contents(st) && |st.rankKey| == |st.rows|
  {
    Worth(uni, Contents(st)[f], CachedDepth(st, f), fq)
  }

  /** Worth more, or as much in a lower slot. */
  predicate Ahead(x: real, s: nat, y: real, t: nat) {
    x > y || (x == y && s < t)
  }

  /** The answer: wanted files only, each at its worth, the better one first and none twice; at most `k` of them; and
      any wanted file left out is behind a full page. */
  ghost predicate IsAnswer(uni: Unicode, st: State, fq: string, accept: string -> bool, k: nat, hits: seq<Hit>)
    requires MapOk(st.rows, st.frnMap) && fq != "" && |st.rankKey| == |st.rows|
  {
    && |hits| <= k
    && (forall i :: 0 <= i < |hits| ==>
          Wanted(uni, st, fq, accept, hits[i].frn) && hits[i].score == WorthAt(uni, st, fq, hits[i].frn))
    && (forall i, j :: 0 <= i < j < |hits| ==>
          Ahead(hits[i].score, st.frnMap[hits[i].frn], hits[j].score, st.frnMap[hits[j].frn]))
    && (forall f :: Wanted(uni, st, fq, accept, f) ==>
          || IsHit(hits, f)
          || (|hits| == k && forall i :: 0 <= i < |hits| ==>
                Ahead(hits[i].score, st.frnMap[hits[i].frn], WorthAt(uni, st, fq, f), st.frnMap[f])))
  }

  predicate IsHit(hits: seq<Hit>, f: nat) {
    exists i :: 0 <= i < |hits| && hits[i].frn == f
  }

  lemma SlotIsFile(uni: Unicode, st: State, s: nat)
    requires AtRest(uni, st) && s < |st.rows| && st.rows[s].Live?
    ensures st.rows[s].frn in Contents(st) && st.frnMap[st.rows[s].frn] == s
  {
    hide RowsOk, RecsOk, LiveRecs, OwnerOk, NamesAscend, LanesOk, HeadOk, BsiOk, ArenaNoted, LanesNoted, FreeOk;
    hide MarksOk, EntriesOk, RankOk;
    FilesCount(st.rows, st.frnMap);
  }

  /** What stands in a slot of the ranking: its wanted file's worth, or nothing. */
  lemma RankedSlot(uni: Unicode, st: State, fq: string, accept: string -> bool, s: nat)
    requires AtRest(uni, st) && Searchable(fq) && s < |st.rows| == |st.rankKey|
    ensures var ref := RefFor(uni, st.rows[s], st.rankKey[s], s, fq);
            && (ref.Some? ==> st.rows[s].Live?)
            && (ref.Some? && NameAccept(st.rows, accept)(s) <==>
                  st.rows[s].Live? && Wanted(uni, st, fq, accept, st.rows[s].frn))
            && (ref.Some? ==>
                  st.rows[s].frn in Contents(st) && ref.value.score == WorthAt(uni, st, fq, st.rows[s].frn))
  {
    hide StateOk, MatchOf, RefFor, Worth, Contents, Encode, NoControl;
    if st.rows[s].Live? {
      SlotIsFile(uni, st, s);
      RowIsFile(uni, st, st.rows[s].frn);
      OfferIsWorth(uni, st.rows[s], st.rankKey[s], s, fq);
    } else {
      VacantHasNone(uni, st.rows[s], st.rankKey[s], s, fq);
    }
  }

  lemma VacantHasNone(uni: Unicode, row: Row, key: byte, s: nat, fq: string)
    requires row.Vacant? && fq != ""
    ensures RefFor(uni, row, key, s, fq) == None
  {
  }

  /** The ranking's slots, each with its wanted file's worth. */
  ghost predicate SlotsAre(uni: Unicode, st: State, fq: string, accept: string -> bool, refs: seq<Option<Scored>>,
                           a: nat -> bool)
    requires MapOk(st.rows, st.frnMap) && fq != "" && |st.rankKey| == |st.rows|
  {
    && |refs| == |st.rows| && RefsOk(refs)
    && forall s: nat :: s < |refs| ==> SlotIs(uni, st, fq, accept, refs[s], a(s), s)
  }

  ghost predicate SlotIs(uni: Unicode, st: State, fq: string, accept: string -> bool, ref: Option<Scored>, ok: bool,
                         s: nat)
    requires MapOk(st.rows, st.frnMap) && fq != "" && |st.rankKey| == |st.rows|
  {
    && s < |st.rows|
    && (ref.Some? ==> st.rows[s].Live?)
    && (ref.Some? && ok <==> st.rows[s].Live? && Wanted(uni, st, fq, accept, st.rows[s].frn))
    && (ref.Some? ==> st.rows[s].frn in Contents(st) && ref.value.score == WorthAt(uni, st, fq, st.rows[s].frn))
    && (st.rows[s].Live? ==> st.rows[s].frn in st.frnMap && st.frnMap[st.rows[s].frn] == s)
  }

  /** The reference page's hits are the answer. */
  lemma PageIsAnswer(uni: Unicode, st: State, fq: string, accept: string -> bool, k: nat)
    requires AtRest(uni, st) && Searchable(fq) && |st.rankKey| == |st.rows|
    ensures IsAnswer(uni, st, fq, accept, k,
                     HitsOf(st.rows, ReferencePage(uni, st.rows, st.rankKey, fq, NameAccept(st.rows, accept), k)))
  {
    hide StateOk, Contents, RefFor, Wanted, WorthAt, Ranked, NameAccept, Encode, NoControl, IsAnswer;
    var a, refs := NameAccept(st.rows, accept), RefsFor(uni, st.rows, st.rankKey, fq);
    forall s: nat | s < |refs| ensures SlotIs(uni, st, fq, accept, refs[s], a(s), s) {
      RankedSlot(uni, st, fq, accept, s);
      if st.rows[s].Live? {
        SlotIsFile(uni, st, s);
      }
    }
    RankedIs(refs, a);
    PageOfRanked(uni, st, fq, accept, k, refs, a);
  }

  lemma InOrder(refs: seq<Option<Scored>>, a: nat -> bool, i: nat, j: nat)
    requires RefsOk(refs) && i < j < |Ranked(refs, a)|
    ensures var x, y := Ranked(refs, a)[i], Ranked(refs, a)[j]; Ahead(x.score, x.slot, y.score, y.slot)
  {
    hide Ranked;
    RankedIs(refs, a);
  }

  /** The file of the ranking's `i`th row. */
  lemma RowFile(uni: Unicode, st: State, fq: string, accept: string -> bool, refs: seq<Option<Scored>>, a: nat -> bool,
                i: nat)
    requires AtRest(uni, st) && fq != "" && |st.rankKey| == |st.rows| && SlotsAre(uni, st, fq, accept, refs, a)
    requires i < |Ranked(refs, a)|
    ensures var x := Ranked(refs, a)[i];
            && x.slot < |st.rows| && st.rows[x.slot].Live?
            && var f := st.rows[x.slot].frn;
               && f in Contents(st) && f in st.frnMap && st.frnMap[f] == x.slot
               && Wanted(uni, st, fq, accept, f) && x.score == WorthAt(uni, st, fq, f)
  {
    hide StateOk, Contents, WorthAt, Wanted, Ranked;
    RankedIs(refs, a);
    var x := Ranked(refs, a)[i];
    assert x in Ranked(refs, a);
    assert SlotIs(uni, st, fq, accept, refs[x.slot], a(x.slot), x.slot);
  }

  /** Where a wanted file stands in the ranking. */
  lemma FileRow(uni: Unicode, st: State, fq: string, accept: string -> bool, refs: seq<Option<Scored>>, a: nat -> bool,
                f: nat) returns (n: nat)
    requires AtRest(uni, st) && fq != "" && |st.rankKey| == |st.rows| && SlotsAre(uni, st, fq, accept, refs, a)
    requires f in Contents(st) && Wanted(uni, st, fq, accept, f)
    ensures n < |Ranked(refs, a)| && f in st.frnMap && Ranked(refs, a)[n].slot == st.frnMap[f] < |st.rows|
    ensures st.rows[st.frnMap[f]].Live? && st.rows[st.frnMap[f]].frn == f
    ensures Ranked(refs, a)[n].score == WorthAt(uni, st, fq, f)
  {
    hide StateOk, Contents, WorthAt, Wanted, Ranked;
    RankedIs(refs, a);
    RowIsFile(uni, st, f);
    var s := st.frnMap[f];
    assert SlotIs(uni, st, fq, accept, refs[s], a(s), s);
    var x := refs[s].value;
    assert x in Ranked(refs, a);
    n :| 0 <= n < |Ranked(refs, a)| && Ranked(refs, a)[n] == x;
  }

  lemma PageOfRanked(uni: Unicode, st: State, fq: string, accept: string -> bool, k: nat, refs: seq<Option<Scored>>,
                     a: nat -> bool)
    requires AtRest(uni, st) && fq != "" && |st.rankKey| == |st.rows| && SlotsAre(uni, st, fq, accept, refs, a)
    ensures IsAnswer(uni, st, fq, accept, k, HitsOf(st.rows, Top(Ranked(refs, a), k)))
  {
    hide AtRest, Contents, WorthAt, MatchOf, Wanted, Ranked, Ahead, SlotIs;
    var all, hits := Ranked(refs, a), HitsOf(st.rows, Top(Ranked(refs, a), k));
    forall i | 0 <= i < |hits|
      ensures hits[i].frn in Contents(st) && hits[i].frn in st.frnMap && Wanted(uni, st, fq, accept, hits[i].frn)
      ensures hits[i].score == all[i].score == WorthAt(uni, st, fq, hits[i].frn)
      ensures st.frnMap[hits[i].frn] == all[i].slot
    {
      RowFile(uni, st, fq, accept, refs, a, i);
    }
    forall i, j | 0 <= i < j < |all| ensures Ahead(all[i].score, all[i].slot, all[j].score, all[j].slot) {
      InOrder(refs, a, i, j);
    }
    forall f | f in Contents(st) && Wanted(uni, st, fq, accept, f) && !IsHit(hits, f)
      ensures f in st.frnMap && |hits| == k
      ensures forall i :: 0 <= i < |hits| ==>
                Ahead(hits[i].score, all[i].slot, WorthAt(uni, st, fq, f), st.frnMap[f])
    {
      var n := FileRow(uni, st, fq, accept, refs, a, f);
      HitAt(hits, n);
    }
    WantedIsHeld(uni, st, fq, accept);
  }

  lemma HitAt(hits: seq<Hit>, n: nat)
    ensures n < |hits| ==> IsHit(hits, hits[n].frn)
  {
  }

  lemma WantedIsHeld(uni: Unicode, st: State, fq: string, accept: string -> bool)
    requires MapOk(st.rows, st.frnMap) && fq != ""
    ensures forall f :: Wanted(uni, st, fq, accept, f) ==> f in Contents(st)
  {
  }

  /** Whatever happens on the way, every hit is a wanted file at no more than its worth. */
  ghost predicate HitsSound(uni: Unicode, st: State, fq: string, accept: string -> bool, k: nat, hits: seq<Hit>)
    requires MapOk(st.rows, st.frnMap) && fq != "" && |st.rankKey| == |st.rows|
  {
    && |hits| <= k
    && forall i :: 0 <= i < |hits| ==>
      Wanted(uni, st, fq, accept, hits[i].frn) && hits[i].score <= WorthAt(uni, st, fq, hits[i].frn)
  }

  lemma SoundPageHits(uni: Unicode, st: State, fq: string, accept: string -> bool, k: nat, page: seq<Scored>)
    requires AtRest(uni, st) && Searchable(fq) && |st.rankKey| == |st.rows|
    requires PageSound(page, RefsFor(uni, st.rows, st.rankKey, fq), NameAccept(st.rows, accept), k)
    ensures HitsSound(uni, st, fq, accept, k, HitsOf(st.rows, page))
  {
    hide StateOk, Contents, RefFor, Wanted, WorthAt, NameAccept, Encode, NoControl, BestFirst, DistinctSlots, RefsOk;
    var refs := RefsFor(uni, st.rows, st.rankKey, fq);
    forall x | x in page
      ensures x.slot < |st.rows| && st.rows[x.slot].Live? && Wanted(uni, st, fq, accept, st.rows[x.slot].frn)
      ensures st.rows[x.slot].frn in Contents(st) && x.score <= WorthAt(uni, st, fq, st.rows[x.slot].frn)
    {
      assert Sound(refs, NameAccept(st.rows, accept), x);
      RankedSlot(uni, st, fq, accept, x.slot);
    }
    WantedIsHeld(uni, st, fq, accept);
  }

  // ---- who comes first ---------------------------------------------------------------------------

  /** Wherever `g` is among the hits, `f` is before it. */
  predicate Before(hits: seq<Hit>, f: nat, g: nat) {
    forall j :: 0 <= j < |hits| && hits[j].frn == g ==> exists i :: 0 <= i < j && hits[i].frn == f
  }

  lemma WorthierFirst(uni: Unicode, st: State, fq: string, accept: string -> bool, k: nat, hits: seq<Hit>, f: nat,
                      g: nat)
    requires MapOk(st.rows, st.frnMap) && fq != "" && |st.rankKey| == |st.rows|
    requires IsAnswer(uni, st, fq, accept, k, hits)
    requires Wanted(uni, st, fq, accept, f) && g in Contents(st) && WorthAt(uni, st, fq, f) > WorthAt(uni, st, fq, g)
    ensures Before(hits, f, g)
  {
    hide Wanted, WorthAt, Contents;
    WantedIsHeld(uni, st, fq, accept);
  }

  predicate Penalised(file: File) {
    file.flags.hidden || file.flags.system
  }

  lemma QualityRange(uni: Unicode, name: string, fq: string)
    requires fq != ""
    ensures MatchOf(uni, name, fq).Spread? ==> 0.3 < Quality(uni, name, fq) <= 0.5
    ensures MatchOf(uni, name, fq).Nothing? <==> Quality(uni, name, fq) == 0.0
    ensures 0.0 <= Quality(uni, name, fq) <= 1.0
  {
    hide Encode, FoldedRecord, AfterSeparator, OccursIn, LaneOf, Window;
    var text := Decode(FoldedRecord(uni, name));
    hide Decode;
    if IsSubsequence(fq, text) {
      DensityExists(text, fq);
      FuzzyBase(text, fq);
    }
  }

  lemma BetterMatchIsBetter(uni: Unicode, a: string, b: string, fq: string)
    requires fq != "" && Standing(MatchOf(uni, a, fq)) > Standing(MatchOf(uni, b, fq))
    ensures Quality(uni, a, fq) > Quality(uni, b, fq)
  {
    hide MatchOf, DensityOf, FoldedRecord, Decode;
    QualityRange(uni, a, fq);
    QualityRange(uni, b, fq);
  }

  /** At one depth, both or neither penalised, the name that answers better is worth strictly more. */
  lemma WorthByQuality(uni: Unicode, a: File, b: File, depth: nat, fq: string)
    requires fq != "" && Quality(uni, a.name, fq) > Quality(uni, b.name, fq) && (Penalised(a) <==> Penalised(b))
    ensures Worth(uni, a, depth, fq) > Worth(uni, b, depth, fq)
  {
    hide Quality;
    var q, r, d := Quality(uni, a.name, fq), Quality(uni, b.name, fq), 1.0 + 0.02 * depth as real;
    PenaltyRange(depth);
    Divide(q, d);
    Divide(r, d);
    ScaleLess(r, q, 1.0 / d);
    ScaleLess(r / d, q / d, 0.85);
  }

  /** The same quality is worth strictly less deeper down, and strictly less when hidden or system. */
  lemma WorthByPlace(uni: Unicode, a: File, b: File, da: nat, db: nat, fq: string)
    requires fq != "" && Quality(uni, a.name, fq) == Quality(uni, b.name, fq) > 0.0
    requires (da < db && Penalised(a) == Penalised(b)) || (da == db && !Penalised(a) && Penalised(b))
    ensures Worth(uni, a, da, fq) > Worth(uni, b, db, fq)
  {
    hide Quality;
    var q, x, y := Quality(uni, a.name, fq), 1.0 + 0.02 * da as real, 1.0 + 0.02 * db as real;
    QuotientFalls(q, x, y);
    PenaltyRange(da);
    Divide(q, x);
    ScaleLess(0.0, q, 1.0 / x);
    if da < db {
      ScaleLess(q / y, q / x, 0.85);
    }
  }

  /** At one key the better way of answering comes first: the name itself, then a name that starts with the query,
      then one with it at a word, then among its initials, then inside, then with its characters in order. */
  lemma BetterMatchFirst(uni: Unicode, st: State, fq: string, accept: string -> bool, k: nat, hits: seq<Hit>, f: nat,
                         g: nat)
    requires AtRest(uni, st) && fq != "" && |st.rankKey| == |st.rows| && IsAnswer(uni, st, fq, accept, k, hits)
    requires Wanted(uni, st, fq, accept, f) && g in Contents(st)
    requires CachedDepth(st, f) == CachedDepth(st, g) && (Penalised(Contents(st)[f]) <==> Penalised(Contents(st)[g]))
    requires Standing(MatchOf(uni, Contents(st)[f].name, fq)) > Standing(MatchOf(uni, Contents(st)[g].name, fq))
    ensures Before(hits, f, g)
  {
    hide StateOk, MatchOf, Quality, Worth, IsAnswer, Contents, Before, Standing, CachedDepth;
    BetterMatchIsBetter(uni, Contents(st)[f].name, Contents(st)[g].name, fq);
    WorthByQuality(uni, Contents(st)[f], Contents(st)[g], CachedDepth(st, f), fq);
    WorthierFirst(uni, st, fq, accept, k, hits, f, g);
  }

  /** The same, spelled out. At one key: the name that is the query comes before every other; one that starts with it
      before every one that does not; one with it at a word before every one with it neither in front nor at a word;
      one with it among its initials before every one with it in none of those places; and one with it inside before
      every one without it. */
  lemma AnswerOrder(uni: Unicode, st: State, fq: string, accept: string -> bool, k: nat, hits: seq<Hit>, f: nat, g: nat)
    requires AtRest(uni, st) && Searchable(fq) && |st.rankKey| == |st.rows| && IsAnswer(uni, st, fq, accept, k, hits)
    requires f in Contents(st) && g in Contents(st) && accept(Contents(st)[f].name)
    requires CachedDepth(st, f) == CachedDepth(st, g) && (Penalised(Contents(st)[f]) <==> Penalised(Contents(st)[g]))
    ensures var a, b, q := FoldedRecord(uni, Contents(st)[f].name), FoldedRecord(uni, Contents(st)[g].name), Encode(fq);
            var laneA := |q| <= 8 && OccursIn(LaneOf(uni, Contents(st)[f].name), q);
            var laneB := |q| <= 8 && OccursIn(LaneOf(uni, Contents(st)[g].name), q);
            var inFrontB, wordB := q <= b, q != [] && AfterSeparator(b, q);
            && (a == q && b != q ==> Before(hits, f, g))
            && (q <= a && !inFrontB ==> Before(hits, f, g))
            && (q != [] && AfterSeparator(a, q) && !inFrontB && !wordB ==> Before(hits, f, g))
            && (laneA && !inFrontB && !wordB && !laneB ==> Before(hits, f, g))
            && (OccursIn(a, q) && !inFrontB && !wordB && !laneB && !OccursIn(b, q) ==> Before(hits, f, g))
  {
    hide StateOk, Quality, Worth, IsAnswer, Contents, Before, CachedDepth, AfterSeparator, OccursIn, LaneOf;
    hide FoldedRecord, Encode, IsSubsequence, Decode, NoControl;
    FuzzyScan.SearchableText(fq);
    if Standing(MatchOf(uni, Contents(st)[f].name, fq)) > Standing(MatchOf(uni, Contents(st)[g].name, fq)) {
      BetterMatchFirst(uni, st, fq, accept, k, hits, f, g);
    }
  }

  /** Of two names that have the query's characters only in order, the one with the tighter window comes first. */
  lemma TighterFirst(uni: Unicode, st: State, fq: string, accept: string -> bool, k: nat, hits: seq<Hit>, f: nat,
                     g: nat, s0: nat, e0: nat, s1: nat, e1: nat)
    requires AtRest(uni, st) && fq != "" && |st.rankKey| == |st.rows| && IsAnswer(uni, st, fq, accept, k, hits)
    requires Wanted(uni, st, fq, accept, f) && g in Contents(st)
    requires CachedDepth(st, f) == CachedDepth(st, g) && (Penalised(Contents(st)[f]) <==> Penalised(Contents(st)[g]))
    requires MatchOf(uni, Contents(st)[f].name, fq).Spread? && MatchOf(uni, Contents(st)[g].name, fq).Spread?
    requires Window(Decode(FoldedRecord(uni, Contents(st)[f].name)), fq, s0, e0)
    requires Window(Decode(FoldedRecord(uni, Contents(st)[g].name)), fq, s1, e1)
    requires e0 - s0 < e1 - s1
    ensures Before(hits, f, g)
  {
    hide StateOk, MatchOf, Quality, Worth, IsAnswer, Contents, Before, CachedDepth, Window, FoldedRecord, Decode;
    TighterIsBetter(uni, Contents(st)[f].name, Contents(st)[g].name, fq, s0, e0, s1, e1);
    WorthByQuality(uni, Contents(st)[f], Contents(st)[g], CachedDepth(st, f), fq);
    WorthierFirst(uni, st, fq, accept, k, hits, f, g);
  }

  lemma TighterIsBetter(uni: Unicode, a: string, b: string, fq: string, s0: nat, e0: nat, s1: nat, e1: nat)
    requires fq != "" && MatchOf(uni, a, fq).Spread? && MatchOf(uni, b, fq).Spread?
    requires Window(Decode(FoldedRecord(uni, a)), fq, s0, e0) && Window(Decode(FoldedRecord(uni, b)), fq, s1, e1)
    requires e0 - s0 < e1 - s1
    ensures Quality(uni, a, fq) > Quality(uni, b, fq)
  {
    hide MatchOf, FoldedRecord, Decode, IsSubsequence, DensityOf, Density;
    WindowOrder(Decode(FoldedRecord(uni, a)), fq, s0, e0);
    WindowOrder(Decode(FoldedRecord(uni, b)), fq, s1, e1);
    DensityIs(Decode(FoldedRecord(uni, a)), fq, s0, e0);
    DensityIs(Decode(FoldedRecord(uni, b)), fq, s1, e1);
    TighterIsDenser(fq, s0, e0, s1, e1);
  }

  lemma WindowOrder(name: string, q: string, start: nat, end: nat)
    requires Window(name, q, start, end)
    ensures start <= end
  {
  }

  /** Of two files that answer as well, the shallower comes first; and at one depth the one not hidden or system. */
  lemma ShallowerFirst(uni: Unicode, st: State, fq: string, accept: string -> bool, k: nat, hits: seq<Hit>, f: nat,
                       g: nat)
    requires AtRest(uni, st) && fq != "" && |st.rankKey| == |st.rows| && IsAnswer(uni, st, fq, accept, k, hits)
    requires Wanted(uni, st, fq, accept, f) && g in Contents(st)
    requires Quality(uni, Contents(st)[f].name, fq) == Quality(uni, Contents(st)[g].name, fq)
    requires var hiddenF, hiddenG := Penalised(Contents(st)[f]), Penalised(Contents(st)[g]);
             || (CachedDepth(st, f) < CachedDepth(st, g) && hiddenF == hiddenG)
             || (CachedDepth(st, f) == CachedDepth(st, g) && !hiddenF && hiddenG)
    ensures Before(hits, f, g)
  {
    hide StateOk, MatchOf, IsAnswer, Contents, Before, Quality, Worth, CachedDepth;
    QualityRange(uni, Contents(st)[f].name, fq);
    WorthByPlace(uni, Contents(st)[f], Contents(st)[g], CachedDepth(st, f), CachedDepth(st, g), fq);
    WorthierFirst(uni, st, fq, accept, k, hits, f, g);
  }
}
