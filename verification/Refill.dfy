/** Compaction's last passes: the block index rebuilt, the bit slices and presence sets refilled, the
    FRN map renumbered. */
module Refill {
  import opened Bytes
  import opened Utf8
  import opened Names
  import opened Ranking
  import opened Table
  import opened Records
  import opened Columns
  import opened Presence
  import opened ClassBits
  import opened Depth
  import opened Journal
  import opened IndexState
  import opened Repair
  import opened Compaction
  import opened ArenaMove
  import Paths

  // ---- the block index -----------------------------------------------------------------------

  /** Record `o` is the last one starting at or before block `b`; block 0 clamps to the first. */
  predicate BlockOk(recs: seq<ArenaRec>, b: nat, o: nat) {
    && o < |recs| && (b == 0 ==> o == 0) && (b > 0 ==> recs[o].off <= 64 * b)
    && (o + 1 < |recs| ==> recs[o + 1].off > 64 * b)
  }

  predicate BlocksOk(recs: seq<ArenaRec>, owner: seq<nat>) {
    forall b :: 0 <= b < |owner| ==> BlockOk(recs, b, owner[b])
  }

  /** Give one record every block up to a byte. */
  method FillBlocks(owner0: seq<nat>, ri: nat, upTo: nat, ghost recs: seq<ArenaRec>) returns (owner: seq<nat>)
    requires BlocksOk(recs, owner0) && |owner0| <= (upTo + 63) / 64
    requires forall b: nat :: |owner0| <= b && 64 * b < upTo ==> BlockOk(recs, b, ri)
    ensures BlocksOk(recs, owner) && |owner| == (upTo + 63) / 64
  {
    hide BlockOk;
    owner := owner0;
    while |owner| * OWNER_BLOCK < upTo
      invariant BlocksOk(recs, owner) && |owner0| <= |owner| <= (upTo + 63) / 64
      decreases upTo - |owner| * OWNER_BLOCK
    {
      owner := owner + [ri];
    }
  }

  method RebuildOwner(recs: seq<ArenaRec>, arenaLen: nat, ghost arena: seq<byte>) returns (owner: seq<nat>)
    requires RecsOk(arena, arenaLen, recs)
    ensures OwnerOk(owner, recs, arenaLen)
  {
    hide RecsOk, BlocksOk;
    RecsRoom(arena, arenaLen, recs);
    owner := [];
    NoBlocks(recs, owner);
    for ri := 0 to |recs|
      invariant BlocksOk(recs, owner)
      invariant |owner| == if ri == 0 then 0 else (recs[ri - 1].off + 63) / 64
    {
      // Blocks whose first byte precedes this record belong to the one before it.
      owner := FillBlocks(owner, if ri == 0 then 0 else ri - 1, recs[ri].off, recs);
    }
    owner := FillBlocks(owner, if recs == [] then 0 else |recs| - 1, arenaLen, recs);
    BlocksAreOwners(recs, owner, arenaLen);
  }

  lemma NoBlocks(recs: seq<ArenaRec>, owner: seq<nat>)
    requires owner == []
    ensures BlocksOk(recs, owner)
  {
  }

  lemma RecsRoom(arena: seq<byte>, end: nat, recs: seq<ArenaRec>)
    requires RecsOk(arena, end, recs)
    ensures recs == [] ==> end == 0
    ensures recs != [] ==> recs[0].off == 1
    ensures forall i, j :: 0 <= i < j < |recs| ==> recs[i].off < recs[j].off
    ensures forall i :: 0 <= i < |recs| ==> recs[i].off < end
  {
  }

  lemma BlocksAreOwners(recs: seq<ArenaRec>, owner: seq<nat>, end: nat)
    requires BlocksOk(recs, owner) && |owner| == (end + 63) / 64
    ensures OwnerOk(owner, recs, end)
  {
    forall b | 0 <= b < |owner| ensures BlockOk(recs, b, owner[b]) {
    }
  }

  // ---- the bit slices and the presence sets -----------------------------------------------------

  /** Every row live, its folded text where its entry says. */
  predicate Texts(entries: seq<Entry>, arena: seq<byte>, rows: seq<Row>) {
    && |entries| == |rows|
    && forall s :: 0 <= s < |rows| ==>
         && rows[s].Live? && entries[s].foldedOff + entries[s].foldedLen <= |arena|
         && arena[entries[s].foldedOff..entries[s].foldedOff + entries[s].foldedLen] == rows[s].folded
  }

  lemma TextsOf(b: Built, arena: seq<byte>, names: seq<byte>, recs: seq<ArenaRec>)
    requires PrefixOk(b, arena, names, recs) && forall k :: 0 <= k < |b.rows| ==> b.rows[k].Live?
    ensures Texts(b.entries, arena, b.rows)
  {
    hide NamesAscend, LiveBytes, Fences, RecsOk, Settled;
    forall s | 0 <= s < |b.rows| ensures b.entries[s].foldedOff + b.entries[s].foldedLen <= |arena|
      && arena[b.entries[s].foldedOff..b.entries[s].foldedOff + b.entries[s].foldedLen] == b.rows[s].folded
    {
      assert Holds(b.rows, b.entries, arena, |arena|, recs, s, b.recOf[s]);
    }
  }

  lemma ZeroBits(words: nat, n: nat)
    requires words % BSI_CHUNK_WORDS == 0 && n == BSI_CLASSES * words
    ensures BsiOk([], Repeat({}, n), words)
  {
  }

  lemma ShapeLen(bsi: seq<Word>, words: nat)
    requires SliceShape(bsi, words)
    ensures |bsi| == BSI_CLASSES * words && words % BSI_CHUNK_WORDS == 0
  {
  }

  /** Zero the slices and the arena sets and refill both from the live records. */
  method RefillRecords(entries: seq<Entry>, arena: seq<byte>, bsi0: seq<Word>, words: nat, grams0: Grams,
                       ghost rows: seq<Row>)
    returns (bsi: seq<Word>, grams: Grams)
    requires Texts(entries, arena, rows) && SliceShape(bsi0, words) && |rows| <= 64 * words
    ensures BsiOk(rows, bsi, words) && ArenaNoted(rows, grams)
    ensures grams.tri.Some? <==> grams0.tri.Some?
  {
    hide BsiOk, SliceShape, ArenaNoted, Noted, GramsCover;
    ShapeLen(bsi0, words);
    ZeroBits(words, |bsi0|);
    bsi := Repeat({}, |bsi0|);
    grams := Grams({}, {}, if grams0.tri.Some? then Some({}) else None);
    NothingNoted(grams);
    for slot := 0 to |entries|
      invariant BsiOk(rows[..slot], bsi, words) && ArenaNoted(rows[..slot], grams)
      invariant (grams.tri.Some? <==> grams0.tri.Some?)
    {
      var e := entries[slot];
      var text := arena[e.foldedOff..e.foldedOff + e.foldedLen];
      var more := Note(grams, text);
      ArenaNotedPut(rows[..slot], grams, more, slot, rows[slot]);
      assert Put(rows[..slot], slot, rows[slot]) == rows[..slot + 1];
      grams := more;
      bsi := SetRow(bsi, words, slot, ClassMask(text), rows);
    }
    assert rows[..|rows|] == rows;
  }

  lemma NothingNoted(g: Grams)
    ensures ArenaNoted([], g)
  {
  }

  method SetRow(bsi0: seq<Word>, words: nat, slot: nat, mask: Word, ghost rows: seq<Row>) returns (bsi: seq<Word>)
    requires slot < |rows| <= 64 * words && rows[slot].Live? && mask == ClassMask(rows[slot].folded)
    requires BsiOk(rows[..slot], bsi0, words)
    ensures BsiOk(rows[..slot + 1], bsi, words)
  {
    assert SliceShape(bsi0, words);
    hide BsiOk, SliceShape;
    bsi := Apply(bsi0, words, slot, mask, true);
    BsiAfterApply(rows[..slot], rows[..slot + 1], bsi0, bsi, words, slot, mask, true);
  }

  /** Refill the initials sets from the column itself. */
  method RefillLanes(uni: Unicode, initials: seq<byte>, n: nat, ghost rows: seq<Row>) returns (grams: Grams)
    requires LanesOk(uni, rows, initials) && n == |rows|
    ensures LanesNoted(uni, rows, grams)
  {
    hide LanesNoted, Noted, GramsCover, LaneFor;
    grams := Grams({}, {}, None);
    EmptyGrams(uni, grams);
    for slot := 0 to n
      invariant LanesNoted(uni, rows[..slot], grams)
    {
      var lane := LaneAt(initials, slot);
      var more := Note(grams, lane);
      LanesNotedPut(uni, rows[..slot], grams, more, slot, rows[slot]);
      assert Put(rows[..slot], slot, rows[slot]) == rows[..slot + 1];
      grams := more;
    }
    assert rows[..|rows|] == rows;
  }

  // ---- the FRN map -----------------------------------------------------------------------------

  /** Keys stay; each slot follows its renumbering. */
  method RenumberMap(frnMap0: map<nat, nat>, remap: seq<nat>, ghost rows: seq<Row>, ghost orig: seq<nat>)
    returns (frnMap: map<nat, nat>)
    requires Renumbers(rows, |rows|, orig, remap) && MapOk(rows, frnMap0)
    requires forall k :: 0 <= k < |orig| ==> orig[k] < |rows|
    ensures MapOk(Gather(rows, orig), frnMap) && |frnMap| == |frnMap0| == |orig|
    ensures Files(Gather(rows, orig), frnMap) == Files(rows, frnMap0)
  {
    frnMap := map f | f in frnMap0 :: remap[frnMap0[f]];
    RenumberedMap(frnMap0, remap, rows, orig, frnMap);
  }

  lemma RenumberedMap(frnMap0: map<nat, nat>, remap: seq<nat>, rows: seq<Row>, orig: seq<nat>, frnMap: map<nat, nat>)
    requires Renumbers(rows, |rows|, orig, remap) && MapOk(rows, frnMap0)
    requires forall k :: 0 <= k < |orig| ==> orig[k] < |rows|
    requires frnMap == map f | f in frnMap0 :: remap[frnMap0[f]]
    ensures MapOk(Gather(rows, orig), frnMap) && |frnMap| == |frnMap0| == |orig|
    ensures Files(Gather(rows, orig), frnMap) == Files(rows, frnMap0)
  {
    var rows' := Gather(rows, orig);
    forall f | f in frnMap0 ensures remap[frnMap0[f]] < |rows'| && rows'[remap[frnMap0[f]]] == rows[frnMap0[f]] {
      assert orig[remap[frnMap0[f]]] == frnMap0[f];
    }
    assert frnMap.Keys == frnMap0.Keys;
    AllLiveCount(rows', frnMap);
  }

  lemma AllLiveCount(rows: seq<Row>, frnMap: map<nat, nat>)
    requires MapOk(rows, frnMap) && forall k :: 0 <= k < |rows| ==> rows[k].Live?
    ensures |frnMap| == |rows|
  {
    FreeCount(rows, frnMap, []);
  }

  // ---- the compacted state -----------------------------------------------------------------------

  /** What the passes computed. */
  datatype Parts = Parts(entries: seq<Entry>, names: seq<byte>, folded: seq<byte>, rankKey: seq<byte>,
                         initials: seq<byte>, head: seq<byte>,
                         recs: seq<ArenaRec>, owner: seq<nat>, bsi: seq<Word>, arenaGrams: Grams, laneGrams: Grams,
                         frnMap: map<nat, nat>)

  /** The packed columns in place: no free slots, no dead bytes, no repair outstanding. */
  function Compacted(st: State, c: Parts, rows: seq<Row>, recOf: map<nat, nat>): State {
    st.(entries := c.entries, nameArena := c.names, foldedArena := c.folded, frnMap := c.frnMap, freeSlots := [],
        deadBytes := 0,
        rankKey := c.rankKey, arenaRecs := c.recs, owner := c.owner, initials := c.initials, head := c.head, bsi := c.bsi,
        arenaGrams := c.arenaGrams, laneGrams := c.laneGrams, repairArmed := false, repairCursor := 0, repairState := [],
        rows := rows, recOf := recOf, arenaEnd := |c.folded|, namesEnd := |c.names|)
  }

  ghost predicate PartsOk(uni: Unicode, st: State, orig: seq<nat>, c: Parts, b: Built) {
    && Survivors(st.rows, orig) && |st.rankKey| == |st.rows| && b.rows == Gather(st.rows, orig)
    && b.entries == c.entries
    && c.rankKey == Gather(st.rankKey, orig)
    && PrefixOk(b, c.folded, c.names, c.recs) && OwnerOk(c.owner, c.recs, |c.folded|)
    && LanesOk(uni, b.rows, c.initials) && HeadOk(b.rows, c.head)
    && BsiOk(b.rows, c.bsi, st.bsiWords) && ArenaNoted(b.rows, c.arenaGrams) && LanesNoted(uni, b.rows, c.laneGrams)
    && MapOk(b.rows, c.frnMap) && |c.frnMap| == |st.frnMap|
    && |c.folded| <= |st.foldedArena| && |c.names| <= |st.nameArena| && |orig| <= |st.rows|
  }

  lemma CompactedOk(uni: Unicode, st: State, orig: seq<nat>, c: Parts, b: Built)
    requires AtRest(uni, st) && PartsOk(uni, st, orig, c, b)
    ensures AtRest(uni, Compacted(st, c, b.rows, b.recOf))
  {
    hide RowsOk, EntriesOk, MapOk, FreeOk, RecsOk, LiveRecs, OwnerOk, NamesAscend, RankOk, LanesOk, HeadOk, BsiOk;
    hide ArenaNoted, LanesNoted;
    hide LiveBytes, Fences, MarksOk, Survivors, Gather;
    GatheredRows(uni, st.rows, orig);
    TableShape(st.entries, st.rows, st.nameArena, st.namesEnd);
    TableShape(b.entries, b.rows, c.names, |c.names|);
    PackedKeys(st.rows, orig, st.rankKey);
    NoMarks();
  }

  lemma NoMarks()
    ensures MarksOk([])
  {
  }

  lemma GatheredRows(uni: Unicode, rows: seq<Row>, orig: seq<nat>)
    requires RowsOk(uni, rows) && Survivors(rows, orig)
    ensures RowsOk(uni, Gather(rows, orig)) && FreeOk(Gather(rows, orig), [], {})
    ensures forall k :: 0 <= k < |orig| ==> Gather(rows, orig)[k].Live?
  {
    hide RowOk;
  }

  /** Dead weight enough to compact: bytes, stale records or dead slots. */
  predicate ShouldCompact(st: State) {
    var bytes := |st.nameArena| + |st.foldedArena|;
    var stale := if |st.arenaRecs| > st.liveCount then |st.arenaRecs| - st.liveCount else 0;
    var dead := if |st.entries| > st.liveCount then |st.entries| - st.liveCount else 0;
    || st.deadBytes as real > 0.25 * (AtLeastOne(bytes) as real)
    || stale as real > 0.25 * (AtLeastOne(|st.arenaRecs|) as real)
    || dead as real > 0.125 * (AtLeastOne(|st.entries|) as real)
  }

  function AtLeastOne(n: nat): nat {
    if n == 0 then 1 else n
  }

  /** Compaction is due exactly when more than a quarter of the bytes are dead, more than a quarter of the records
      superseded, or more than an eighth of the slots vacant; a lone dead byte, record or slot in nothing counts as
      one in one. */
  lemma CompactionIsDue(st: State)
    ensures ShouldCompact(st) <==>
              var bytes, recs, slots := |st.nameArena| + |st.foldedArena|, |st.arenaRecs|, |st.entries|;
              || 4 * st.deadBytes > (if bytes == 0 then 1 else bytes)
              || 4 * (recs - st.liveCount) > (if recs == 0 then 1 else recs)
              || 8 * (slots - st.liveCount) > (if slots == 0 then 1 else slots)
  {
    var bytes := |st.nameArena| + |st.foldedArena|;
    var stale := if |st.arenaRecs| > st.liveCount then |st.arenaRecs| - st.liveCount else 0;
    var dead := if |st.entries| > st.liveCount then |st.entries| - st.liveCount else 0;
    Fraction(st.deadBytes, AtLeastOne(bytes));
    Fraction(stale, AtLeastOne(|st.arenaRecs|));
    Fraction(dead, AtLeastOne(|st.entries|));
  }

  lemma Fraction(a: nat, b: nat)
    ensures a as real > 0.25 * (b as real) <==> 4 * a > b
    ensures a as real > 0.125 * (b as real) <==> 8 * a > b
  {
    assert 4.0 * (a as real) == (4 * a) as real && 8.0 * (a as real) == (8 * a) as real;
  }

  lemma NothingToCompact(st: State)
    requires st.deadBytes == 0 && |st.arenaRecs| == |st.entries| == st.liveCount
    ensures !ShouldCompact(st)
  {
  }

  // ---- cached depths survive renumbering -----------------------------------------------------------

  /** A slot's true depth belongs to its file, so exact keys are the same bytes before and after. */
  lemma SameKeys(uni: Unicode, st: State, st': State, orig: seq<nat>)
    requires AtRest(uni, st) && AtRest(uni, st') && DepthsExact(st) && DepthsExact(st')
    requires Survivors(st.rows, orig) && st'.rows == Gather(st.rows, orig) && Contents(st') == Contents(st)
    requires |st.rankKey| == |st.rows| && |st'.rankKey| == |orig|
    requires forall k :: 0 <= k < |orig| ==>
               (st'.rankKey[k] >= RANK_PENALIZED <==> st.rankKey[orig[k]] >= RANK_PENALIZED)
    ensures st'.rankKey == Gather(st.rankKey, orig)
  {
    hide AtRest, DepthsExact, Contents;
    forall k | 0 <= k < |orig| ensures st'.rankKey[k] == st.rankKey[orig[k]] {
      ExactKey(uni, st, orig[k]);
      ExactKey(uni, st', k);
      SplitKey(st.rankKey[orig[k]]);
      SplitKey(st'.rankKey[k]);
    }
  }

  lemma ExactKey(uni: Unicode, st: State, s: nat)
    requires AtRest(uni, st) && DepthsExact(st) && s < |st.rows| && st.rows[s].Live? && s < |st.rankKey|
    ensures st.rows[s].frn in Contents(st)
    ensures st.rankKey[s] as int % 128 == Paths.DepthIn(Contents(st), st.rows[s].frn, RANK_DEPTH_MAX)
  {
    hide RowsOk, RecsOk, LiveRecs, OwnerOk, NamesAscend, RankOk, LanesOk, HeadOk, BsiOk, ArenaNoted, LanesNoted, FreeOk;
    hide MarksOk, EntriesOk, Files, MapLive, Encode;
    SweepShape(uni, st);
    LiveEntryFacts(st.rows, st.entries, st.nameArena, st.namesEnd, st.frnMap, s);
    Paths.StepsAreDepth(st.entries, st.rows, st.nameArena, st.namesEnd, st.frnMap, st.rows[s].frn, RANK_DEPTH_MAX);
    assert ExactDepth(st.entries, st.frnMap, st.rankKey, s);
  }

  // ---- glue for the passes ---------------------------------------------------------------------------

  /** What the passes need of the index they start from. */
  lemma CompactShape(uni: Unicode, st: State, orig: seq<nat>)
    requires AtRest(uni, st) && Survivors(st.rows, orig)
    ensures |st.entries| == |st.rankKey| == |st.rows| <= U32_MAX && |st.initials| == 8 * |st.rows|
    ensures |st.head| == 2 * |st.rows|
    ensures LanesOk(uni, st.rows, st.initials) && HeadOk(st.rows, st.head) && MapOk(st.rows, st.frnMap)
    ensures SliceShape(st.bsi, st.bsiWords) && |orig| <= |st.rows| <= 64 * st.bsiWords
    ensures forall k :: 0 <= k < |orig| ==> orig[k] < |st.rows|
  {
    hide RowsOk, EntriesOk, MapOk, FreeOk, RecsOk, LiveRecs, OwnerOk, NamesAscend, RankOk, LanesOk, HeadOk, BsiOk;
    hide ArenaNoted, LanesNoted, MarksOk, SliceShape;
    TableShape(st.entries, st.rows, st.nameArena, st.namesEnd);
    ColumnsShape(uni, st.rows, st.rankKey, st.initials, st.head, st.bsi, st.bsiWords);
    AscendingFits(orig, |st.rows|);
  }

  /** Strictly ascending numbers below a bound are no more than the bound. */
  lemma {:induction false} AscendingFits(s: seq<nat>, n: nat)
    requires (forall j, k :: 0 <= j < k < |s| ==> s[j] < s[k]) && forall k :: 0 <= k < |s| ==> s[k] < n
    ensures |s| <= n
  {
    if s != [] {
      AscendingFits(s[..|s| - 1], s[|s| - 1]);
    }
  }

  lemma PrefixShape(b: Built, folded: seq<byte>, names: seq<byte>, recs: seq<ArenaRec>)
    requires PrefixOk(b, folded, names, recs)
    ensures RecsOk(folded, |folded|, recs) && |b.entries| == |b.rows|
    ensures |names| + |folded| == LiveBytes(b.rows) + Fences(recs)
  {
    hide RecsOk, LiveRecs, NamesAscend, EntriesOk;
    TableShape(b.entries, b.rows, names, |names|);
  }

  lemma AllSurvive(rows: seq<Row>, orig: seq<nat>)
    requires Survivors(rows, orig)
    ensures forall k :: 0 <= k < |orig| ==> Gather(rows, orig)[k].Live?
  {
  }

  lemma NoCursor(st: State)
    requires !st.repairArmed
    ensures CursorOk(st, {})
  {
  }

  /** What a compaction leaves, from the packed state and the sweep that follows it. */
  lemma CompactFacts(uni: Unicode, st: State, orig: seq<nat>, c: Parts, b: Built, packed: State, st': State)
    requires AtRest(uni, st) && PartsOk(uni, st, orig, c, b) && packed == Compacted(st, c, b.rows, b.recOf)
    requires MapOk(st.rows, st.frnMap) && Files(b.rows, c.frnMap) == Files(st.rows, st.frnMap)
    requires |c.recs| == |c.entries| == |c.frnMap| == |b.rows|
    requires st' == Resettled(packed, st'.rankKey, false, 0, [])
    requires KeysKept(packed.entries, packed.rankKey, st'.rankKey)
    requires AtRest(uni, st') && DepthsExact(st')
    ensures Contents(st') == Contents(st)
    ensures Survivors(st.rows, orig) && st'.rows == Gather(st.rows, orig)
    ensures |st.rankKey| == |st.rows| && (DepthsExact(st) ==> st'.rankKey == Gather(st.rankKey, orig))
    ensures st'.deadBytes == 0 && st'.freeSlots == [] && |st'.arenaRecs| == |st'.entries| == st'.liveCount
    ensures |st'.nameArena| + |st'.foldedArena| == LiveBytes(st'.rows) + Fences(st'.arenaRecs)
  {
    hide AtRest, DepthsExact, PrefixOk, LanesOk, HeadOk, BsiOk, OwnerOk, ArenaNoted, LanesNoted, MapOk, Survivors;
    hide Gather, LiveBytes, Fences, Files;
    PrefixShape(b, c.folded, c.names, c.recs);
    SweepShape(uni, st');
    LiveCount(uni, st');
    KeptBits(st.rankKey, orig, st.rows, packed.entries, st'.rankKey);
    if DepthsExact(st) {
      SameKeys(uni, st, st', orig);
    }
  }

  lemma LiveCount(uni: Unicode, st: State)
    requires AtRest(uni, st)
    ensures st.liveCount == |st.frnMap|
  {
    hide RowsOk, EntriesOk, MapOk, FreeOk, ArenasOk, ColumnsOk, MarksOk;
  }

  lemma KeptBits(key0: seq<byte>, orig: seq<nat>, rows: seq<Row>, entries: seq<Entry>, key: seq<byte>)
    requires Survivors(rows, orig) && |key0| == |rows| && KeysKept(entries, Gather(key0, orig), key)
    ensures forall k :: 0 <= k < |orig| ==>
              orig[k] < |key0| && k < |key| && (key[k] >= RANK_PENALIZED <==> key0[orig[k]] >= RANK_PENALIZED)
  {
  }
}
