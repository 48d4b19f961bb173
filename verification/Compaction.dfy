/** In-place compaction, pass by pass: renumbering, the slot columns, the arenas, the block index and
    the refilled sets. */
module Compaction {
  import opened Bytes
  import opened Utf8
  import opened Names
  import opened Ranking
  import opened Table
  import opened Records
  import opened Columns
  import opened Presence
  import opened ClassBits
  import opened Depth
  import opened Journal
  import opened IndexState
  import opened Repair

  /** The renumbering mark of a slot that does not survive. */
  const DEAD_SLOT: nat := U32_MAX

  // ---- pass 1: old slot to new slot ---------------------------------------------------

  /** `orig` lists the live ones among the first `n` slots in order, and `remap` inverts it. */
  ghost predicate Renumbers(rows: seq<Row>, n: nat, orig: seq<nat>, remap: seq<nat>) {
    && |remap| == |rows| && n <= |rows| && |orig| <= n
    && (forall k :: 0 <= k < |orig| ==> orig[k] < n && rows[orig[k]].Live? && remap[orig[k]] == k)
    && (forall j, k :: 0 <= j < k < |orig| ==> orig[j] < orig[k])
    && (forall s :: 0 <= s < n && rows[s].Live? ==> remap[s] < |orig| && orig[remap[s]] == s)
    && (forall s :: 0 <= s < |rows| && (n <= s || rows[s].Vacant?) ==> remap[s] == DEAD_SLOT)
  }

  method Renumber(uni: Unicode, entries: seq<Entry>, ghost st: State)
    returns (remap: seq<nat>, kept: nat, ghost orig: seq<nat>)
    requires AtRest(uni, st) && entries == st.entries
    ensures Renumbers(st.rows, |st.rows|, orig, remap) && kept == |orig|
  {
    hide AtRest, Renumbers;
    SweepShape(uni, st);
    remap, kept, orig := Repeat(DEAD_SLOT, |entries|), 0, [];
    RenumbersNone(st.rows);
    for s := 0 to |entries|
      invariant Renumbers(st.rows, s, orig, remap) && kept == |orig| && |remap| == |entries|
    {
      SlotFacts(uni, st, s);
      if !entries[s].flags.dead {
        RenumbersLive(st.rows, s, orig, remap);
        remap := remap[s := kept];
        kept := kept + 1;
        orig := orig + [s];
      } else {
        RenumbersDead(st.rows, s, orig, remap);
      }
    }
  }

  lemma RenumbersNone(rows: seq<Row>)
    ensures Renumbers(rows, 0, [], Repeat(DEAD_SLOT, |rows|))
  {
  }

  lemma RenumbersLive(rows: seq<Row>, n: nat, orig: seq<nat>, remap: seq<nat>)
    requires Renumbers(rows, n, orig, remap) && n < |rows| && rows[n].Live?
    ensures Renumbers(rows, n + 1, orig + [n], remap[n := |orig|])
  {
  }

  lemma RenumbersDead(rows: seq<Row>, n: nat, orig: seq<nat>, remap: seq<nat>)
    requires Renumbers(rows, n, orig, remap) && n < |rows| && rows[n].Vacant?
    ensures Renumbers(rows, n + 1, orig, remap)
  {
  }

  /** The elements of `s` at the surviving slots, in order. */
  function Gather<T>(s: seq<T>, orig: seq<nat>): (r: seq<T>)
    requires forall k :: 0 <= k < |orig| ==> orig[k] < |s|
    ensures |r| == |orig| && forall k :: 0 <= k < |orig| ==> r[k] == s[orig[k]]
  {
    seq(|orig|, k requires 0 <= k < |orig| => s[orig[k]])
  }

  /** What the surviving slots are. */
  predicate Survivors(rows: seq<Row>, orig: seq<nat>) {
    && (forall k :: 0 <= k < |orig| ==> orig[k] < |rows| && rows[orig[k]].Live?)
    && (forall j, k :: 0 <= j < k < |orig| ==> orig[j] < orig[k])
    && (forall s: nat :: s < |rows| && rows[s].Live? ==> s in orig)
  }

  lemma RenumbersSurvive(rows: seq<Row>, orig: seq<nat>, remap: seq<nat>)
    requires Renumbers(rows, |rows|, orig, remap)
    ensures Survivors(rows, orig)
  {
    forall s: nat | s < |rows| && rows[s].Live? ensures s in orig {
      assert orig[remap[s]] == s;
    }
  }

  // ---- pass 2: the slot-keyed columns -----------------------------------------------------

  /** One slot's elements of a fixed-stride column. */
  function Piece<T>(col: seq<T>, stride: nat, s: nat): (p: seq<T>)
    ensures stride * s + stride <= |col| ==> |p| == stride
  {
    if stride * s + stride <= |col| then col[stride * s..stride * s + stride] else []
  }

  /** The survivors among the first `n` slots packed to the left, everything from slot `n` on untouched. */
  ghost predicate Packing<T>(was: seq<T>, col: seq<T>, stride: nat, n: nat, orig: seq<nat>, kept: nat) {
    && |col| == |was| && kept <= n && kept <= |orig| && stride * n <= |was|
    && col[stride * n..] == was[stride * n..]
    && (forall k :: 0 <= k < kept ==> Piece(col, stride, k) == Piece(was, stride, orig[k]))
  }

  lemma PackSkip<T>(was: seq<T>, col: seq<T>, stride: nat, n: nat, orig: seq<nat>, kept: nat)
    requires Packing(was, col, stride, n, orig, kept) && stride * (n + 1) <= |was|
    ensures Packing(was, col, stride, n + 1, orig, kept)
  {
    Mul(n, n, stride);
    assert col[stride * (n + 1)..] == col[stride * n..][stride..];
    assert was[stride * (n + 1)..] == was[stride * n..][stride..];
  }

  /** A piece clear of what is written stays as it was. */
  lemma PieceElsewhere<T>(col: seq<T>, at: nat, piece: seq<T>, stride: nat, k: nat)
    requires stride * k + stride <= at && at + |piece| <= |col|
    ensures Piece(Splice(col, at, piece), stride, k) == Piece(col, stride, k)
  {
    SpliceApart(col, at, piece, stride * k, stride * k + stride);
  }

  lemma PieceWritten<T>(col: seq<T>, at: nat, piece: seq<T>, stride: nat, k: nat)
    requires at == stride * k && |piece| == stride && at + stride <= |col|
    ensures Piece(Splice(col, at, piece), stride, k) == piece
  {
  }

  /** The read cursor is never behind the write cursor, so moving a piece left spoils nothing still to be read. */
  lemma PackMove<T>(was: seq<T>, col: seq<T>, stride: nat, n: nat, orig: seq<nat>, kept: nat)
    requires Packing(was, col, stride, n, orig, kept) && stride * (n + 1) <= |was|
    requires kept < |orig| && orig[kept] == n
    ensures stride * kept + stride <= stride * n + stride <= |col|
    ensures Packing(was, Splice(col, stride * kept, col[stride * n..stride * n + stride]), stride, n + 1, orig,
                    kept + 1)
  {
    Mul(n, n, stride);
    Mul(kept, n, stride);
    var piece := col[stride * n..stride * n + stride];
    var col' := Splice(col, stride * kept, piece);
    PackSkip(was, col, stride, n, orig, kept);
    SpliceApart(col, stride * kept, piece, stride * n + stride, |col|);
    assert piece == col[stride * n..][..stride] == was[stride * n..][..stride];
    assert piece == Piece(was, stride, n);
    PieceWritten(col, stride * kept, piece, stride, kept);
    hide Piece, Splice;
    forall k | 0 <= k < kept ensures Piece(col', stride, k) == Piece(was, stride, orig[k]) {
      Mul(k + 1, kept, stride);
      Mul(k, k, stride);
      PieceElsewhere(col, stride * kept, piece, stride, k);
    }
  }

  /** The same move for a column of single elements. */
  lemma PackMoveOne<T>(was: seq<T>, col: seq<T>, n: nat, orig: seq<nat>, kept: nat)
    requires Packing(was, col, 1, n, orig, kept) && n < |was| && kept < |orig| && orig[kept] == n
    ensures kept <= n < |col| && Packing(was, col[kept := col[n]], 1, n + 1, orig, kept + 1)
  {
    PackMove(was, col, 1, n, orig, kept);
    assert Splice(col, 1 * kept, col[1 * n..1 * n + 1]) == col[kept := col[n]];
  }

  lemma PackNone<T>(was: seq<T>, stride: nat, orig: seq<nat>)
    ensures Packing(was, was, stride, 0, orig, 0)
  {
    assert stride * 0 == 0;
  }

  /** Survivors' pieces, packed. */
  ghost predicate Packed<T>(was: seq<T>, col: seq<T>, stride: nat, orig: seq<nat>) {
    |col| == stride * |orig| && forall k :: 0 <= k < |orig| ==> Piece(col, stride, k) == Piece(was, stride, orig[k])
  }

  lemma PackDone<T>(was: seq<T>, col: seq<T>, stride: nat, n: nat, orig: seq<nat>)
    requires Packing(was, col, stride, n, orig, |orig|)
    ensures stride * |orig| <= |col| && Packed(was, col[..stride * |orig|], stride, orig)
  {
    Mul(|orig|, n, stride);
    var m := stride * |orig|;
    var cut := col[..m];
    forall k | 0 <= k < |orig| ensures Piece(cut, stride, k) == Piece(was, stride, orig[k]) {
      assert Piece(col, stride, k) == Piece(was, stride, orig[k]);
      PieceOfPrefix(col, stride, k, |orig|);
    }
  }

  lemma PieceOfPrefix<T>(col: seq<T>, stride: nat, k: nat, n: nat)
    requires k < n && stride * n <= |col|
    ensures Piece(col[..stride * n], stride, k) == Piece(col, stride, k)
  {
    Mul(k + 1, n, stride);
    Mul(k, k, stride);
    var m := stride * n;
    assert col[..m][stride * k..stride * k + stride] == col[stride * k..stride * k + stride];
  }

  /** Move every surviving slot's entry, key, lane and head pair left, then truncate. */
  method PackColumns(entries0: seq<Entry>, rankKey0: seq<byte>, initials0: seq<byte>, head0: seq<byte>, remap: seq<nat>,
                     kept: nat,
                     ghost rows: seq<Row>, ghost orig: seq<nat>)
    returns (entries: seq<Entry>, rankKey: seq<byte>, initials: seq<byte>, head: seq<byte>)
    requires Renumbers(rows, |rows|, orig, remap) && kept == |orig| && |rows| <= U32_MAX
    requires |entries0| == |rankKey0| == |rows| && |initials0| == 8 * |rows| && |head0| == 2 * |rows|
    ensures Packed(entries0, entries, 1, orig) && Packed(rankKey0, rankKey, 1, orig)
    ensures Packed(initials0, initials, 8, orig) && Packed(head0, head, 2, orig)
  {
    hide Packing, Piece, Splice, Packed;
    entries, rankKey, initials, head := entries0, rankKey0, initials0, head0;
    PackNone(entries0, 1, orig);
    PackNone(rankKey0, 1, orig);
    PackNone(initials0, 8, orig);
    PackNone(head0, 2, orig);
    ghost var w := 0;
    for s := 0 to |remap|
      invariant PackingAll(entries0, rankKey0, initials0, head0, entries, rankKey, initials, head, s, orig, w)
      invariant w <= |orig| && (w < |orig| ==> s <= orig[w]) && forall k :: 0 <= k < w ==> orig[k] < s
      invariant |entries| == |rankKey| == |rows| && |initials| == 8 * |rows| && |head| == 2 * |rows|
    {
      var ns := remap[s];
      if ns != DEAD_SLOT {
        assert ns == w;
        PackMoveOne(entries0, entries, s, orig, w);
        PackMoveOne(rankKey0, rankKey, s, orig, w);
        PackMove(initials0, initials, 8, s, orig, w);
        PackMove(head0, head, 2, s, orig, w);
        entries, rankKey := entries[ns := entries[s]], rankKey[ns := rankKey[s]];
        initials := Splice(initials, 8 * ns, initials[8 * s..8 * s + 8]);
        head := Splice(head, 2 * ns, head[2 * s..2 * s + 2]);
        w := w + 1;
      } else {
        PackSkip(entries0, entries, 1, s, orig, w);
        PackSkip(rankKey0, rankKey, 1, s, orig, w);
        PackSkip(initials0, initials, 8, s, orig, w);
        PackSkip(head0, head, 2, s, orig, w);
      }
    }
    PackDone(entries0, entries, 1, |rows|, orig);
    PackDone(rankKey0, rankKey, 1, |rows|, orig);
    PackDone(initials0, initials, 8, |rows|, orig);
    PackDone(head0, head, 2, |rows|, orig);
    entries, rankKey, initials, head := entries[..1 * kept], rankKey[..1 * kept], initials[..8 * kept], head[..2 * kept];
  }

  ghost predicate PackingAll(entries0: seq<Entry>, rankKey0: seq<byte>, initials0: seq<byte>, head0: seq<byte>,
                             entries: seq<Entry>, rankKey: seq<byte>, initials: seq<byte>, head: seq<byte>, n: nat,
                             orig: seq<nat>, w: nat) {
    && Packing(entries0, entries, 1, n, orig, w) && Packing(rankKey0, rankKey, 1, n, orig, w)
    && Packing(initials0, initials, 8, n, orig, w) && Packing(head0, head, 2, n, orig, w)
  }

  lemma PackedOnes<T>(was: seq<T>, col: seq<T>, orig: seq<nat>)
    requires Packed(was, col, 1, orig) && forall k :: 0 <= k < |orig| ==> orig[k] < |was|
    ensures col == Gather(was, orig)
  {
    forall k | 0 <= k < |orig| ensures col[k] == was[orig[k]] {
      assert Piece(col, 1, k) == Piece(was, 1, orig[k]);
      assert Piece(col, 1, k)[0] == col[k] && Piece(was, 1, orig[k])[0] == was[orig[k]];
    }
  }

  /** The surviving pieces are the survivors' pieces. */
  lemma PackedColumns(uni: Unicode, rows: seq<Row>, orig: seq<nat>, initials0: seq<byte>, initials: seq<byte>,
                      head0: seq<byte>, head: seq<byte>)
    requires Survivors(rows, orig) && LanesOk(uni, rows, initials0) && HeadOk(rows, head0)
    requires Packed(initials0, initials, 8, orig) && Packed(head0, head, 2, orig)
    ensures LanesOk(uni, Gather(rows, orig), initials) && HeadOk(Gather(rows, orig), head)
  {
    hide LaneFor, HeadFor;
    forall k | 0 <= k < |orig| ensures LaneAt(initials, k) == LaneFor(uni, rows[orig[k]]) {
      assert Piece(initials, 8, k) == Piece(initials0, 8, orig[k]) == LaneAt(initials0, orig[k]);
    }
    forall k | 0 <= k < |orig| ensures HeadAt(head, k) == HeadFor(rows[orig[k]]) {
      assert Piece(head, 2, k) == Piece(head0, 2, orig[k]) == HeadAt(head0, orig[k]);
    }
  }

  lemma PackedKeys(rows: seq<Row>, orig: seq<nat>, key0: seq<byte>)
    requires Survivors(rows, orig) && RankOk(rows, key0)
    ensures RankOk(Gather(rows, orig), Gather(key0, orig))
  {
  }
}
