/** The fixed-stride columns: ranking keys, initials lanes and head pairs, one piece per slot. */
module Columns {
  import opened Bytes
  import opened Names
  import opened Table
  import opened Ranking

  const HEAD_STRIDE: nat := 2

  // ---- what each column must hold -------------------------------------------------

  /** A tombstone carries the worst key; a live key's top bit is hidden-or-system. */
  predicate KeyOk(row: Row, key: byte) {
    match row
    case Vacant => key == 255
    case Live(_, _, _, _, flags) => key >= RANK_PENALIZED <==> flags.hidden || flags.system
  }

  predicate RankOk(rows: seq<Row>, rankKey: seq<byte>) {
    |rankKey| == |rows| && forall s :: 0 <= s < |rows| ==> KeyOk(rows[s], rankKey[s])
  }

  function LaneFor(uni: Unicode, row: Row): (lane: seq<byte>)
    ensures |lane| == INITIALS_STRIDE
  {
    if row.Vacant? then Repeat(DELIM, INITIALS_STRIDE) else LaneOf(uni, row.name)
  }

  function LaneAt(col: seq<byte>, s: nat): (r: seq<byte>)
    requires 8 * s + 8 <= |col|
    ensures |r| == INITIALS_STRIDE
  {
    col[8 * s..8 * s + 8]
  }

  predicate LanesOk(uni: Unicode, rows: seq<Row>, initials: seq<byte>) {
    |initials| == 8 * |rows| && forall s :: 0 <= s < |rows| ==> LaneAt(initials, s) == LaneFor(uni, rows[s])
  }

  /** The first two bytes of the folded record, NUL-padded; all NUL for a tombstone. */
  function HeadFor(row: Row): (pair: seq<byte>)
    ensures |pair| == HEAD_STRIDE
  {
    if row.Vacant? || row.folded == [] then [DELIM, DELIM]
    else [row.folded[0], if |row.folded| > 1 then row.folded[1] else DELIM]
  }

  function HeadAt(col: seq<byte>, s: nat): (r: seq<byte>)
    requires 2 * s + 2 <= |col|
    ensures |r| == HEAD_STRIDE
  {
    col[2 * s..2 * s + 2]
  }

  predicate HeadOk(rows: seq<Row>, head: seq<byte>) {
    |head| == 2 * |rows| && forall s :: 0 <= s < |rows| ==> HeadAt(head, s) == HeadFor(rows[s])
  }

  // ---- writing one slot's piece ------------------------------------------------------

  /** Append a piece past the end or copy it over the slot's bytes. */
  function PutPiece(col: seq<byte>, at: nat, piece: seq<byte>): (r: seq<byte>)
    requires at == |col| || at + |piece| <= |col|
    ensures |r| == if at == |col| then |col| + |piece| else |col|
  {
    if at == |col| then col + piece else Splice(col, at, piece)
  }

  lemma PutPieceSelf(col: seq<byte>, at: nat, piece: seq<byte>)
    requires at == |col| || at + |piece| <= |col|
    ensures PutPiece(col, at, piece)[at..at + |piece|] == piece
  {
  }

  lemma PutPieceOther(col: seq<byte>, at: nat, piece: seq<byte>, lo: nat, hi: nat)
    requires at == |col| || at + |piece| <= |col|
    requires lo <= hi <= |col| && (hi <= at || at + |piece| <= lo)
    ensures PutPiece(col, at, piece)[lo..hi] == col[lo..hi]
  {
    if at != |col| {
      SpliceApart(col, at, piece, lo, hi);
    }
  }

  lemma RankPut(rows: seq<Row>, rankKey: seq<byte>, slot: nat, row: Row, key: byte)
    requires RankOk(rows, rankKey) && slot <= |rows| && KeyOk(row, key)
    ensures RankOk(Put(rows, slot, row), Put(rankKey, slot, key))
  {
  }

  lemma LanesPut(uni: Unicode, rows: seq<Row>, initials: seq<byte>, slot: nat, row: Row)
    requires LanesOk(uni, rows, initials) && slot <= |rows|
    ensures LanesOk(uni, Put(rows, slot, row), PutPiece(initials, 8 * slot, LaneFor(uni, row)))
  {
    var lane := LaneFor(uni, row);
    var col, rows' := PutPiece(initials, 8 * slot, lane), Put(rows, slot, row);
    PutPieceSelf(initials, 8 * slot, lane);
    hide PutPiece, LaneFor;
    forall s | 0 <= s < |rows'| ensures LaneAt(col, s) == LaneFor(uni, rows'[s]) {
      if s != slot {
        PutPieceOther(initials, 8 * slot, lane, 8 * s, 8 * s + 8);
        assert LaneAt(initials, s) == LaneFor(uni, rows[s]);
      }
    }
  }

  lemma HeadPut(rows: seq<Row>, head: seq<byte>, slot: nat, row: Row)
    requires HeadOk(rows, head) && slot <= |rows|
    ensures HeadOk(Put(rows, slot, row), PutPiece(head, 2 * slot, HeadFor(row)))
  {
    var pair := HeadFor(row);
    var col, rows' := PutPiece(head, 2 * slot, pair), Put(rows, slot, row);
    PutPieceSelf(head, 2 * slot, pair);
    hide PutPiece, HeadFor;
    forall s | 0 <= s < |rows'| ensures HeadAt(col, s) == HeadFor(rows'[s]) {
      if s != slot {
        PutPieceOther(head, 2 * slot, pair, 2 * s, 2 * s + 2);
        assert HeadAt(head, s) == HeadFor(rows[s]);
      }
    }
  }

  /** A packed key: clamped depth, and the penalty bit of hidden or system entries. */
  function KeyFor(depth: nat, flags: Flags): (k: byte)
    requires depth <= RANK_DEPTH_MAX
    ensures k as int % 128 == depth
    ensures k >= RANK_PENALIZED <==> flags.hidden || flags.system
  {
    depth + if flags.hidden || flags.system then 128 else 0
  }
}
