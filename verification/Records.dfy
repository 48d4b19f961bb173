/** The fenced folded arena, its record table and block index, and the hit-to-slot mapping. */
module Records {
  import opened Bytes
  import opened Table
  import opened Ranking

  /** Folded-arena bytes covered by one `owner` slot. */
  const OWNER_BLOCK: nat := 64

  datatype ArenaRec = ArenaRec(off: nat, slot: nat)

  /** One past the last byte of record `i`: its closing fence. */
  function RecEnd(end: nat, recs: seq<ArenaRec>, i: nat): int
    requires i < |recs|
  {
    (if i + 1 < |recs| then recs[i + 1].off else end) - 1
  }

  /** `0x00 rec 0x00 rec 0x00` over the first `end` bytes, with records in offset order. */
  predicate RecsOk(arena: seq<byte>, end: nat, recs: seq<ArenaRec>) {
    && end <= |arena|
    && (end == 0 <==> recs == [])
    && (recs != [] ==> recs[0].off == 1 && arena[0] == DELIM)
    && (forall i, j :: 0 <= i < j < |recs| ==> recs[i].off < recs[j].off)
    && (forall i :: 0 <= i < |recs| ==>
           recs[i].off < RecEnd(end, recs, i) < end && arena[RecEnd(end, recs, i)] == DELIM)
  }

  /** Record `i` is its slot's current one. */
  predicate RecLive(recs: seq<ArenaRec>, recOf: map<nat, nat>, i: nat)
    requires i < |recs|
  {
    recs[i].slot in recOf && recOf[recs[i].slot] == i
  }

  predicate Erased(arena: seq<byte>, lo: nat, hi: int) {
    forall k :: lo <= k < hi && k < |arena| ==> arena[k] == DELIM
  }

  /** Slot `s` is live in record `i`, which holds exactly its folded text. */
  predicate Holds(rows: seq<Row>, entries: seq<Entry>, arena: seq<byte>, end: nat, recs: seq<ArenaRec>, s: nat,
                  i: nat) {
    && s < |rows| && rows[s].Live? && s < |entries| && i < |recs|
    && recs[i] == ArenaRec(entries[s].foldedOff, s)
    && RecEnd(end, recs, i) == entries[s].foldedOff + entries[s].foldedLen < |arena|
    && arena[entries[s].foldedOff..entries[s].foldedOff + entries[s].foldedLen] == rows[s].folded
  }

  lemma HoldsFacts(rows: seq<Row>, entries: seq<Entry>, arena: seq<byte>, end: nat, recs: seq<ArenaRec>, s: nat, i: nat)
    requires Holds(rows, entries, arena, end, recs, s, i)
    ensures i < |recs| && recs[i].slot == s && s < |rows| && rows[s].Live?
    ensures s < |entries| && recs[i].off == entries[s].foldedOff
    ensures RecEnd(end, recs, i) == entries[s].foldedOff + |rows[s].folded| && entries[s].foldedLen == |rows[s].folded|
  {
  }

  /** Record `i` is some slot's current one, or has been erased. */
  predicate Settled(rows: seq<Row>, arena: seq<byte>, end: nat, recs: seq<ArenaRec>, recOf: map<nat, nat>, i: nat) {
    && i < |recs| && recs[i].slot < |rows|
    && (RecLive(recs, recOf, i) || Erased(arena, recs[i].off, RecEnd(end, recs, i)))
  }

  /** `recOf` sends each live slot to its record; every other record has been erased. */
  predicate LiveRecs(rows: seq<Row>, entries: seq<Entry>, arena: seq<byte>, end: nat, recs: seq<ArenaRec>,
                     recOf: map<nat, nat>) {
    && (forall s :: 0 <= s < |rows| && rows[s].Live? ==> s in recOf)
    && (forall s :: s in recOf ==> Holds(rows, entries, arena, end, recs, s, recOf[s]))
    && (forall i :: 0 <= i < |recs| ==> Settled(rows, arena, end, recs, recOf, i))
  }

  /** `owner[b]` is the last record starting at or before block `b`; block 0 clamps to 0. */
  predicate OwnerOk(owner: seq<nat>, recs: seq<ArenaRec>, end: nat) {
    && |owner| == (end + 63) / 64
    && (forall b :: 0 <= b < |owner| ==>
          && owner[b] < |recs|
          && (b == 0 ==> owner[b] == 0)
          && (b > 0 ==> recs[owner[b]].off <= 64 * b)
          && (owner[b] + 1 < |recs| ==> recs[owner[b] + 1].off > 64 * b))
  }

  // ---- hit to slot -----------------------------------------------------------------

  /** `hit` lies in record `i` or on the fence closing it. */
  predicate InRec(recs: seq<ArenaRec>, end: nat, i: nat, hit: nat) {
    i < |recs| && recs[i].off <= hit && (if i + 1 < |recs| then hit < recs[i + 1].off else hit < end)
  }

  /** The block a hit falls in. */
  function BlockOf(hit: nat): nat {
    hit / OWNER_BLOCK
  }

  /** The offset compare and the dead bit decide liveness. */
  lemma LivenessTest(rows: seq<Row>, entries: seq<Entry>, names: seq<byte>, nend: nat,
                     arena: seq<byte>, end: nat, recs: seq<ArenaRec>, recOf: map<nat, nat>, i: nat)
    requires RecsOk(arena, end, recs) && LiveRecs(rows, entries, arena, end, recs, recOf)
    requires EntriesOk(entries, rows, names, nend) && i < |recs|
    ensures recs[i].slot < |entries|
    ensures RecLive(recs, recOf, i) <==>
              recs[i].off == entries[recs[i].slot].foldedOff && !entries[recs[i].slot].flags.dead
  {
    assert Settled(rows, arena, end, recs, recOf, i);
    var s := recs[i].slot;
    assert EntryOk(entries[s], rows[s], names, nend);
    if !entries[s].flags.dead {
      assert rows[s].Live?;
      assert Holds(rows, entries, arena, end, recs, s, recOf[s]);
    }
  }

  method SlotAt(owner: seq<nat>, recs: seq<ArenaRec>, entries: seq<Entry>, hit: nat,
                ghost rows: seq<Row>, ghost names: seq<byte>, ghost nend: nat,
                ghost arena: seq<byte>, ghost end: nat, ghost recOf: map<nat, nat>) returns (r: Option<nat>)
    requires RecsOk(arena, end, recs) && LiveRecs(rows, entries, arena, end, recs, recOf)
    requires EntriesOk(entries, rows, names, nend) && OwnerOk(owner, recs, end)
    requires 1 <= hit < end
    ensures forall i: nat :: InRec(recs, end, i, hit) ==> r == if RecLive(recs, recOf, i) then Some(recs[i].slot)
            else None
  {
    OwnerStart(arena, owner, recs, end, hit);
    hide LiveRecs, EntriesOk, OwnerOk, RecsOk, RecLive, InRec, BlockOf;
    var ri := owner[BlockOf(hit)];
    while ri + 1 < |recs| && recs[ri + 1].off <= hit
      invariant ri < |recs| && recs[ri].off <= hit
    {
      ri := ri + 1;
    }
    var rec := recs[ri];
    LivenessTest(rows, entries, names, nend, arena, end, recs, recOf, ri);
    WalkStopsAt(arena, end, recs, ri, hit);
    var e := entries[rec.slot];
    if rec.off != e.foldedOff || e.flags.dead {
      return None;
    }
    return Some(rec.slot);
  }

  /** The block index starts the walk at or before the record that contains the hit. */
  lemma OwnerStart(arena: seq<byte>, owner: seq<nat>, recs: seq<ArenaRec>, end: nat, hit: nat)
    requires RecsOk(arena, end, recs) && OwnerOk(owner, recs, end) && 1 <= hit < end
    ensures BlockOf(hit) < |owner| && owner[BlockOf(hit)] < |recs| && recs[owner[BlockOf(hit)]].off <= hit
  {
    var b := BlockOf(hit);
    assert 64 * b <= hit < 64 * b + 64;
  }

  /** Where the walk stops is the one record the hit lies in. */
  lemma WalkStopsAt(arena: seq<byte>, end: nat, recs: seq<ArenaRec>, ri: nat, hit: nat)
    requires RecsOk(arena, end, recs) && ri < |recs| && recs[ri].off <= hit < end
    requires ri + 1 < |recs| ==> hit < recs[ri + 1].off
    ensures forall i: nat :: InRec(recs, end, i, hit) ==> i == ri
  {
    OnlyRec(arena, end, recs, ri, hit);
  }

  lemma OnlyRec(arena: seq<byte>, end: nat, recs: seq<ArenaRec>, i: nat, hit: nat)
    requires RecsOk(arena, end, recs) && InRec(recs, end, i, hit)
    ensures forall j: nat :: InRec(recs, end, j, hit) ==> j == i
  {
    forall j: nat | InRec(recs, end, j, hit) ensures j == i {
      if i != j {
        Apart(arena, end, recs, i, j);
      }
    }
  }

  /** Every byte of a live record is in that record and no other. */
  lemma LiveByteInRec(rows: seq<Row>, entries: seq<Entry>, arena: seq<byte>, end: nat, recs: seq<ArenaRec>,
                      recOf: map<nat, nat>, s: nat, hit: nat)
    requires RecsOk(arena, end, recs) && LiveRecs(rows, entries, arena, end, recs, recOf)
    requires s in recOf && entries[s].foldedOff <= hit < entries[s].foldedOff + |rows[s].folded|
    ensures InRec(recs, end, recOf[s], hit)
    ensures forall i :: InRec(recs, end, i, hit) ==> i == recOf[s]
  {
    var i := recOf[s];
    assert Holds(rows, entries, arena, end, recs, s, i);
    assert recs[i].off < RecEnd(end, recs, i) < end;
  }

  // ---- appending a record --------------------------------------------------------------

  /** Where the next record will start. */
  function NextOff(end: nat): nat {
    if end == 0 then 1 else end
  }

  /** The bytes after `end` are one interned record, waiting to be registered. */
  predicate Staged(arena: seq<byte>, end: nat, folded: seq<byte>) {
    && |arena| == NextOff(end) + |folded| + 1
    && (end == 0 ==> arena[0] == DELIM)
    && arena[NextOff(end)..NextOff(end) + |folded|] == folded
    && arena[|arena| - 1] == DELIM
  }

  lemma RecsAfterIntern(arena: seq<byte>, end: nat, recs: seq<ArenaRec>, more: seq<byte>)
    requires RecsOk(arena, end, recs)
    ensures RecsOk(arena + more, end, recs)
  {
  }

  lemma HoldsAfterIntern(rows: seq<Row>, entries: seq<Entry>, arena: seq<byte>, end: nat, recs: seq<ArenaRec>, s: nat,
                         i: nat, more: seq<byte>)
    requires Holds(rows, entries, arena, end, recs, s, i)
    ensures Holds(rows, entries, arena + more, end, recs, s, i)
  {
    var lo, hi := entries[s].foldedOff, entries[s].foldedOff + entries[s].foldedLen;
    assert (arena + more)[lo..hi] == arena[lo..hi];
  }

  lemma LiveAfterIntern(rows: seq<Row>, entries: seq<Entry>, arena: seq<byte>, end: nat, recs: seq<ArenaRec>,
                        recOf: map<nat, nat>, more: seq<byte>)
    requires RecsOk(arena, end, recs) && LiveRecs(rows, entries, arena, end, recs, recOf)
    ensures LiveRecs(rows, entries, arena + more, end, recs, recOf)
  {
    forall s | s in recOf ensures Holds(rows, entries, arena + more, end, recs, s, recOf[s]) {
      HoldsAfterIntern(rows, entries, arena, end, recs, s, recOf[s], more);
    }
    hide Holds;
    forall i | 0 <= i < |recs| ensures Settled(rows, arena + more, end, recs, recOf, i) {
      assert Settled(rows, arena, end, recs, recOf, i);
    }
  }

  lemma RecsAfterPush(arena: seq<byte>, end: nat, recs: seq<ArenaRec>, slot: nat, folded: seq<byte>)
    requires RecsOk(arena, end, recs) && Staged(arena, end, folded) && folded != []
    ensures RecsOk(arena, |arena|, recs + [ArenaRec(NextOff(end), slot)])
  {
    var recs' := recs + [ArenaRec(NextOff(end), slot)];
    forall i | 0 <= i < |recs'|
      ensures recs'[i].off < RecEnd(|arena|, recs', i) < |arena| && arena[RecEnd(|arena|, recs', i)] == DELIM
    {
      if i < |recs| {
        assert RecEnd(|arena|, recs', i) == RecEnd(end, recs, i);
      }
    }
  }

  lemma HoldsAfterPush(rows: seq<Row>, entries: seq<Entry>, arena: seq<byte>, end: nat, recs: seq<ArenaRec>, s: nat,
                       i: nat,
                       slot: nat, row: Row, e: Entry)
    requires Holds(rows, entries, arena, end, recs, s, i) && s != slot && slot <= |rows| == |entries|
    ensures Holds(Put(rows, slot, row), Put(entries, slot, e), arena, |arena|, recs + [ArenaRec(end, slot)], s, i)
  {
    assert RecEnd(|arena|, recs + [ArenaRec(end, slot)], i) == RecEnd(end, recs, i);
  }

  lemma SettledAfterPush(rows: seq<Row>, arena: seq<byte>, end: nat, recs: seq<ArenaRec>, recOf: map<nat, nat>, i: nat,
                         slot: nat, row: Row)
    requires Settled(rows, arena, end, recs, recOf, i) && slot !in recOf && slot <= |rows|
    ensures Settled(Put(rows, slot, row), arena, |arena|, recs + [ArenaRec(end, slot)], recOf[slot := |recs|], i)
  {
    var recs' := recs + [ArenaRec(end, slot)];
    assert recs'[i] == recs[i];
    assert RecEnd(|arena|, recs', i) == RecEnd(end, recs, i);
  }

  lemma LiveAfterPush(rows: seq<Row>, entries: seq<Entry>, arena: seq<byte>, end: nat, recs: seq<ArenaRec>,
                      recOf: map<nat, nat>,
                      slot: nat, row: Row, e: Entry)
    requires RecsOk(arena, end, recs) && LiveRecs(rows, entries, arena, end, recs, recOf)
    requires row.Live? && Staged(arena, end, row.folded) && |entries| == |rows|
    requires slot <= |rows| && (slot < |rows| ==> rows[slot].Vacant?)
    requires e.foldedOff == NextOff(end) && e.foldedLen == |row.folded|
    ensures LiveRecs(Put(rows, slot, row), Put(entries, slot, e), arena, |arena|, recs + [ArenaRec(NextOff(end), slot)],
                     recOf[slot := |recs|])
  {
    var rows', entries' := Put(rows, slot, row), Put(entries, slot, e);
    var recs', recOf' := recs + [ArenaRec(NextOff(end), slot)], recOf[slot := |recs|];
    assert Holds(rows', entries', arena, |arena|, recs', slot, |recs|);
    assert Settled(rows', arena, |arena|, recs', recOf', |recs|);
    assert recs != [] ==> NextOff(end) == end;
    hide Holds, Settled, Staged, RecsOk, RecEnd;
    assert slot !in recOf by {
      if slot in recOf {
        HoldsFacts(rows, entries, arena, end, recs, slot, recOf[slot]);
      }
    }
    forall s | s in recOf' ensures Holds(rows', entries', arena, |arena|, recs', s, recOf'[s]) {
      if s != slot {
        HoldsFacts(rows, entries, arena, end, recs, s, recOf[s]);
        HoldsAfterPush(rows, entries, arena, end, recs, s, recOf[s], slot, row, e);
      }
    }
    forall i | 0 <= i < |recs'| ensures Settled(rows', arena, |arena|, recs', recOf', i) {
      if i < |recs| {
        SettledAfterPush(rows, arena, end, recs, recOf, i, slot, row);
      }
    }
  }

  /** Publish a record and extend `owner` over every block whose first byte it brought in. */
  method PushArenaRec(recs: seq<ArenaRec>, owner: seq<nat>, off: nat, slot: nat, arenaLen: nat, ghost end: nat)
    returns (recs': seq<ArenaRec>, owner': seq<nat>)
    requires OwnerOk(owner, recs, end) && off == NextOff(end) && off < arenaLen
    requires end == 0 <==> recs == []
    requires forall i :: 0 <= i < |recs| ==> recs[i].off < end
    ensures recs' == recs + [ArenaRec(off, slot)]
    ensures OwnerOk(owner', recs', arenaLen)
  {
    recs' := recs + [ArenaRec(off, slot)];
    var ri := |recs'| - 1;
    owner' := owner;
    while |owner'| * OWNER_BLOCK < arenaLen
      invariant |owner| <= |owner'| <= (arenaLen + 63) / 64
      invariant owner' == owner + Repeat(ri, |owner'| - |owner|)
      decreases arenaLen - |owner'| * OWNER_BLOCK
    {
      owner' := owner' + [ri];
    }
  }

  // ---- erasing a record ------------------------------------------------------------------

  lemma RecsAfterErase(arena: seq<byte>, end: nat, recs: seq<ArenaRec>, off: nat, len: nat)
    requires RecsOk(arena, end, recs) && off + len <= end
    ensures RecsOk(Splice(arena, off, Repeat(DELIM, len)), end, recs)
  {
  }

  lemma HoldsAfterErase(rows: seq<Row>, entries: seq<Entry>, arena: seq<byte>, end: nat, recs: seq<ArenaRec>,
                        slot: nat, r: nat, e: Entry, s: nat, i: nat)
    requires s != slot && i != r
    requires Holds(rows, entries, arena, end, recs, slot, r) && Holds(rows, entries, arena, end, recs, s, i)
    requires RecEnd(end, recs, i) < recs[r].off || RecEnd(end, recs, r) < recs[i].off
    ensures Holds(rows[slot := Vacant], entries[slot := e],
                  Splice(arena, entries[slot].foldedOff, Repeat(DELIM, entries[slot].foldedLen)), end, recs, s, i)
  {
    SpliceApart(arena, entries[slot].foldedOff, Repeat(DELIM, entries[slot].foldedLen),
                entries[s].foldedOff, entries[s].foldedOff + entries[s].foldedLen);
  }

  lemma SettledAfterErase(rows: seq<Row>, entries: seq<Entry>, arena: seq<byte>, end: nat, recs: seq<ArenaRec>,
                          recOf: map<nat, nat>,
                          slot: nat, i: nat)
    requires slot in recOf && Holds(rows, entries, arena, end, recs, slot, recOf[slot])
    requires Settled(rows, arena, end, recs, recOf, i)
    ensures Settled(rows[slot := Vacant],
                    Splice(arena, entries[slot].foldedOff, Repeat(DELIM, entries[slot].foldedLen)), end, recs, recOf - {slot}, i)
  {
  }

  lemma LiveAfterErase(rows: seq<Row>, entries: seq<Entry>, arena: seq<byte>, end: nat, recs: seq<ArenaRec>,
                       recOf: map<nat, nat>, slot: nat, e: Entry)
    requires RecsOk(arena, end, recs) && LiveRecs(rows, entries, arena, end, recs, recOf)
    requires slot in recOf && slot < |entries| == |rows| && entries[slot].foldedOff + entries[slot].foldedLen <= |arena|
    ensures LiveRecs(rows[slot := Vacant], entries[slot := e],
                     Splice(arena, entries[slot].foldedOff, Repeat(DELIM, entries[slot].foldedLen)), end, recs, recOf - {slot})
  {
    hide Holds, Settled, RecsOk, RecEnd;
    var arena' := Splice(arena, entries[slot].foldedOff, Repeat(DELIM, entries[slot].foldedLen));
    var rows', entries', recOf' := rows[slot := Vacant], entries[slot := e], recOf - {slot};
    HoldsFacts(rows, entries, arena, end, recs, slot, recOf[slot]);
    forall s | s in recOf' ensures Holds(rows', entries', arena', end, recs, s, recOf'[s]) {
      HoldsFacts(rows, entries, arena, end, recs, s, recOf[s]);
      Apart(arena, end, recs, recOf[s], recOf[slot]);
      HoldsAfterErase(rows, entries, arena, end, recs, slot, recOf[slot], e, s, recOf[s]);
    }
    forall i | 0 <= i < |recs| ensures Settled(rows', arena', end, recs, recOf', i) {
      SettledAfterErase(rows, entries, arena, end, recs, recOf, slot, i);
    }
    forall s | 0 <= s < |rows'| && rows'[s].Live? ensures s in recOf' {
    }
  }

  lemma RecAt(arena: seq<byte>, end: nat, recs: seq<ArenaRec>, i: nat)
    requires RecsOk(arena, end, recs) && i < |recs|
    ensures recs[i].off < RecEnd(end, recs, i) < end <= |arena| && arena[RecEnd(end, recs, i)] == DELIM
    ensures recs[0].off == 1 && arena[0] == DELIM
  {
  }

  /** The byte before a record is the fence closing the one before it. */
  lemma FenceBefore(arena: seq<byte>, end: nat, recs: seq<ArenaRec>, i: nat)
    requires RecsOk(arena, end, recs) && i < |recs|
    ensures 1 <= recs[i].off < |arena| && arena[recs[i].off - 1] == DELIM
    ensures RecEnd(end, recs, i) < end <= |arena| && arena[RecEnd(end, recs, i)] == DELIM
  {
    hide RecsOk;
    RecAt(arena, end, recs, i);
    if i > 0 {
      RecAt(arena, end, recs, i - 1);
    }
  }

  /** Two records never share a byte, fences included. */
  lemma Apart(arena: seq<byte>, end: nat, recs: seq<ArenaRec>, i: nat, j: nat)
    requires RecsOk(arena, end, recs) && i < |recs| && j < |recs| && i != j
    ensures RecEnd(end, recs, i) < recs[j].off || RecEnd(end, recs, j) < recs[i].off
  {
    if i < j {
      assert i + 1 < j ==> recs[i + 1].off < recs[j].off;
    } else {
      assert j + 1 < i ==> recs[j + 1].off < recs[i].off;
    }
  }

  // ---- the name arena runs in record order ------------------------------------------------

  /** Live names lie in the name arena in the order of their records, without overlap. */
  predicate NamesAscend(entries: seq<Entry>, recOf: map<nat, nat>) {
    && (forall s :: s in recOf ==> s < |entries|)
    && (forall s, t :: s in recOf && t in recOf && recOf[s] < recOf[t] ==>
           entries[s].nameOff + entries[s].nameLen <= entries[t].nameOff)
  }

  lemma NamesAfterPush(rows: seq<Row>, entries: seq<Entry>, names: seq<byte>, nend: nat,
                       arena: seq<byte>, end: nat, recs: seq<ArenaRec>, recOf: map<nat, nat>, slot: nat, e: Entry)
    requires EntriesOk(entries, rows, names, nend) && LiveRecs(rows, entries, arena, end, recs, recOf)
    requires NamesAscend(entries, recOf) && slot <= |entries| && slot !in recOf && e.nameOff == nend
    ensures NamesAscend(Put(entries, slot, e), recOf[slot := |recs|])
  {
    forall s | s in recOf ensures recOf[s] < |recs| && s < |rows| && entries[s].nameOff + entries[s].nameLen <= nend {
      HoldsFacts(rows, entries, arena, end, recs, s, recOf[s]);
      assert EntryOk(entries[s], rows[s], names, nend);
    }
  }

  lemma NamesAfterErase(entries: seq<Entry>, recOf: map<nat, nat>, slot: nat, e: Entry)
    requires NamesAscend(entries, recOf) && slot < |entries|
    ensures NamesAscend(entries[slot := e], recOf - {slot})
  {
  }
}
