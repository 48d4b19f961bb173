/** The slot table: entries, rows, the FRN map and the free list. */
module Table {
  import opened Bytes
  import opened Utf8
  import opened Names

  const U32_MAX: nat := 0xFFFF_FFFF

  /** The attribute bits the index reads. `dead` is its own tombstone mark. */
  datatype Flags = Flags(dir: bool, hidden: bool, system: bool, dead: bool)

  datatype Entry = Entry(
    frn: nat, parent: nat,
    nameOff: nat, nameLen: nat,
    foldedOff: nat, foldedLen: nat,
    flags: Flags)

  /** What a slot stands for: nothing, or one file under its stored and folded name. */
  datatype Row = Vacant | Live(frn: nat, parent: nat, name: string, folded: seq<byte>, flags: Flags)

  /** A live row's folded text is the fold of its name, and fits the arena's rules. */
  predicate RowOk(uni: Unicode, row: Row) {
    row.Live? ==>
      row.folded == FoldedRecord(uni, row.name) && row.folded != [] && NoControl(row.folded) && !row.flags.dead
  }

  predicate RowsOk(uni: Unicode, rows: seq<Row>) {
    forall s :: 0 <= s < |rows| ==> RowOk(uni, rows[s])
  }

  /** An entry describes its row; live ones find the name in the name arena. */
  predicate EntryOk(e: Entry, row: Row, names: seq<byte>, end: nat) {
    match row
    case Vacant => e.flags.dead
    case Live(frn, parent, name, folded, flags) =>
      && e.frn == frn && e.parent == parent && e.flags == flags && !flags.dead
      && e.foldedLen == |folded|
      && e.nameOff + e.nameLen <= end <= |names|
      && names[e.nameOff..e.nameOff + e.nameLen] == Encode(name)
  }

  predicate EntriesOk(entries: seq<Entry>, rows: seq<Row>, names: seq<byte>, end: nat) {
    |entries| == |rows| && forall s :: 0 <= s < |rows| ==> EntryOk(entries[s], rows[s], names, end)
  }

  /** The FRN map is a bijection onto the live slots. */
  predicate MapOk(rows: seq<Row>, frnMap: map<nat, nat>) {
    && (forall f :: f in frnMap ==> frnMap[f] < |rows| && rows[frnMap[f]].Live? && rows[frnMap[f]].frn == f)
    && (forall s :: 0 <= s < |rows| && rows[s].Live? ==> rows[s].frn in frnMap && frnMap[rows[s].frn] == s)
  }

  /** Dead slots are exactly the free list, without duplicates, and the slots in mid-update. */
  predicate FreeOk(rows: seq<Row>, free: seq<nat>, pending: set<nat>) {
    && (forall i :: 0 <= i < |free| ==> free[i] < |rows| && rows[free[i]].Vacant? && free[i] !in pending)
    && (forall i, j :: 0 <= i < j < |free| ==> free[i] != free[j])
    && (forall s :: s in pending ==> s < |rows| && rows[s].Vacant?)
    && (forall s :: 0 <= s < |rows| && rows[s].Vacant? ==> s in free || s in pending)
  }

  // ---- the abstract file table -------------------------------------------------

  datatype File = File(parent: nat, name: string, flags: Flags)

  function FileOf(row: Row): File
    requires row.Live?
  {
    File(row.parent, row.name, row.flags)
  }

  /** FRN to file: the one logical map all the columns implement. */
  function Files(rows: seq<Row>, frnMap: map<nat, nat>): map<nat, File>
    requires MapOk(rows, frnMap)
  {
    map f | f in frnMap :: FileOf(rows[frnMap[f]])
  }

  // ---- edits --------------------------------------------------------------------

  lemma EntriesAfterIntern(entries: seq<Entry>, rows: seq<Row>, names: seq<byte>, end: nat, more: seq<byte>)
    requires EntriesOk(entries, rows, names, end) && end <= |names|
    ensures EntriesOk(entries, rows, names + more, end)
  {
    forall s | 0 <= s < |rows| ensures EntryOk(entries[s], rows[s], names + more, end) {
      var e := entries[s];
      if rows[s].Live? {
        assert (names + more)[e.nameOff..e.nameOff + e.nameLen] == names[e.nameOff..e.nameOff + e.nameLen];
      }
    }
  }

  lemma EntriesAfterPut(entries: seq<Entry>, rows: seq<Row>, names: seq<byte>, end: nat, end': nat, slot: nat, e: Entry,
                        row: Row)
    requires EntriesOk(entries, rows, names, end) && end <= end' <= |names| && slot <= |rows|
    requires EntryOk(e, row, names, end')
    ensures EntriesOk(Put(entries, slot, e), Put(rows, slot, row), names, end')
  {
  }

  lemma MapAfterRemove(rows: seq<Row>, frnMap: map<nat, nat>, slot: nat)
    requires MapOk(rows, frnMap) && slot < |rows| && rows[slot].Live?
    ensures MapOk(rows[slot := Vacant], frnMap - {rows[slot].frn})
    ensures |frnMap - {rows[slot].frn}| == |frnMap| - 1
    ensures Files(rows[slot := Vacant], frnMap - {rows[slot].frn}) == Files(rows, frnMap) - {rows[slot].frn}
  {
    RemoveCount(frnMap, rows[slot].frn);
  }

  lemma RemoveCount(m: map<nat, nat>, f: nat)
    requires f in m
    ensures |m - {f}| == |m| - 1
  {
    assert (m - {f}).Keys == m.Keys - {f};
  }

  lemma MapAfterInsert(rows: seq<Row>, frnMap: map<nat, nat>, slot: nat, row: Row)
    requires MapOk(rows, frnMap) && slot <= |rows| && (slot < |rows| ==> rows[slot].Vacant?)
    requires row.Live? && row.frn !in frnMap
    ensures MapOk(Put(rows, slot, row), frnMap[row.frn := slot])
    ensures |frnMap[row.frn := slot]| == |frnMap| + 1
  {
    assert frnMap[row.frn := slot].Keys == frnMap.Keys + {row.frn};
  }

  lemma FilesAfterInsert(rows: seq<Row>, frnMap: map<nat, nat>, slot: nat, row: Row)
    requires MapOk(rows, frnMap) && slot <= |rows| && (slot < |rows| ==> rows[slot].Vacant?)
    requires row.Live? && row.frn !in frnMap
    requires MapOk(Put(rows, slot, row), frnMap[row.frn := slot])
    ensures Files(Put(rows, slot, row), frnMap[row.frn := slot]) == Files(rows, frnMap)[row.frn := FileOf(row)]
  {
    var rows' := Put(rows, slot, row);
    assert rows'[slot] == row;
    forall f | f in frnMap ensures rows'[frnMap[f]] == rows[frnMap[f]] {
      assert frnMap[f] != slot;
    }
  }

  lemma FreeAfterVacate(rows: seq<Row>, free: seq<nat>, pending: set<nat>, slot: nat)
    requires FreeOk(rows, free, pending) && slot < |rows| && rows[slot].Live?
    ensures FreeOk(rows[slot := Vacant], free, pending + {slot})
  {
  }

  lemma FreeAfterPush(rows: seq<Row>, free: seq<nat>, pending: set<nat>, slot: nat)
    requires FreeOk(rows, free, pending) && slot in pending
    ensures FreeOk(rows, free + [slot], pending - {slot})
  {
  }

  lemma FreeAfterPop(rows: seq<Row>, free: seq<nat>, pending: set<nat>)
    requires FreeOk(rows, free, pending) && free != []
    ensures FreeOk(rows, free[..|free| - 1], pending + {free[|free| - 1]})
    ensures free[|free| - 1] !in pending
  {
    var last := free[|free| - 1];
    forall s | 0 <= s < |rows| && rows[s].Vacant? ensures s in free[..|free| - 1] || s in pending + {last} {
      if s in free {
        var i :| 0 <= i < |free| && free[i] == s;
        assert i < |free| - 1 ==> free[..|free| - 1][i] == s;
      }
    }
  }

  lemma FreeAfterFill(rows: seq<Row>, free: seq<nat>, pending: set<nat>, slot: nat, row: Row)
    requires FreeOk(rows, free, pending) && row.Live?
    requires slot in pending || slot == |rows|
    ensures FreeOk(Put(rows, slot, row), free, pending - {slot})
  {
  }

  // ---- how many bytes the live rows own ---------------------------------------------

  function RowBytes(row: Row): nat {
    if row.Vacant? then 0 else |Encode(row.name)| + |row.folded|
  }

  function LiveBytes(rows: seq<Row>): nat {
    if rows == [] then 0 else LiveBytes(rows[..|rows| - 1]) + RowBytes(rows[|rows| - 1])
  }

  lemma {:induction false} LiveBytesPut(rows: seq<Row>, slot: nat, row: Row)
    requires slot <= |rows|
    ensures LiveBytes(Put(rows, slot, row)) ==
              LiveBytes(rows) - (if slot < |rows| then RowBytes(rows[slot]) else 0) + RowBytes(row)
  {
    if slot == |rows| {
      assert (rows + [row])[..|rows|] == rows;
    } else if slot == |rows| - 1 {
      assert rows[slot := row][..slot] == rows[..slot];
    } else {
      var n := |rows| - 1;
      LiveBytesPut(rows[..n], slot, row);
      assert rows[slot := row][..n] == rows[..n][slot := row];
    }
  }

  lemma FilesCount(rows: seq<Row>, frnMap: map<nat, nat>)
    requires MapOk(rows, frnMap)
    ensures |Files(rows, frnMap)| == |frnMap| && forall f :: f in Files(rows, frnMap) <==> f in frnMap
  {
    assert Files(rows, frnMap).Keys == frnMap.Keys;
  }

  function UpTo(n: nat): (s: set<nat>)
    ensures |s| == n && forall x: nat :: x in s <==> x < n
  {
    if n == 0 then {} else UpTo(n - 1) + {n - 1}
  }

  function LiveSlots(rows: seq<Row>): set<nat> {
    set s | s in UpTo(|rows|) && rows[s].Live?
  }

  /** Live and free slots make up the table. */
  lemma FreeCount(rows: seq<Row>, frnMap: map<nat, nat>, free: seq<nat>)
    requires MapOk(rows, frnMap) && FreeOk(rows, free, {})
    ensures |free| + |frnMap| == |rows|
  {
    hide MapOk;
    CountLive(rows, frnMap);
    CountDistinct(free);
    FreePartition(rows, free);
    assert |Elements(free)| + |LiveSlots(rows)| == |Elements(free) + LiveSlots(rows)|;
  }

  function Elements(s: seq<nat>): set<nat> {
    set x | x in s
  }

  lemma FreePartition(rows: seq<Row>, free: seq<nat>)
    requires FreeOk(rows, free, {})
    ensures Elements(free) !! LiveSlots(rows) && Elements(free) + LiveSlots(rows) == UpTo(|rows|)
  {
    forall x | x in UpTo(|rows|) ensures x in Elements(free) || x in LiveSlots(rows) {
    }
    forall x | x in Elements(free) ensures x in UpTo(|rows|) && x !in LiveSlots(rows) {
      var i :| 0 <= i < |free| && free[i] == x;
    }
  }

  lemma {:induction false} CountDistinct(free: seq<nat>)
    requires forall i, j :: 0 <= i < j < |free| ==> free[i] != free[j]
    ensures |Elements(free)| == |free|
  {
    if free != [] {
      var n := |free| - 1;
      CountDistinct(free[..n]);
      assert free == free[..n] + [free[n]];
      assert Elements(free) == Elements(free[..n]) + {free[n]};
      assert free[n] !in Elements(free[..n]);
    }
  }

  /** The map is as large as the set of live slots it names. */
  lemma {:induction false} CountLive(rows: seq<Row>, frnMap: map<nat, nat>)
    requires MapOk(rows, frnMap)
    ensures |LiveSlots(rows)| == |frnMap|
    decreases frnMap
  {
    if frnMap == map[] {
      assert LiveSlots(rows) == {};
    } else {
      var f :| f in frnMap;
      MapAfterRemove(rows, frnMap, frnMap[f]);
      CountLive(rows[frnMap[f] := Vacant], frnMap - {f});
      assert frnMap[f] < |rows| && rows[frnMap[f]].Live?;
      hide MapOk;
      LiveAfterRemove(rows, frnMap[f]);
    }
  }

  lemma LiveAfterRemove(rows: seq<Row>, slot: nat)
    requires slot < |rows| && rows[slot].Live?
    ensures |LiveSlots(rows)| == |LiveSlots(rows[slot := Vacant])| + 1
  {
    assert LiveSlots(rows) == LiveSlots(rows[slot := Vacant]) + {slot};
  }
}
