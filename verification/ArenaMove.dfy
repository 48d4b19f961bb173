/** Compaction's arena pass: live records slide left in both arenas, in record order, over their dead neighbours. */
module ArenaMove {
  import opened Bytes
  import opened Utf8
  import opened Names
  import opened Ranking
  import opened Table
  import opened Records
  import opened Columns
  import opened Presence
  import opened ClassBits
  import opened Depth
  import opened Journal
  import opened IndexState
  import opened Repair
  import opened Compaction

  /** The arena pass's variables: the columns it rewrites and its three write cursors. */
  datatype Pass = Pass(entries: seq<Entry>, recs: seq<ArenaRec>, folded: seq<byte>, names: seq<byte>, rw: nat, fw: nat,
                       nw: nat)

  /** The index built so far: survivors already moved, the rest still vacant. */
  datatype Built = Built(rows: seq<Row>, entries: seq<Entry>, recOf: map<nat, nat>)

  // ---- the moved prefix is an index of its own ---------------------------------------------

  /** The moved prefix of both arenas satisfies every arena rule, with no dead bytes. */
  predicate PrefixOk(b: Built, folded: seq<byte>, names: seq<byte>, recs: seq<ArenaRec>) {
    && EntriesOk(b.entries, b.rows, names, |names|)
    && RecsOk(folded, |folded|, recs) && LiveRecs(b.rows, b.entries, folded, |folded|, recs, b.recOf)
    && NamesAscend(b.entries, b.recOf)
    && |names| + |folded| == LiveBytes(b.rows) + Fences(recs)
    && |b.recOf| == |recs|
  }

  /** Moving one record is interning and registering it in the prefix. */
  lemma PrefixGrows(b: Built, folded: seq<byte>, names: seq<byte>, recs: seq<ArenaRec>, slot: nat, row: Row, e: Entry)
    requires PrefixOk(b, folded, names, recs) && slot < |b.rows| && b.rows[slot].Vacant?
    requires row.Live? && row.folded != [] && !row.flags.dead
    requires e == Entry(row.frn, row.parent, |names|, |Encode(row.name)|, NextOff(|folded|), |row.folded|, row.flags)
    ensures |b.entries| == |b.rows|
    ensures PrefixOk(Built(b.rows[slot := row], b.entries[slot := e], b.recOf[slot := |recs|]),
                     folded + (if folded == [] then [DELIM] else []) + row.folded + [DELIM],
                     names + Encode(row.name),
                     recs + [ArenaRec(NextOff(|folded|), slot)])
  {
    hide RecsOk, LiveRecs, NamesAscend, EntriesOk, LiveBytes, Fences, Encode, Staged;
    var folded' := folded + (if folded == [] then [DELIM] else []) + row.folded + [DELIM];
    var names' := names + Encode(row.name);
    TableShape(b.entries, b.rows, names, |names|);
    InternOk(b.entries, b.rows, names, |names|, folded, |folded|, recs, b.recOf, Encode(row.name), row.folded);
    StagedEntry(names, Encode(row.name), row, e);
    NotYet(b, folded, recs, slot);
    EntriesAfterPut(b.entries, b.rows, names', |names|, |names'|, slot, e, row);
    RecsAfterPush(folded', |folded|, recs, slot, row.folded);
    LiveAfterPush(b.rows, b.entries, folded', |folded|, recs, b.recOf, slot, row, e);
    NamesAfterPush(b.rows, b.entries, names', |names|, folded', |folded|, recs, b.recOf, slot, e);
    LiveBytesPut(b.rows, slot, row);
    FencesGrow(folded, recs, ArenaRec(NextOff(|folded|), slot));
    assert b.recOf[slot := |recs|].Keys == b.recOf.Keys + {slot};
  }

  lemma StagedEntry(names: seq<byte>, bytes: seq<byte>, row: Row, e: Entry)
    requires row.Live? && bytes == Encode(row.name) && !row.flags.dead
    requires e == Entry(row.frn, row.parent, |names|, |bytes|, e.foldedOff, |row.folded|, row.flags)
    ensures EntryOk(e, row, names + bytes, |names + bytes|)
  {
    hide Encode;
    assert (names + bytes)[|names|..|names| + |bytes|] == bytes;
  }

  lemma NotYet(b: Built, folded: seq<byte>, recs: seq<ArenaRec>, slot: nat)
    requires LiveRecs(b.rows, b.entries, folded, |folded|, recs, b.recOf) && slot < |b.rows| && b.rows[slot].Vacant?
    ensures slot !in b.recOf
  {
    if slot in b.recOf {
      HoldsFacts(b.rows, b.entries, folded, |folded|, recs, slot, b.recOf[slot]);
    }
  }

  lemma FencesGrow(folded: seq<byte>, recs: seq<ArenaRec>, rec: ArenaRec)
    requires RecsOk(folded, |folded|, recs)
    ensures Fences(recs + [rec]) == Fences(recs) + 1 + if folded == [] then 1 else 0
  {
  }

  // ---- what one step relies on ---------------------------------------------------------------

  /** The arena prefix moved so far; nothing until the first record lands. */
  function Prefix(p: Pass): seq<byte> {
    if p.rw == 0 || p.fw > |p.folded| then [] else p.folded[..p.fw]
  }

  /** Write cursors trail their read cursors, and everything from them on is still as it was. */
  predicate Trailing(st: State, r: nat, p: Pass) {
    && r <= |st.arenaRecs| == |p.recs| && |p.folded| == |st.foldedArena| && |p.names| == |st.nameArena|
    && p.rw <= r && p.recs[r..] == st.arenaRecs[r..]
    && 1 <= p.fw && (p.rw == 0 ==> p.fw == 1 && p.nw == 0) && (p.rw > 0 ==> p.folded != [])
    && (r < |st.arenaRecs| ==> p.fw <= st.arenaRecs[r].off)
    && (p.folded != [] ==> p.fw <= |p.folded| && p.folded[0] == DELIM && p.folded[p.fw..] == st.foldedArena[p.fw..])
    && p.nw <= |p.names| && p.names[p.nw..] == st.nameArena[p.nw..]
    && forall s :: s in st.recOf && st.recOf[s] >= r ==> s < |st.entries| && p.nw <= st.entries[s].nameOff
  }

  /** Survivor `k`: moved if its record came before `r`, else still where it was. */
  predicate SurvivorOk(st: State, orig: seq<nat>, r: nat, p: Pass, b: Built, k: nat)
    requires k < |orig| == |p.entries| == |b.rows| == |b.entries|
  {
    var s := orig[k];
    && s < |st.rows| && s in st.recOf && s < |st.entries|
    && if st.recOf[s] < r then
         b.rows[k] == st.rows[s] && b.entries[k] == p.entries[k] && p.entries[k].foldedOff < p.fw
       else b.rows[k] == Vacant && p.entries[k] == st.entries[s]
  }

  predicate SurvivorsOk(st: State, orig: seq<nat>, r: nat, p: Pass, b: Built) {
    && |orig| == |p.entries| == |b.rows| == |b.entries|
    && forall k :: 0 <= k < |orig| ==> SurvivorOk(st, orig, r, p, b, k)
  }

  predicate PassOk(st: State, orig: seq<nat>, r: nat, p: Pass, b: Built) {
    && Trailing(st, r, p) && SurvivorsOk(st, orig, r, p, b)
    && p.rw <= |p.recs| && p.nw <= |p.names| && PrefixOk(b, Prefix(p), p.names[..p.nw], p.recs[..p.rw])
  }

  /** Whether record `r` is some slot's current one, told from the columns alone. */
  lemma CurrentTest(uni: Unicode, st: State, orig: seq<nat>, remap: seq<nat>, r: nat, p: Pass, b: Built)
    requires AtRest(uni, st) && Renumbers(st.rows, |st.rows|, orig, remap) && PassOk(st, orig, r, p, b)
    requires r < |st.arenaRecs|
    ensures p.recs[r] == st.arenaRecs[r] && p.recs[r].slot < |remap|
    ensures var ns := remap[p.recs[r].slot];
            if ns == DEAD_SLOT then !RecLive(st.arenaRecs, st.recOf, r)
            else
              && ns < |p.entries| && orig[ns] == p.recs[r].slot
              && (p.entries[ns].foldedOff == p.recs[r].off <==> RecLive(st.arenaRecs, st.recOf, r))
  {
    hide RowsOk, OwnerOk, NamesAscend, ColumnsOk, FreeOk, MarksOk, MapOk, EntriesOk, PrefixOk, LiveBytes, Fences;
    hide Encode;
    assert p.recs[r] == p.recs[r..][0] == st.arenaRecs[r..][0];
    var rec := st.arenaRecs[r];
    assert Settled(st.rows, st.foldedArena, st.arenaEnd, st.arenaRecs, st.recOf, r);
    MapOf(uni, st, {});
    var s := rec.slot;
    if st.rows[s].Live? {
      var ns, i := remap[s], st.recOf[s];
      assert orig[ns] == s;
      assert SurvivorOk(st, orig, r, p, b, ns);
      assert Holds(st.rows, st.entries, st.foldedArena, st.arenaEnd, st.arenaRecs, s, i);
      assert st.arenaRecs[i].off == st.entries[s].foldedOff;
    } else if RecLive(st.arenaRecs, st.recOf, r) {
      HoldsFacts(st.rows, st.entries, st.foldedArena, st.arenaEnd, st.arenaRecs, s, r);
    }
  }

  // ---- one record -----------------------------------------------------------------------------

  /** A record dropped by the comparison changes nothing. */
  lemma SkipRecord(st: State, orig: seq<nat>, r: nat, p: Pass, b: Built)
    requires PassOk(st, orig, r, p, b) && r < |st.arenaRecs| && !RecLive(st.arenaRecs, st.recOf, r)
    requires forall i, j :: 0 <= i < j < |st.arenaRecs| ==> st.arenaRecs[i].off < st.arenaRecs[j].off
    requires forall s :: s in st.recOf ==> st.recOf[s] < |st.arenaRecs| && st.arenaRecs[st.recOf[s]].slot == s
    ensures PassOk(st, orig, r + 1, p, b)
  {
    hide PrefixOk;
    var next := r + 1;
    assert p.recs[next..] == p.recs[r..][1..] == st.arenaRecs[r..][1..];
    forall k | 0 <= k < |orig| ensures SurvivorOk(st, orig, next, p, b, k) {
      assert SurvivorOk(st, orig, r, p, b, k);
    }
  }

  /** Bounds under which a record can slide. */
  predicate CanSlide(p: Pass, ns: nat) {
    && ns < |p.entries| && p.rw < |p.recs|
    && p.fw + p.entries[ns].foldedLen < |p.folded| && p.entries[ns].foldedOff + p.entries[ns].foldedLen <= |p.folded|
    && p.nw + p.entries[ns].nameLen <= |p.names| && p.entries[ns].nameOff + p.entries[ns].nameLen <= |p.names|
  }

  /** Copy a survivor's record and name down to the write cursors, fence it, and rewrite its offsets. */
  function Slide(p: Pass, ns: nat): Pass
    requires CanSlide(p, ns)
  {
    var e := p.entries[ns];
    Pass(p.entries[ns := e.(foldedOff := p.fw, nameOff := p.nw)],
         p.recs[p.rw := ArenaRec(p.fw, ns)],
         Splice(p.folded, p.fw, p.folded[e.foldedOff..e.foldedOff + e.foldedLen])[p.fw + e.foldedLen := DELIM],
         Splice(p.names, p.nw, p.names[e.nameOff..e.nameOff + e.nameLen]),
         p.rw + 1, p.fw + e.foldedLen + 1, p.nw + e.nameLen)
  }

  lemma FoldedStep(folded: seq<byte>, was: seq<byte>, fw: nat, off: nat, len: nat, text: seq<byte>)
    requires |folded| == |was| && 1 <= fw <= off && off + len < |folded| && folded[0] == DELIM
    requires folded[fw..] == was[fw..]
    requires was[off..off + len] == text
    ensures var f := Splice(folded, fw, folded[off..off + len])[fw + len := DELIM];
            f[..fw + len + 1] == folded[..fw] + text + [DELIM] && f[fw + len + 1..] == was[fw + len + 1..] && f[0] ==
              DELIM
  {
    SameTail(folded, was, fw, off, len);
    var f := Splice(folded, fw, text)[fw + len := DELIM];
    assert f[..fw + len + 1] == folded[..fw] + text + [DELIM];
    TailOf(folded, was, fw, fw + len + 1);
    assert f[fw + len + 1..] == folded[fw + len + 1..];
  }

  /** Columns equal from `from` on are equal on any slice and any tail past it. */
  lemma SameTail(s: seq<byte>, was: seq<byte>, from: nat, off: nat, len: nat)
    requires |s| == |was| && from <= off && off + len <= |s| && s[from..] == was[from..]
    ensures s[off..off + len] == was[off..off + len]
  {
    SliceOfSlice(s, from, |s|, off - from, off - from + len);
    SliceOfSlice(was, from, |was|, off - from, off - from + len);
    assert s[from..] == s[from..|s|] && was[from..] == was[from..|was|];
  }

  lemma TailOf(s: seq<byte>, was: seq<byte>, from: nat, at: nat)
    requires |s| == |was| && from <= at <= |s| && s[from..] == was[from..]
    ensures s[at..] == was[at..]
  {
    SameTail(s, was, from, at, |s| - at);
  }

  lemma NamesStep(names: seq<byte>, was: seq<byte>, nw: nat, off: nat, len: nat, text: seq<byte>)
    requires |names| == |was| && nw <= off && off + len <= |names| && names[nw..] == was[nw..]
    requires was[off..off + len] == text
    ensures var n := Splice(names, nw, names[off..off + len]);
            n[..nw + len] == names[..nw] + text && n[nw + len..] == was[nw + len..]
  {
    SameTail(names, was, nw, off, len);
    TailOf(names, was, nw, nw + len);
    var n := Splice(names, nw, text);
    assert n[..nw + len] == names[..nw] + text;
    assert n[nw + len..] == names[nw + len..];
  }

  /** What the old index says of a current record. */
  lemma CurrentFacts(uni: Unicode, st: State, r: nat)
    requires AtRest(uni, st) && r < |st.arenaRecs| && RecLive(st.arenaRecs, st.recOf, r)
    ensures var s := st.arenaRecs[r].slot;
            && s < |st.rows| == |st.entries| && st.rows[s].Live? && st.recOf[s] == r
            && st.rows[s].folded != [] && !st.rows[s].flags.dead
            && st.entries[s] == Entry(st.rows[s].frn, st.rows[s].parent, st.entries[s].nameOff, |Encode(st.rows[s].name)|,
                                      st.arenaRecs[r].off, |st.rows[s].folded|, st.rows[s].flags)
            && st.arenaRecs[r].off + |st.rows[s].folded| < |st.foldedArena|
            && (r + 1 < |st.arenaRecs| ==> st.arenaRecs[r].off + |st.rows[s].folded| + 1 == st.arenaRecs[r + 1].off)
            && st.foldedArena[st.arenaRecs[r].off..st.arenaRecs[r].off + |st.rows[s].folded|] == st.rows[s].folded
            && st.entries[s].nameOff + |Encode(st.rows[s].name)| <= |st.nameArena|
            && st.nameArena[st.entries[s].nameOff..st.entries[s].nameOff + |Encode(st.rows[s].name)|] ==
              Encode(st.rows[s].name)
  {
    hide OwnerOk, NamesAscend, ColumnsOk, FreeOk, MarksOk, MapOk, EntriesOk, LiveBytes, Fences, Encode, LiveRecs;
    hide RecsOk, FoldedRecord;
    var s := st.arenaRecs[r].slot;
    CurrentSlot(st, r);
    LiveEntryFacts(st.rows, st.entries, st.nameArena, st.namesEnd, st.frnMap, s);
    LiveRecordFacts(st.rows, st.entries, st.foldedArena, st.arenaEnd, st.arenaRecs, st.recOf, s);
    TableShape(st.entries, st.rows, st.nameArena, st.namesEnd);
    assert RowOk(uni, st.rows[s]);
  }

  lemma CurrentSlot(st: State, r: nat)
    requires LiveRecs(st.rows, st.entries, st.foldedArena, st.arenaEnd, st.arenaRecs, st.recOf)
    requires r < |st.arenaRecs| && RecLive(st.arenaRecs, st.recOf, r)
    ensures var s := st.arenaRecs[r].slot; s < |st.rows| && st.rows[s].Live? && s < |st.entries|
  {
    var s := st.arenaRecs[r].slot;
    assert Holds(st.rows, st.entries, st.foldedArena, st.arenaEnd, st.arenaRecs, s, r);
  }

  /** A survivor at its record: the entry, the bounds and the texts a slide reads. */
  lemma SlideFacts(uni: Unicode, st: State, orig: seq<nat>, r: nat, p: Pass, b: Built, ns: nat)
    requires AtRest(uni, st) && PassOk(st, orig, r, p, b) && r < |st.arenaRecs| && RecLive(st.arenaRecs, st.recOf, r)
    requires ns < |orig| && orig[ns] == st.arenaRecs[r].slot
    ensures ns < |p.entries| == |b.rows| == |b.entries| && b.rows[ns].Vacant? && p.entries[ns] == st.entries[orig[ns]]
    ensures CanSlide(p, ns) && p.folded != [] && p.folded[0] == DELIM && p.rw < |p.recs|
    ensures p.fw <= st.arenaRecs[r].off && p.nw <= st.entries[orig[ns]].nameOff
    ensures |p.folded| == |st.foldedArena| && p.folded[p.fw..] == st.foldedArena[p.fw..]
    ensures |p.names| == |st.nameArena| && p.names[p.nw..] == st.nameArena[p.nw..]
  {
    hide AtRest, PrefixOk, Encode;
    CurrentFacts(uni, st, r);
    assert SurvivorOk(st, orig, r, p, b, ns);
  }

  /** A slide's folded arena: the prefix grows by one fenced record, the tail is as it was. */
  lemma SlideFolded(uni: Unicode, st: State, orig: seq<nat>, r: nat, p: Pass, b: Built, ns: nat)
    requires AtRest(uni, st) && PassOk(st, orig, r, p, b) && r < |st.arenaRecs| && RecLive(st.arenaRecs, st.recOf, r)
    requires ns < |orig| && orig[ns] == st.arenaRecs[r].slot && CanSlide(p, ns)
    ensures orig[ns] < |st.rows| && st.rows[orig[ns]].Live? && p.folded != [] && p.folded[0] == DELIM
    ensures var text, q := st.rows[orig[ns]].folded, Slide(p, ns);
            && |q.folded| == |p.folded| && q.fw <= |q.folded| && q.fw == p.fw + |text| + 1
            && q.folded[..q.fw] == p.folded[..p.fw] + text + [DELIM]
            && q.folded[q.fw..] == st.foldedArena[q.fw..] && q.folded[0] == DELIM
  {
    hide AtRest, PrefixOk, Encode, SurvivorsOk, Splice, Prefix, Trailing;
    CurrentFacts(uni, st, r);
    SlideFacts(uni, st, orig, r, p, b, ns);
    CursorShape(st, r, p);
    var text := st.rows[orig[ns]].folded;
    FoldedStep(p.folded, st.foldedArena, p.fw, st.arenaRecs[r].off, |text|, text);
  }

  /** A slide's name arena likewise. */
  lemma SlideNames(uni: Unicode, st: State, orig: seq<nat>, r: nat, p: Pass, b: Built, ns: nat)
    requires AtRest(uni, st) && PassOk(st, orig, r, p, b) && r < |st.arenaRecs| && RecLive(st.arenaRecs, st.recOf, r)
    requires ns < |orig| && orig[ns] == st.arenaRecs[r].slot && CanSlide(p, ns)
    ensures orig[ns] < |st.rows| && st.rows[orig[ns]].Live?
    ensures var bytes, q := Encode(st.rows[orig[ns]].name), Slide(p, ns);
            && |q.names| == |p.names| && q.nw <= |q.names| && q.names[..q.nw] == p.names[..p.nw] + bytes
            && q.names[q.nw..] == st.nameArena[q.nw..]
  {
    hide AtRest, PrefixOk, Encode, SurvivorsOk, Splice, Prefix, Trailing;
    CurrentFacts(uni, st, r);
    SlideFacts(uni, st, orig, r, p, b, ns);
    NamesStep(p.names, st.nameArena, p.nw, p.entries[ns].nameOff, p.entries[ns].nameLen,
              Encode(st.rows[orig[ns]].name));
  }

  lemma PrefixStep(p: Pass, q: Pass, text: seq<byte>)
    requires p.folded != [] && p.folded[0] == DELIM && 1 <= p.fw <= |p.folded| && (p.rw == 0 ==> p.fw == 1)
    requires q.rw == p.rw + 1 && q.fw <= |q.folded| && q.folded[..q.fw] == p.folded[..p.fw] + text + [DELIM]
    ensures Prefix(q) == Prefix(p) + (if Prefix(p) == [] then [DELIM] else []) + text + [DELIM]
    ensures p.fw == NextOff(|Prefix(p)|) && (Prefix(p) == [] <==> p.rw == 0)
  {
    assert p.rw == 0 ==> p.folded[..p.fw] == [DELIM];
  }

  /** The write cursors still trail after a slide. */
  lemma SlideTrails(uni: Unicode, st: State, orig: seq<nat>, r: nat, p: Pass, b: Built, ns: nat)
    requires AtRest(uni, st) && PassOk(st, orig, r, p, b) && r < |st.arenaRecs| && RecLive(st.arenaRecs, st.recOf, r)
    requires ns < |orig| && orig[ns] == st.arenaRecs[r].slot && CanSlide(p, ns)
    ensures Trailing(st, r + 1, Slide(p, ns))
  {
    hide AtRest, PrefixOk, Encode, SurvivorsOk, Splice, Prefix;
    var q := Slide(p, ns);
    CurrentFacts(uni, st, r);
    SlideFacts(uni, st, orig, r, p, b, ns);
    SlideFolded(uni, st, orig, r, p, b, ns);
    SlideNames(uni, st, orig, r, p, b, ns);
    NamesAhead(uni, st, r);
    assert q.recs[r + 1..] == p.recs[r..][1..] == st.arenaRecs[r..][1..];
  }

  lemma NamesAhead(uni: Unicode, st: State, r: nat)
    requires AtRest(uni, st) && r < |st.arenaRecs| && RecLive(st.arenaRecs, st.recOf, r)
    ensures var s := st.arenaRecs[r].slot;
            s < |st.entries| && forall t :: t in st.recOf && st.recOf[t] >= r + 1 ==>
              t < |st.entries| && st.entries[s].nameOff + st.entries[s].nameLen <= st.entries[t].nameOff
  {
    hide OwnerOk, ColumnsOk, FreeOk, MarksOk, MapOk, EntriesOk, LiveBytes, Fences, LiveRecs, RecsOk, RowsOk;
  }

  /** The survivors after a slide: one more has moved. */
  lemma SlideSurvivors(uni: Unicode, st: State, orig: seq<nat>, r: nat, p: Pass, b: Built, ns: nat)
    requires AtRest(uni, st) && PassOk(st, orig, r, p, b) && r < |st.arenaRecs| && RecLive(st.arenaRecs, st.recOf, r)
    requires ns < |orig| && orig[ns] == st.arenaRecs[r].slot && CanSlide(p, ns) && ns < |b.rows| == |b.entries|
    requires orig[ns] < |st.rows|
    requires forall s :: s in st.recOf ==> st.recOf[s] < |st.arenaRecs| && st.arenaRecs[st.recOf[s]].slot == s
    requires forall j, k :: 0 <= j < k < |orig| ==> orig[j] < orig[k]
    ensures SurvivorsOk(st, orig, r + 1, Slide(p, ns),
                        Built(b.rows[ns := st.rows[orig[ns]]], b.entries[ns := Slide(p, ns).entries[ns]], b.recOf[ns := p.rw]))
  {
    hide AtRest, PrefixOk, Encode, Splice, Trailing;
    CurrentFacts(uni, st, r);
    var q := Slide(p, ns);
    var b' := Built(b.rows[ns := st.rows[orig[ns]]], b.entries[ns := q.entries[ns]], b.recOf[ns := p.rw]);
    var next := r + 1;
    forall k | 0 <= k < |orig| ensures SurvivorOk(st, orig, next, q, b', k) {
      assert SurvivorOk(st, orig, r, p, b, k);
      if k != ns {
        assert orig[k] != orig[ns];
      }
    }
  }

  lemma CursorShape(st: State, r: nat, p: Pass)
    requires Trailing(st, r, p)
    ensures 1 <= p.fw && (p.rw == 0 ==> p.fw == 1) && (p.folded != [] ==> p.fw <= |p.folded|)
  {
  }

  /** One slide keeps the whole pass invariant. */
  lemma MoveRecord(uni: Unicode, st: State, orig: seq<nat>, r: nat, p: Pass, b: Built, ns: nat)
    requires AtRest(uni, st) && PassOk(st, orig, r, p, b) && r < |st.arenaRecs| && RecLive(st.arenaRecs, st.recOf, r)
    requires ns < |orig| && orig[ns] == st.arenaRecs[r].slot
    requires forall s :: s in st.recOf ==> st.recOf[s] < |st.arenaRecs| && st.arenaRecs[st.recOf[s]].slot == s
    requires forall j, k :: 0 <= j < k < |orig| ==> orig[j] < orig[k]
    ensures CanSlide(p, ns) && orig[ns] < |st.rows| && ns < |b.rows| == |b.entries|
    ensures |Slide(p, ns).entries| == |b.entries|
    ensures PassOk(st, orig, r + 1, Slide(p, ns),
                   Built(b.rows[ns := st.rows[orig[ns]]], b.entries[ns := Slide(p, ns).entries[ns]], b.recOf[ns := p.rw]))
  {
    hide AtRest, PrefixOk, Encode, Splice, Prefix, SurvivorsOk, Trailing;
    CurrentFacts(uni, st, r);
    SlideFacts(uni, st, orig, r, p, b, ns);
    SlideFolded(uni, st, orig, r, p, b, ns);
    SlideNames(uni, st, orig, r, p, b, ns);
    SlideTrails(uni, st, orig, r, p, b, ns);
    SlideSurvivors(uni, st, orig, r, p, b, ns);
    CursorShape(st, r, p);
    var q := Slide(p, ns);
    PrefixStep(p, q, st.rows[orig[ns]].folded);
    PrefixGrows(b, Prefix(p), p.names[..p.nw], p.recs[..p.rw], ns, st.rows[orig[ns]], q.entries[ns]);
    assert q.recs[..q.rw] == p.recs[..p.rw] + [ArenaRec(p.fw, ns)];
  }

  // ---- the whole pass --------------------------------------------------------------------------

  const TOMB: Entry := Entry(0, 0, 0, 0, 0, 0, Flags(false, false, false, true))

  /** Nothing moved yet. */
  function Unbuilt(n: nat): Built {
    Built(Repeat(Vacant, n), Repeat(TOMB, n), map[])
  }

  lemma {:induction false} VacantBytes(n: nat)
    ensures LiveBytes(Repeat(Vacant, n)) == 0
  {
    if n > 0 {
      VacantBytes(n - 1);
      assert Repeat(Vacant, n)[..n - 1] == Repeat(Vacant, n - 1);
    }
  }

  lemma UnbuiltOk(n: nat, recs: seq<ArenaRec>)
    requires recs == []
    ensures PrefixOk(Unbuilt(n), [], [], recs)
  {
    VacantBytes(n);
  }

  lemma PassStart(uni: Unicode, st: State, orig: seq<nat>)
    requires AtRest(uni, st) && Survivors(st.rows, orig) && |st.entries| == |st.rows|
    ensures PassOk(st, orig, 0, Pass(Gather(st.entries, orig), st.arenaRecs, st.foldedArena, st.nameArena, 0, 1, 0),
                   Unbuilt(|orig|))
  {
    hide AtRest, PrefixOk, Trailing, SurvivorsOk;
    var p := Pass(Gather(st.entries, orig), st.arenaRecs, st.foldedArena, st.nameArena, 0, 1, 0);
    UnbuiltOk(|orig|, p.recs[..0]);
    assert p.names[..0] == [];
    StartTrailing(uni, st, p);
    StartSurvivors(uni, st, orig, p);
  }

  lemma StartTrailing(uni: Unicode, st: State, p: Pass)
    requires AtRest(uni, st) && p.recs == st.arenaRecs && p.folded == st.foldedArena && p.names == st.nameArena
    requires p.rw == p.nw == 0 && p.fw == 1
    ensures Trailing(st, 0, p)
  {
    hide RowsOk, OwnerOk, NamesAscend, ColumnsOk, FreeOk, MarksOk, MapOk, EntriesOk, LiveBytes, Fences, LiveRecs;
    RecordShape(uni, st);
    RecordSlots(uni, st);
  }

  lemma StartSurvivors(uni: Unicode, st: State, orig: seq<nat>, p: Pass)
    requires AtRest(uni, st) && Survivors(st.rows, orig) && |st.entries| == |st.rows|
    requires p.entries == Gather(st.entries, orig)
    ensures SurvivorsOk(st, orig, 0, p, Unbuilt(|orig|))
  {
    hide AtRest;
    RecordSlots(uni, st);
    forall k | 0 <= k < |orig| ensures SurvivorOk(st, orig, 0, p, Unbuilt(|orig|), k) {
    }
  }

  /** Live slots are exactly those with a record. */
  lemma RecordSlots(uni: Unicode, st: State)
    requires AtRest(uni, st)
    ensures forall s :: s in st.recOf ==> s < |st.entries| && s < |st.rows| && st.rows[s].Live?
    ensures forall s: nat :: s < |st.rows| && st.rows[s].Live? ==> s in st.recOf
  {
    hide RowsOk, OwnerOk, NamesAscend, ColumnsOk, FreeOk, MarksOk, MapOk, EntriesOk, LiveBytes, Fences, Settled, Holds;
    hide RecsOk;
    forall s | s in st.recOf ensures s < |st.entries| && s < |st.rows| && st.rows[s].Live? {
      HoldsFacts(st.rows, st.entries, st.foldedArena, st.arenaEnd, st.arenaRecs, s, st.recOf[s]);
    }
  }

  /** Every survivor's record came up, so the prefix now is the whole index. */
  lemma PassEnd(uni: Unicode, st: State, orig: seq<nat>, p: Pass, b: Built)
    requires AtRest(uni, st) && Survivors(st.rows, orig) && PassOk(st, orig, |st.arenaRecs|, p, b)
    ensures b.rows == Gather(st.rows, orig) && b.entries == p.entries
    ensures p.rw == |orig| <= |p.recs| && p.nw <= |p.names| && (p.rw > 0 ==> p.fw <= |p.folded|)
    ensures Prefix(p) == if p.rw == 0 then [] else p.folded[..p.fw]
  {
    hide AtRest, PrefixOk, Trailing;
    RecordShape(uni, st);
    RecordSlots(uni, st);
    forall k | 0 <= k < |orig| ensures b.rows[k] == st.rows[orig[k]] && b.entries[k] == p.entries[k] {
      assert SurvivorOk(st, orig, |st.arenaRecs|, p, b, k);
    }
    PrefixCount(b, Prefix(p), p.names[..p.nw], p.recs[..p.rw]);
    PassCursors(st, |st.arenaRecs|, p);
  }

  lemma PassCursors(st: State, r: nat, p: Pass)
    requires Trailing(st, r, p)
    ensures p.rw <= |p.recs| && p.nw <= |p.names| && (p.rw > 0 ==> p.fw <= |p.folded|)
    ensures Prefix(p) == if p.rw == 0 then [] else p.folded[..p.fw]
  {
  }

  /** With every row live there is one record per row. */
  lemma PrefixCount(b: Built, folded: seq<byte>, names: seq<byte>, recs: seq<ArenaRec>)
    requires PrefixOk(b, folded, names, recs) && forall k :: 0 <= k < |b.rows| ==> b.rows[k].Live?
    ensures |recs| == |b.rows|
  {
    hide RecsOk, NamesAscend, EntriesOk, LiveBytes, Fences, Holds, Settled;
    forall s | s in b.recOf ensures s < |b.rows| {
      HoldsFacts(b.rows, b.entries, folded, |folded|, recs, s, b.recOf[s]);
    }
    assert b.recOf.Keys == UpTo(|b.rows|);
  }

  lemma RecordShape(uni: Unicode, st: State)
    requires AtRest(uni, st)
    ensures forall s :: s in st.recOf ==> st.recOf[s] < |st.arenaRecs| && st.arenaRecs[st.recOf[s]].slot == s
    ensures forall i, j :: 0 <= i < j < |st.arenaRecs| ==> st.arenaRecs[i].off < st.arenaRecs[j].off
  {
    hide RowsOk, OwnerOk, NamesAscend, ColumnsOk, FreeOk, MarksOk, MapOk, EntriesOk, LiveBytes, Fences, Settled, Holds;
    forall s | s in st.recOf ensures st.recOf[s] < |st.arenaRecs| && st.arenaRecs[st.recOf[s]].slot == s {
      HoldsFacts(st.rows, st.entries, st.foldedArena, st.arenaEnd, st.arenaRecs, s, st.recOf[s]);
    }
  }

  /** Walk the records in offset order and slide each survivor's bytes down, rewriting its offsets as it goes. */
  method MoveArenas(uni: Unicode, entries0: seq<Entry>, recs0: seq<ArenaRec>, folded0: seq<byte>, names0: seq<byte>,
                    remap: seq<nat>,
                    ghost st: State, ghost orig: seq<nat>)
    returns (entries: seq<Entry>, recs: seq<ArenaRec>, folded: seq<byte>, names: seq<byte>, ghost b: Built)
    requires AtRest(uni, st) && Renumbers(st.rows, |st.rows|, orig, remap) && Survivors(st.rows, orig)
    requires |st.entries| == |st.rows|
    requires entries0 == Gather(st.entries, orig) && recs0 == st.arenaRecs && folded0 == st.foldedArena
    requires names0 == st.nameArena
    ensures b.rows == Gather(st.rows, orig) && b.entries == entries && |recs| == |orig|
    ensures PrefixOk(b, folded, names, recs) && |folded| <= |folded0| && |names| <= |names0|
  {
    hide AtRest, PassOk, PrefixOk, Renumbers, Slide, CanSlide, RecLive, Prefix, Survivors;
    OrigAscends(st.rows, orig, remap);
    RecordShape(uni, st);
    PassStart(uni, st, orig);
    entries, recs, folded, names := entries0, recs0, folded0, names0;
    b := Unbuilt(|orig|);
    var rw: nat, fw: nat, nw: nat := 0, 1, 0;
    for r := 0 to |recs0|
      invariant PassOk(st, orig, r, Pass(entries, recs, folded, names, rw, fw, nw), b)
    {
      ghost var p := Pass(entries, recs, folded, names, rw, fw, nw);
      CurrentTest(uni, st, orig, remap, r, p, b);
      PassShape(st, orig, r, p, b);
      var rec := recs[r];
      var ns := remap[rec.slot];
      if ns == DEAD_SLOT {
        SkipRecord(st, orig, r, p, b);
        continue;
      }
      var e := entries[ns];
      if e.foldedOff != rec.off {
        SkipRecord(st, orig, r, p, b);
        continue;
      }
      MoveRecord(uni, st, orig, r, p, b, ns);
      b := Built(b.rows[ns := st.rows[orig[ns]]], b.entries[ns := Slide(p, ns).entries[ns]], b.recOf[ns := rw]);
      entries, recs, folded, names, rw, fw, nw := SlideBytes(entries, recs, folded, names, rw, fw, nw, ns);
    }
    ghost var p := Pass(entries, recs, folded, names, rw, fw, nw);
    PassEnd(uni, st, orig, p, b);
    PassIsPrefix(st, orig, |recs0|, p, b);
    folded := folded[..if rw == 0 then 0 else fw];
    names := names[..nw];
    recs := recs[..rw];
  }

  method SlideBytes(entries0: seq<Entry>, recs0: seq<ArenaRec>, folded0: seq<byte>, names0: seq<byte>, rw0: nat,
                    fw0: nat, nw0: nat, ns: nat)
    returns (entries: seq<Entry>, recs: seq<ArenaRec>, folded: seq<byte>, names: seq<byte>, rw: nat, fw: nat, nw: nat)
    requires CanSlide(Pass(entries0, recs0, folded0, names0, rw0, fw0, nw0), ns)
    ensures Pass(entries, recs, folded, names, rw, fw,
                 nw) == Slide(Pass(entries0, recs0, folded0, names0, rw0, fw0, nw0), ns)
  {
    hide Splice;
    entries, recs, folded, names, rw, fw, nw := entries0, recs0, folded0, names0, rw0, fw0, nw0;
    var e := entries[ns];
    folded := Splice(folded, fw, folded[e.foldedOff..e.foldedOff + e.foldedLen]);
    names := Splice(names, nw, names[e.nameOff..e.nameOff + e.nameLen]);
    entries := entries[ns := e.(foldedOff := fw, nameOff := nw)];
    recs := recs[rw := ArenaRec(fw, ns)];
    rw := rw + 1;
    fw := fw + e.foldedLen;
    folded := folded[fw := DELIM];
    fw := fw + 1;
    nw := nw + e.nameLen;
  }

  lemma OrigAscends(rows: seq<Row>, orig: seq<nat>, remap: seq<nat>)
    requires Renumbers(rows, |rows|, orig, remap)
    ensures forall j, k :: 0 <= j < k < |orig| ==> orig[j] < orig[k]
  {
  }

  lemma PassShape(st: State, orig: seq<nat>, r: nat, p: Pass, b: Built)
    requires PassOk(st, orig, r, p, b)
    ensures |p.recs| == |st.arenaRecs| && |p.entries| == |orig|
  {
    hide PrefixOk;
  }

  lemma PassIsPrefix(st: State, orig: seq<nat>, r: nat, p: Pass, b: Built)
    requires PassOk(st, orig, r, p, b)
    ensures |p.folded| == |st.foldedArena| && |p.names| == |st.nameArena|
    ensures p.rw <= |p.recs| && p.nw <= |p.names| && PrefixOk(b, Prefix(p), p.names[..p.nw], p.recs[..p.rw])
  {
    hide PrefixOk, Prefix;
  }
}
