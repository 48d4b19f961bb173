/** Parent chains and paths of the abstract file table, and the index's walks over its columns that compute them. */
module Paths {
  import opened Bytes
  import opened Utf8
  import opened Names
  import opened Table
  import opened Depth

  /** The file a chain goes on to: none at a self-parenting root or where the parent is missing. */
  function ParentIn(files: map<nat, File>, f: nat): (p: Option<nat>)
    requires f in files
    ensures p.Some? ==> p.value in files && p.value != f
  {
    if files[f].parent != f && files[f].parent in files then Some(files[f].parent) else None
  }

  /** Links followed upward from `f`, at most `n`. */
  function DepthIn(files: map<nat, File>, f: nat, n: nat): (d: nat)
    requires f in files
    ensures d <= n
    decreases n
  {
    if n == 0 || ParentIn(files, f).None? then 0 else 1 + DepthIn(files, ParentIn(files, f).value, n - 1)
  }

  /** Names from `f` upward, at most `n` of them. */
  function NamesUp(files: map<nat, File>, f: nat, n: nat): (names: seq<string>)
    requires f in files
    ensures |names| == if n == 0 then 0 else 1 + DepthIn(files, f, n - 1)
    decreases n
  {
    if n == 0 then []
    else [files[f].name] + match ParentIn(files, f) { case None => [] case Some(p) => NamesUp(files, p, n - 1) }
  }

  /** Upward names joined from the top down. */
  function Joined(names: seq<string>): string {
    if names == [] then ""
    else if |names| == 1 then names[0]
    else Joined(names[1..]) + "\\" + names[0]
  }

  function Anchor(root: string): string {
    if root != "" && root[|root| - 1] == '\\' then root else root + "\\"
  }

  /** The absolute path of `f`: the anchor, then its chain from the top down, cut at the cycle guard. */
  function PathIn(files: map<nat, File>, root: string, f: nat): Option<string> {
    if f in files then Some(Anchor(root) + Joined(NamesUp(files, f, PATH_DEPTH_CAP))) else None
  }

  // ---- what a path is ------------------------------------------------------------------

  /** The chain above `f` ends, at a root or where a parent is missing, within `n` files. */
  predicate Ends(files: map<nat, File>, f: nat, n: nat)
    requires f in files
    decreases n
  {
    n > 0 && (files[f].parent == f || files[f].parent !in files || Ends(files, files[f].parent, n - 1))
  }

  lemma {:induction false} NamesOfEnding(files: map<nat, File>, f: nat, n: nat, m: nat)
    requires f in files && Ends(files, f, n) && n <= m
    ensures NamesUp(files, f, m) == NamesUp(files, f, n)
    decreases n
  {
    if ParentIn(files, f).Some? {
      NamesOfEnding(files, files[f].parent, n - 1, m - 1);
    }
  }

  /** A file at the top of its chain stands right below the volume's root path; any other whose chain ends within the
      cap stands right below its parent; and a file not held has no path. */
  lemma PathIs(files: map<nat, File>, root: string, f: nat)
    ensures f !in files ==> PathIn(files, root, f) == None
    ensures f in files && (files[f].parent == f || files[f].parent !in files) ==>
              PathIn(files, root, f) ==
                Some(root + (if root != "" && root[|root| - 1] == '\\' then "" else "\\") + files[f].name)
    ensures f in files && files[f].parent != f && files[f].parent in files && Ends(files, f, PATH_DEPTH_CAP) ==>
              && PathIn(files, root, files[f].parent).Some?
              && PathIn(files, root, f) == Some(PathIn(files, root, files[f].parent).value + "\\" + files[f].name)
  {
    hide NamesUp, Joined, Anchor, Ends;
    if f in files {
      NamesUpStep(files, f, PATH_DEPTH_CAP);
      if ParentIn(files, f).None? {
        assert NamesUp(files, f, PATH_DEPTH_CAP) == [files[f].name];
        JoinedOne(files[f].name);
        Anchored(root, files[f].name);
      } else if Ends(files, f, PATH_DEPTH_CAP) {
        EndsAbove(files, f, PATH_DEPTH_CAP);
        var above := NamesUp(files, files[f].parent, PATH_DEPTH_CAP - 1);
        NamesOfEnding(files, files[f].parent, PATH_DEPTH_CAP - 1, PATH_DEPTH_CAP);
        JoinedCons(files[f].name, above);
        Assoc3(Anchor(root), Joined(above), "\\", files[f].name);
      }
    }
  }

  lemma EndsAbove(files: map<nat, File>, f: nat, n: nat)
    requires f in files && Ends(files, f, n) && ParentIn(files, f).Some?
    ensures n > 0 && Ends(files, files[f].parent, n - 1) && NamesUp(files, files[f].parent, n - 1) != []
  {
  }

  lemma JoinedOne(name: string)
    ensures Joined([name]) == name
  {
  }

  lemma Anchored(root: string, s: string)
    ensures Anchor(root) + s == root + (if root != "" && root[|root| - 1] == '\\' then "" else "\\") + s
  {
    assert root + "" == root;
  }

  lemma Assoc3(a: string, b: string, c: string, d: string)
    ensures a + (b + c + d) == a + b + c + d
  {
  }

  /** Files one above the other, each the parent of the one before. */
  predicate Climbs(files: map<nat, File>, c: seq<nat>) {
    && (forall i :: 0 <= i < |c| ==> c[i] in files)
    && forall i :: 0 < i < |c| ==> c[i] == files[c[i - 1]].parent && c[i] != c[i - 1]
  }

  /** Their names from the last to the first, a backslash between each two. */
  function Spelled(files: map<nat, File>, c: seq<nat>): string
    requires c != [] && forall i :: 0 <= i < |c| ==> c[i] in files
  {
    if |c| == 1 then files[c[0]].name else Spelled(files, c[1..]) + "\\" + files[c[0]].name
  }

  lemma {:induction false} Cut(files: map<nat, File>, f: nat, n: nat) returns (c: seq<nat>)
    requires f in files && n > 0 && !Ends(files, f, n)
    ensures |c| == n && c[0] == f && Climbs(files, c) && Joined(NamesUp(files, f, n)) == Spelled(files, c)
    decreases n
  {
    NamesUpStep(files, f, n);
    if n == 1 {
      NamesUpNone(files, files[f].parent);
      c := [f];
    } else {
      var above := Cut(files, files[f].parent, n - 1);
      c := [f] + above;
      assert c[1..] == above;
      NamesUpStep(files, files[f].parent, n - 1);
      JoinedCons(files[f].name, NamesUp(files, files[f].parent, n - 1));
    }
  }

  /** A chain that goes on past the cap, as every cycle does, is spelled from its nearest files, as many as the cap. */
  lemma CutPath(files: map<nat, File>, root: string, f: nat) returns (c: seq<nat>)
    requires f in files && !Ends(files, f, PATH_DEPTH_CAP)
    ensures |c| == PATH_DEPTH_CAP && c[0] == f && Climbs(files, c)
    ensures PathIn(files, root, f) ==
              Some(root + (if root != "" && root[|root| - 1] == '\\' then "" else "\\") + Spelled(files, c))
  {
    hide NamesUp, Joined, Anchor, Ends, Climbs;
    c := Cut(files, f, PATH_DEPTH_CAP);
    Anchored(root, Spelled(files, c));
  }

  // ---- the columns' walk is the table's ----------------------------------------------

  lemma UpIsParent(entries: seq<Entry>, rows: seq<Row>, names: seq<byte>, nend: nat, frnMap: map<nat, nat>, f: nat)
    requires EntriesOk(entries, rows, names, nend) && MapOk(rows, frnMap) && MapLive(entries, frnMap) && f in frnMap
    ensures f in Files(rows, frnMap) && (forall p :: p in Files(rows, frnMap) <==> p in frnMap)
    ensures entries[frnMap[f]].frn == f && entries[frnMap[f]].parent == Files(rows, frnMap)[f].parent
    ensures Up(entries, frnMap, frnMap[f]) ==
              match ParentIn(Files(rows, frnMap), f) { case None => None case Some(p) => Some(frnMap[p]) }
  {
    assert EntryOk(entries[frnMap[f]], rows[frnMap[f]], names, nend);
  }

  /** The depth the columns cache is a property of the abstract table alone. */
  lemma {:induction false} StepsAreDepth(entries: seq<Entry>, rows: seq<Row>, names: seq<byte>, nend: nat,
                                         frnMap: map<nat, nat>, f: nat, n: nat)
    requires EntriesOk(entries, rows, names, nend) && MapOk(rows, frnMap) && MapLive(entries, frnMap) && f in frnMap
    ensures f in Files(rows, frnMap) && Steps(entries, frnMap, frnMap[f], n) == DepthIn(Files(rows, frnMap), f, n)
    decreases n
  {
    UpIsParent(entries, rows, names, nend, frnMap, f);
    var p := ParentIn(Files(rows, frnMap), f);
    hide EntriesOk, MapOk, Up, Files;
    if n > 0 && p.Some? {
      StepsAreDepth(entries, rows, names, nend, frnMap, p.value, n - 1);
    }
  }

  /** Path reconstruction: collect the chain upward, then write it out from the top. */
  method PathOf(entries: seq<Entry>, nameArena: seq<byte>, frnMap: map<nat, nat>, root: string, frn: nat,
                ghost rows: seq<Row>)
    returns (r: Option<string>)
    requires EntriesOk(entries, rows, nameArena, |nameArena|) && MapOk(rows, frnMap) && MapLive(entries, frnMap)
    ensures r == PathIn(Files(rows, frnMap), root, frn)
  {
    hide EntriesOk, MapOk, Files, Encode, Decode, Joined, NamesUp;
    if frn !in frnMap {
      FilesCount(rows, frnMap);
      return None;
    }
    UpIsParent(entries, rows, nameArena, |nameArena|, frnMap, frn);
    var parts;
    ghost var names;
    parts, names := CollectUp(entries, nameArena, frnMap, frnMap[frn], PATH_DEPTH_CAP, rows, frn);
    var out := root;
    if out == "" || out[|out| - 1] != '\\' {
      out := out + "\\";
    }
    out := WriteDown(parts, nameArena, out, names);
    r := Some(out);
  }

  /** The chain's name spans, from a slot upward. */
  method CollectUp(entries: seq<Entry>, nameArena: seq<byte>, frnMap: map<nat, nat>, slot: nat, cap: nat,
                   ghost rows: seq<Row>, ghost frn: nat)
    returns (parts: seq<(nat, nat)>, ghost names: seq<string>)
    requires EntriesOk(entries, rows, nameArena, |nameArena|) && MapOk(rows, frnMap) && MapLive(entries, frnMap)
    requires frn in frnMap && slot == frnMap[frn] && frn in Files(rows, frnMap)
    ensures PartsAre(parts, nameArena, names) && names == NamesUp(Files(rows, frnMap), frn, cap)
  {
    hide EntriesOk, MapOk, Files, Encode, NamesUp, Up, PartsAre, MapLive;
    PartsNone(nameArena);
    ghost var files := Files(rows, frnMap);
    var idx := slot;
    parts, names := [], [];
    ghost var at := frn;
    var steps, going := 0, true;
    while steps < cap && going
      invariant steps <= cap && at in frnMap && at in files && idx == frnMap[at]
      invariant PartsAre(parts, nameArena, names)
      invariant NamesUp(files, frn, cap) == names + if going then NamesUp(files, at, cap - steps) else []
      decreases cap - steps
    {
      UpIsParent(entries, rows, nameArena, |nameArena|, frnMap, at);
      NameIn(entries, rows, nameArena, frnMap, at);
      NamesUpStep(files, at, cap - steps);
      MapLiveAt(entries, frnMap, idx);
      var e := entries[idx];
      PartsMore(parts, nameArena, names, e.nameOff, e.nameLen, files[at].name);
      parts, names := parts + [(e.nameOff, e.nameLen)], names + [files[at].name];
      if e.parent == e.frn {
        going := false;
      } else if e.parent in frnMap && frnMap[e.parent] != idx {
        idx, at := frnMap[e.parent], e.parent;
      } else {
        going := false;
      }
      steps := steps + 1;
    }
    NamesUpNone(files, at);
  }

  lemma NamesUpStep(files: map<nat, File>, f: nat, n: nat)
    requires f in files && n > 0
    ensures NamesUp(files, f, n) ==
              [files[f].name] + match ParentIn(files, f) { case None => [] case Some(p) => NamesUp(files, p, n - 1) }
  {
  }

  lemma NamesUpNone(files: map<nat, File>, f: nat)
    requires f in files
    ensures NamesUp(files, f, 0) == []
  {
  }

  lemma MapLiveAt(entries: seq<Entry>, frnMap: map<nat, nat>, s: nat)
    requires MapLive(entries, frnMap) && s < |entries|
    ensures Up(entries, frnMap, s) ==
      if entries[s].parent != entries[s].frn && entries[s].parent in frnMap && frnMap[entries[s].parent] != s then
        Some(frnMap[entries[s].parent])
      else None
  {
  }

  lemma PartsNone(nameArena: seq<byte>)
    ensures PartsAre([], nameArena, [])
  {
  }

  lemma PartsMore(parts: seq<(nat, nat)>, nameArena: seq<byte>, names: seq<string>, off: nat, len: nat, name: string)
    requires PartsAre(parts, nameArena, names) && off + len <= |nameArena| && nameArena[off..off + len] == Encode(name)
    ensures PartsAre(parts + [(off, len)], nameArena, names + [name])
  {
    hide Encode;
  }

  /** Each part spans one name of the arena. */
  predicate PartsAre(parts: seq<(nat, nat)>, nameArena: seq<byte>, names: seq<string>) {
    && |parts| == |names|
    && forall k :: 0 <= k < |parts| ==>
      parts[k].0 + parts[k].1 <= |nameArena| && nameArena[parts[k].0..parts[k].0 + parts[k].1] == Encode(names[k])
  }

  lemma NameIn(entries: seq<Entry>, rows: seq<Row>, nameArena: seq<byte>, frnMap: map<nat, nat>, f: nat)
    requires EntriesOk(entries, rows, nameArena, |nameArena|) && MapOk(rows, frnMap) && f in frnMap
    ensures frnMap[f] < |entries| && f in Files(rows, frnMap)
    ensures var e := entries[frnMap[f]];
            e.nameOff + e.nameLen <= |nameArena| && nameArena[e.nameOff..e.nameOff + e.nameLen] ==
              Encode(Files(rows, frnMap)[f].name)
  {
    assert EntryOk(entries[frnMap[f]], rows[frnMap[f]], nameArena, |nameArena|);
  }

  /** Append the parts last to first, separated. */
  method WriteDown(parts: seq<(nat, nat)>, nameArena: seq<byte>, anchor: string, ghost names: seq<string>)
    returns (out: string)
    requires PartsAre(parts, nameArena, names)
    ensures out == anchor + Joined(names)
  {
    hide Encode, Decode;
    out := anchor;
    var i := |parts|;
    while i > 0
      invariant 0 <= i <= |parts| && out == anchor + Joined(names[i..])
    {
      ghost var tail := names[i..];
      if i < |parts| {
        out := out + "\\";
      }
      i := i - 1;
      RoundTrip(names[i]);
      out := out + Decode(nameArena[parts[i].0..parts[i].0 + parts[i].1]);
      assert names[i..] == [names[i]] + tail;
      JoinedCons(names[i], tail);
    }
    assert names[0..] == names;
  }

  lemma JoinedCons(name: string, tail: seq<string>)
    ensures Joined([name] + tail) == Joined(tail) + (if tail == [] then "" else "\\") + name
  {
    assert ([name] + tail)[1..] == tail;
  }
}
