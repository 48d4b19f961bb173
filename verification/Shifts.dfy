/** How giving one FRN a file, or taking its file away, moves the depths of the files that hang below it. */
module Shifts {
  import opened Bytes
  import opened Ranking
  import opened Table
  import opened Depth
  import opened Paths

  /** Links from `g` upward up to and including the first that names `f`, if one of the next `n` does. */
  function LinksTo(files: map<nat, File>, g: nat, f: nat, n: nat): (j: Option<nat>)
    requires g in files && g != f
    ensures j.Some? ==> 1 <= j.value <= n
    decreases n
  {
    if n == 0 || files[g].parent == g then None
    else if files[g].parent == f then Some(1)
    else if files[g].parent !in files then None
    else
      match LinksTo(files, files[g].parent, f, n - 1)
      case None => None
      case Some(j) => Some(j + 1)
  }

  lemma {:induction false} DepthClamp(files: map<nat, File>, g: nat, n: nat, m: nat)
    requires g in files && m <= n
    ensures DepthIn(files, g, m) == Min(DepthIn(files, g, n), m)
    decreases m
  {
    if m > 0 && ParentIn(files, g).Some? {
      DepthClamp(files, ParentIn(files, g).value, n - 1, m - 1);
    }
  }

  /** A walk that never names `f` does not care what `f` is. */
  lemma {:induction false} DepthAfterChange(files: map<nat, File>, f: nat, file: File, g: nat, n: nat)
    requires g in files && g != f
    ensures var j, after := LinksTo(files, g, f, n), files[f := file];
            DepthIn(after, g, n) == if j.None? then DepthIn(files, g, n) else j.value + DepthIn(after, f, n - j.value)
    decreases n
  {
    var p := files[g].parent;
    if n > 0 && p != g && p != f && p in files {
      DepthAfterChange(files, f, file, p, n - 1);
    }
  }

  /** A walk that names `f` goes on from `f`, or ends just short of it where `f` is missing. */
  lemma {:induction false} DepthThrough(files: map<nat, File>, f: nat, g: nat, n: nat)
    requires g in files && g != f && LinksTo(files, g, f, n).Some?
    ensures var j := LinksTo(files, g, f, n).value;
            DepthIn(files, g, n) == if f in files then j + DepthIn(files, f, n - j) else j - 1
    decreases n
  {
    var p := files[g].parent;
    if p != f {
      DepthThrough(files, f, p, n - 1);
    }
  }

  /** The links to `f` are the same with and without `f`. */
  lemma {:induction false} LinksWithout(files: map<nat, File>, f: nat, g: nat, n: nat)
    requires g in files && g != f
    ensures LinksTo(files - {f}, g, f, n) == LinksTo(files, g, f, n)
    decreases n
  {
    var p := files[g].parent;
    if n > 0 && p != g && p != f && p in files {
      LinksWithout(files, f, p, n - 1);
    }
  }

  /** A longer look finds the same first link, and a shorter one sees only links that lead on. */
  lemma {:induction false} LinksWithin(files: map<nat, File>, g: nat, f: nat, n: nat, m: nat)
    requires g in files && g != f && LinksTo(files, g, f, n).Some?
    ensures var j := LinksTo(files, g, f, n).value;
            if m >= j then LinksTo(files, g, f, m) == Some(j)
            else LinksTo(files, g, f, m).None? && DepthIn(files, g, m) == m
    decreases n
  {
    var p := files[g].parent;
    if m > 0 && p != f {
      LinksWithin(files, p, f, n - 1, m - 1);
    }
  }

  // ---- a file given to an FRN ------------------------------------------------------------

  /** The depth `f` would have under `parent`: the clamp if its new chain comes back to it. */
  function NewDepth(files: map<nat, File>, f: nat, parent: nat): nat {
    if parent == f || parent !in files then 0
    else if LinksTo(files, parent, f, RANK_DEPTH_MAX - 1).Some? then RANK_DEPTH_MAX
    else 1 + DepthIn(files, parent, RANK_DEPTH_MAX - 1)
  }

  lemma NewDepthIs(files: map<nat, File>, f: nat, file: File)
    ensures DepthIn(files[f := file], f, RANK_DEPTH_MAX) == NewDepth(files, f, file.parent)
  {
    var p := file.parent;
    if p != f && p in files {
      DepthAfterChange(files, f, file, p, RANK_DEPTH_MAX - 1);
      if LinksTo(files, p, f, RANK_DEPTH_MAX - 1).Some? {
        ChainComesBack(files, f, file, RANK_DEPTH_MAX);
      }
    }
  }

  /** A chain that comes back to `f` never ends. */
  lemma {:induction false} ChainComesBack(files: map<nat, File>, f: nat, file: File, n: nat)
    requires file.parent != f && file.parent in files && LinksTo(files, file.parent, f, RANK_DEPTH_MAX - 1).Some?
    ensures DepthIn(files[f := file], f, n) == n
    decreases n
  {
    if n > 0 {
      var p := file.parent;
      var j := LinksTo(files, p, f, RANK_DEPTH_MAX - 1).value;
      LinksWithin(files, p, f, RANK_DEPTH_MAX - 1, n - 1);
      DepthAfterChange(files, f, file, p, n - 1);
      if j <= n - 1 {
        ChainComesBack(files, f, file, n - 1 - j);
      }
    }
  }

  /** Whether `g` keeps its depth when `f` comes to stand under `parent`: it hangs below `f` nowhere, or `f` was there
      and the move cancels out or is past the clamp. */
  predicate KeepsDepth(files: map<nat, File>, f: nat, parent: nat, g: nat)
    requires g in files && g != f
  {
    match LinksTo(files, g, f, RANK_DEPTH_MAX)
    case None => true
    case Some(j) =>
      f in files && Min(j + DepthIn(files, f, RANK_DEPTH_MAX), RANK_DEPTH_MAX) ==
        Min(j + NewDepth(files, f, parent), RANK_DEPTH_MAX)
  }

  lemma KeepsDepthIs(files: map<nat, File>, f: nat, file: File, g: nat)
    requires g in files && g != f
    ensures DepthIn(files[f := file], g, RANK_DEPTH_MAX) == DepthIn(files, g, RANK_DEPTH_MAX) <==>
              KeepsDepth(files, f, file.parent, g)
  {
    hide DepthIn, LinksTo;
    DepthAfterChange(files, f, file, g, RANK_DEPTH_MAX);
    if LinksTo(files, g, f, RANK_DEPTH_MAX).Some? {
      var j := LinksTo(files, g, f, RANK_DEPTH_MAX).value;
      DepthThrough(files, f, g, RANK_DEPTH_MAX);
      NewDepthIs(files, f, file);
      DepthClamp(files[f := file], f, RANK_DEPTH_MAX, RANK_DEPTH_MAX - j);
      if f in files {
        DepthClamp(files, f, RANK_DEPTH_MAX, RANK_DEPTH_MAX - j);
      }
    }
  }

  /** Taking a file away moves exactly the depths that hang below it. */
  lemma RemovalIs(files: map<nat, File>, f: nat, g: nat)
    requires f in files && g in files && g != f
    ensures DepthIn(files - {f}, g, RANK_DEPTH_MAX) == DepthIn(files, g, RANK_DEPTH_MAX) <==>
              LinksTo(files, g, f, RANK_DEPTH_MAX).None?
  {
    hide DepthIn, LinksTo;
    LinksWithout(files, f, g, RANK_DEPTH_MAX);
    DepthAfterChange(files - {f}, f, files[f], g, RANK_DEPTH_MAX);
    assert (files - {f})[f := files[f]] == files;
    if LinksTo(files, g, f, RANK_DEPTH_MAX).Some? {
      DepthThrough(files, f, g, RANK_DEPTH_MAX);
      DepthThrough(files - {f}, f, g, RANK_DEPTH_MAX);
    }
  }
}
