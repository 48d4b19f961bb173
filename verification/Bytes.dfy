/** Bytes, options and the few sequence operations the index uses on its columns. */
module Bytes {

  type byte = x: int | 0 <= x < 256

  datatype Option<+T> = None | Some(value: T)

  /** `Vec::copy_within` and `copy_from_slice`: `piece` written over `s` at `to`. */
  function Splice<T>(s: seq<T>, to: nat, piece: seq<T>): (r: seq<T>)
    requires to + |piece| <= |s|
    ensures |r| == |s|
    ensures forall k {:trigger r[k]} :: 0 <= k < |s| ==> r[k] == if to <= k < to + |piece| then piece[k - to] else s[k]
  {
    s[..to] + piece + s[to + |piece|..]
  }

  /** A run of `n` copies of `x`. */
  function Repeat<T>(x: T, n: nat): (r: seq<T>)
    ensures |r| == n && forall k :: 0 <= k < n ==> r[k] == x
  {
    seq(n, _ => x)
  }

  /** No byte of `s` is one the folded arena reserves for itself. */
  predicate NoControl(s: seq<byte>) {
    forall k :: 0 <= k < |s| ==> s[k] >= 0x20
  }

  /** `s` with `x` at slot `i`, which may be the next free place. */
  function Put<T>(s: seq<T>, i: nat, x: T): (r: seq<T>)
    requires i <= |s|
    ensures |r| == if i < |s| then |s| else |s| + 1
    ensures forall k {:trigger r[k]} :: 0 <= k < |r| ==> r[k] == if k == i then x else s[k]
  {
    if i < |s| then s[i := x] else s + [x]
  }

  lemma SpliceApart<T>(s: seq<T>, to: nat, piece: seq<T>, lo: nat, hi: nat)
    requires to + |piece| <= |s| && lo <= hi <= |s|
    requires hi <= to || to + |piece| <= lo
    ensures Splice(s, to, piece)[lo..hi] == s[lo..hi]
  {
  }

  lemma SliceOfSlice<T>(s: seq<T>, lo: nat, hi: nat, x: nat, y: nat)
    requires lo <= hi <= |s| && x <= y <= hi - lo
    ensures s[lo..hi][x..y] == s[lo + x..lo + y]
  {
    forall k | 0 <= k < y - x ensures s[lo..hi][x..y][k] == s[lo + x..lo + y][k] {
    }
  }
}
