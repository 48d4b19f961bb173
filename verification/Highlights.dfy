/** Highlight ranges: sorting and merging what touches or overlaps. */
module Highlights {

  /** Half-open. */
  datatype Range = Range(start: nat, end: nat)

  predicate Spans(rs: seq<Range>, x: int) {
    exists i :: 0 <= i < |rs| && rs[i].start <= x < rs[i].end
  }

  predicate LessEq(a: Range, b: Range) {
    a.start < b.start || (a.start == b.start && a.end <= b.end)
  }

  predicate InOrder(rs: seq<Range>) {
    forall i, j :: 0 <= i < j < |rs| ==> LessEq(rs[i], rs[j])
  }

  /** Ascending, with a position between any two that neither touches. */
  predicate Spaced(rs: seq<Range>) {
    forall i, j :: 0 <= i < j < |rs| ==> rs[i].end < rs[j].start
  }

  predicate NonEmpty(rs: seq<Range>) {
    forall i :: 0 <= i < |rs| ==> rs[i].start < rs[i].end
  }

  function Insert(r: Range, rs: seq<Range>): (out: seq<Range>) {
    if rs == [] || LessEq(r, rs[0]) then [r] + rs else [rs[0]] + Insert(r, rs[1..])
  }

  function Sort(rs: seq<Range>): (out: seq<Range>) {
    if rs == [] then [] else Insert(rs[0], Sort(rs[1..]))
  }

  lemma {:induction false} InsertInOrder(r: Range, rs: seq<Range>)
    requires InOrder(rs)
    ensures InOrder(Insert(r, rs))
  {
    if rs == [] || LessEq(r, rs[0]) {
      forall j | 0 <= j < |rs| ensures LessEq(r, rs[j]) {
        assert j > 0 ==> LessEq(rs[0], rs[j]);
      }
    } else {
      InsertInOrder(r, rs[1..]);
      var rest := Insert(r, rs[1..]);
      InsertKeeps(r, rs[1..]);
      forall j | 0 <= j < |rest| ensures LessEq(rs[0], rest[j]) {
        assert rest[j] in multiset(rest);
      }
    }
  }

  lemma {:induction false} InsertKeeps(r: Range, rs: seq<Range>)
    ensures multiset(Insert(r, rs)) == multiset(rs) + multiset{r}
  {
    hide LessEq;
    if rs != [] {
      InsertKeeps(r, rs[1..]);
      assert rs == [rs[0]] + rs[1..];
    }
  }

  lemma {:induction false} SortInOrder(rs: seq<Range>)
    ensures InOrder(Sort(rs)) && multiset(Sort(rs)) == multiset(rs)
  {
    if rs != [] {
      SortInOrder(rs[1..]);
      InsertInOrder(rs[0], Sort(rs[1..]));
      InsertKeeps(rs[0], Sort(rs[1..]));
      assert rs == [rs[0]] + rs[1..];
    }
  }

  lemma SameElementsCover(a: seq<Range>, b: seq<Range>)
    requires multiset(a) == multiset(b)
    ensures forall x :: Spans(a, x) <==> Spans(b, x)
  {
    forall x ensures Spans(a, x) <==> Spans(b, x) {
      if i :| 0 <= i < |a| && a[i].start <= x < a[i].end {
        assert a[i] in multiset(b);
      }
      if i :| 0 <= i < |b| && b[i].start <= x < b[i].end {
        assert b[i] in multiset(a);
      }
    }
  }

  /** One more range in order: it widens the last one it touches, or stands on its own. */
  function Absorb(out: seq<Range>, r: Range): seq<Range> {
    if out != [] && r.start <= out[|out| - 1].end then
      var last := out[|out| - 1];
      out[..|out| - 1] + [last.(end := if last.end >= r.end then last.end else r.end)]
    else out + [r]
  }

  lemma AbsorbOk(out: seq<Range>, r: Range)
    requires Spaced(out) && (out != [] ==> out[|out| - 1].start <= r.start)
    ensures var next := Absorb(out, r);
            && Spaced(next) && next != [] && next[|next| - 1].start <= r.start
            && (NonEmpty(out) && r.start < r.end ==> NonEmpty(next))
            && forall x :: Spans(next, x) <==> Spans(out, x) || r.start <= x < r.end
  {
    hide Spans;
    if out != [] && r.start <= out[|out| - 1].end {
      var front, last := out[..|out| - 1], out[|out| - 1];
      assert out == front + [last];
      SpansMore(front, last);
      SpansMore(front, last.(end := if last.end >= r.end then last.end else r.end));
    } else {
      SpansMore(out, r);
    }
  }

  /** One round of the merge. */
  lemma MergedMore(v: seq<Range>, sorted: seq<Range>, i: nat, out: seq<Range>)
    requires InOrder(sorted) && multiset(sorted) == multiset(v) && i < |sorted|
    requires Spaced(out) && (NonEmpty(v) ==> NonEmpty(out)) && forall x :: Spans(out, x) <==> Spans(sorted[..i], x)
    requires out != [] ==> i > 0 && out[|out| - 1].start <= sorted[i - 1].start
    ensures var next := Absorb(out, sorted[i]);
            && Spaced(next) && (NonEmpty(v) ==> NonEmpty(next))
            && (forall x :: Spans(next, x) <==> Spans(sorted[..i + 1], x))
            && next != [] && next[|next| - 1].start <= sorted[i].start
  {
    hide Spans, Absorb, Spaced;
    var r := sorted[i];
    assert r in multiset(v);
    assert sorted[..i + 1] == sorted[..i] + [r];
    assert i > 0 ==> LessEq(sorted[i - 1], r);
    SpansMore(sorted[..i], r);
    AbsorbOk(out, r);
  }

  /** The same positions, in spaced ranges. */
  method MergeRanges(v: seq<Range>) returns (out: seq<Range>)
    ensures forall x :: Spans(out, x) <==> Spans(v, x)
    ensures Spaced(out)
    ensures NonEmpty(v) ==> NonEmpty(out)
  {
    hide Sort, Spans, Absorb, Spaced, NonEmpty, InOrder;
    var sorted := Sort(v);
    SortInOrder(v);
    SameElementsCover(sorted, v);
    out := [];
    NoneSpanned();
    for i := 0 to |sorted|
      invariant Spaced(out) && (NonEmpty(v) ==> NonEmpty(out))
      invariant forall x :: Spans(out, x) <==> Spans(sorted[..i], x)
      invariant out != [] ==> i > 0 && out[|out| - 1].start <= sorted[i - 1].start
    {
      var r := sorted[i];
      MergedMore(v, sorted, i, out);
      AbsorbIs(out, r);
      if out != [] && r.start <= out[|out| - 1].end {
        var last := out[|out| - 1];
        out := out[|out| - 1 := last.(end := if last.end >= r.end then last.end else r.end)];
      } else {
        out := out + [r];
      }
    }
    assert sorted[..|sorted|] == sorted;
  }

  lemma NoneSpanned()
    ensures Spaced([]) && NonEmpty([]) && forall x :: !Spans([], x)
  {
  }

  lemma AbsorbIs(out: seq<Range>, r: Range)
    ensures Absorb(out, r) == if out != [] && r.start <= out[|out| - 1].end
                              then var last := out[|out| - 1];
                                   out[|out| - 1 := last.(end := if last.end >= r.end then last.end else r.end)]
                              else out + [r]
  {
  }

  /** Spaced non-empty ranges are determined by the positions they cover, so the merge has only one right answer. */
  lemma {:induction false} OneNormalForm(a: seq<Range>, b: seq<Range>)
    requires Spaced(a) && Spaced(b) && NonEmpty(a) && NonEmpty(b)
    requires forall x :: Spans(a, x) <==> Spans(b, x)
    ensures a == b
  {
    hide Spans;
    if a == [] || b == [] {
      if b != [] {
        FirstCovered(b, b[0].start);
      }
      if a != [] {
        FirstCovered(a, a[0].start);
      }
      NoneSpanned();
    } else {
      FirstCovered(a, a[0].start);
      FirstCovered(b, b[0].start);
      FirstCovered(a, b[0].start);
      FirstCovered(b, a[0].start);
      FirstCovered(a, a[0].end);
      FirstCovered(b, b[0].end);
      FirstCovered(a, b[0].end);
      FirstCovered(b, a[0].end);
      forall x ensures Spans(a[1..], x) <==> Spans(b[1..], x) {
        FirstCovered(a, x);
        FirstCovered(b, x);
      }
      OneNormalForm(a[1..], b[1..]);
    }
  }

  lemma FirstCovered(a: seq<Range>, x: int)
    requires Spaced(a) && NonEmpty(a) && a != []
    ensures Spans(a, x) ==> a[0].start <= x && (x < a[0].end || x > a[0].end)
    ensures Spans(a, x) <==> a[0].start <= x < a[0].end || Spans(a[1..], x)
    ensures Spans(a[1..], x) ==> x > a[0].end
  {
    var rest := a[1..];
    if i :| 0 <= i < |rest| && rest[i].start <= x < rest[i].end {
      assert a[i + 1] == rest[i];
    }
    if i :| 0 <= i < |a| && a[i].start <= x < a[i].end {
      assert i > 0 ==> rest[i - 1] == a[i];
    }
  }

  lemma SpansMore(rs: seq<Range>, r: Range)
    ensures forall x :: Spans(rs + [r], x) <==> Spans(rs, x) || r.start <= x < r.end
  {
    forall x ensures Spans(rs + [r], x) <==> Spans(rs, x) || r.start <= x < r.end {
      var more := rs + [r];
      assert more[|rs|] == r;
      if i :| 0 <= i < |rs| && rs[i].start <= x < rs[i].end {
        assert more[i] == rs[i];
      }
    }
  }
}
