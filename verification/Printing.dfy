/** The printer adds as few parentheses as any that reads back. */
module Printing {
  import opened Bytes
  import opened Calc

  /** `x` is `e` with parentheses added anywhere. */
  predicate Extends(x: Tree, e: Tree)
    decreases x
  {
    || (x.Paren? && Extends(x.arg, e))
    || match e
       case Lit(_) => x == e
       case Paren(a) => x.Paren? && Extends(x.arg, a)
       case Prefix(op, a) => x.Prefix? && x.op == op && Extends(x.arg, a)
       case Pct(a) => x.Pct? && Extends(x.arg, a)
       case Bin(op, l, r) => x.Bin? && x.op == op && Extends(x.l, l) && Extends(x.r, r)
  }

  // ---- what of its surroundings a tree can tell --------------------------------------------

  /** Under minimum power `m`, nothing tells `t` and `u` apart. */
  ghost predicate SameAfter(t: seq<Tok>, u: seq<Tok>, m: nat) {
    && (m <= 12 ==> (StartsTerm(t) <==> StartsTerm(u)))
    && forall b: nat :: b >= m || b >= 13 ==> (Captures(t, b) <==> Captures(u, b))
  }

  lemma CapturesDown(t: seq<Tok>, b: nat, c: nat)
    requires Captures(t, b) && c <= b
    ensures Captures(t, c)
  {
  }

  /** Past a prefix's power only `^` goes on. */
  lemma TightCaptures(t: seq<Tok>, b: nat, c: nat)
    requires 13 <= b <= 15 && 13 <= c && Captures(t, c)
    ensures Captures(t, b) && t != [] && t[0].Caret?
  {
  }

  lemma ParenAfter(t: seq<Tok>, u: seq<Tok>, m: nat)
    ensures SameAfter([RParen] + t, [RParen] + u, m)
  {
    NothingAfterParen(t);
    NothingAfterParen(u);
  }

  lemma PercentAfter(t: seq<Tok>, u: seq<Tok>, m: nat)
    requires !StartsTerm(t) && !StartsTerm(u)
    ensures SameAfter([Percent] + t, [Percent] + u, m) && (m <= 12 ==> Captures([Percent] + t, m))
  {
    assert ([Percent] + t)[1..] == t && ([Percent] + u)[1..] == u;
  }

  /** After an operator comes a term, whatever is printed there. */
  lemma OperatorAfter(op: Tok, x: Tree, y: Tree, b: nat, t: seq<Tok>, u: seq<Tok>, m: nat)
    requires InfixBp(op).Some? && Shape(x, b, t) && Shape(y, b, u)
    ensures SameAfter([op] + Yield(x) + t, [op] + Yield(y) + u, m)
    ensures forall k: nat :: Captures([op] + Yield(x) + t, k) <==> InfixBp(op).value.0 >= k
  {
    hide InfixBp, StartsTerm;
    ShapeStartsTerm(x, b, t);
    ShapeStartsTerm(y, b, u);
    OperatorFollows(op, Yield(x) + t);
    OperatorFollows(op, Yield(y) + u);
    assert [op] + (Yield(x) + t) == [op] + Yield(x) + t && [op] + (Yield(y) + u) == [op] + Yield(y) + u;
    SameFirst(op, Yield(x) + t, Yield(y) + u);
  }

  lemma SameFirst(op: Tok, t: seq<Tok>, u: seq<Tok>)
    ensures StartsTerm([op] + t) <==> StartsTerm([op] + u)
  {
  }

  /** Left and right powers go together. */
  lemma Powers(op: Tok)
    requires InfixBp(op).Some?
    ensures if op.Caret? then InfixBp(op) == Some((16, 15))
            else InfixBp(op).value.0 <= 11 && InfixBp(op).value.1 == InfixBp(op).value.0 + 1
  {
  }

  lemma {:induction false} GuardSame(e: Tree, m: nat, t: seq<Tok>, u: seq<Tok>)
    requires WellFormed(e) && m <= 15 && SameAfter(t, u, m)
    ensures Guard(e, m, t) == Guard(e, m, u)
    decreases e, 1
  {
    hide Captures, StartsTerm, InfixBp, Yield;
    BareSame(e, m, t, u);
    if Bare(e, m, t) {
      PartsSame(e, m, t, u);
    } else {
      ParenAfter(t, u, 0);
      BareInParens(e, t);
      BareInParens(e, u);
      PartsSame(e, 0, [RParen] + t, [RParen] + u);
    }
  }

  lemma BareSame(e: Tree, m: nat, t: seq<Tok>, u: seq<Tok>)
    requires WellFormed(e) && m <= 15 && SameAfter(t, u, m)
    ensures Bare(e, m, t) <==> Bare(e, m, u)
  {
    hide Captures, StartsTerm, InfixBp;
    if e.Bin? {
      Powers(e.op);
    }
  }

  lemma {:induction false} PartsSame(e: Tree, m: nat, t: seq<Tok>, u: seq<Tok>)
    requires WellFormed(e) && m <= 15 && SameAfter(t, u, m) && Bare(e, m, t) && Bare(e, m, u)
    ensures GuardParts(e, m, t) == GuardParts(e, m, u)
    decreases e, 0
  {
    hide Captures, StartsTerm, InfixBp, Yield;
    match e
    case Lit(_) =>
    case Paren(a) =>
      ParenAfter(t, u, 0);
      GuardSame(a, 0, [RParen] + t, [RParen] + u);
    case Prefix(op, a) => GuardSame(a, 13, t, u);
    case Pct(a) =>
      PercentAfter(t, u, m);
      GuardSame(a, m, [Percent] + t, [Percent] + u);
    case Bin(op, l, r) =>
      var b := InfixBp(op).value.1;
      Powers(op);
      GuardSame(r, b, t, u);
      var right := Guard(r, b, t);
      GuardInShape(r, b, t);
      GuardInShape(r, b, u);
      OperatorAfter(op, right, right, b, t, u, m);
      GuardSame(l, m, [op] + Yield(right) + t, [op] + Yield(right) + u);
  }

  // ---- what harder surroundings cost -------------------------------------------------------

  function Size(e: Tree): nat {
    |Yield(e)|
  }

  /** Where something that binds as tightly goes on anyway, a smaller minimum power saves nothing. */
  lemma {:induction false} GuardLowered(e: Tree, m: nat, t: seq<Tok>)
    requires WellFormed(e) && m <= 12 && Captures(t, m)
    ensures Guard(e, m, t) == Guard(e, 0, t)
    decreases e
  {
    hide Captures, StartsTerm, InfixBp, Yield;
    BareLowered(e, m, t);
    if Bare(e, m, t) {
      match e
      case Pct(a) =>
        PercentAfter(t, t, m);
        GuardLowered(a, m, [Percent] + t);
      case Bin(op, l, r) =>
        var right := Guard(r, InfixBp(op).value.1, t);
        GuardInShape(r, InfixBp(op).value.1, t);
        OperatorAfter(op, right, right, InfixBp(op).value.1, t, t, m);
        GuardLowered(l, m, [op] + Yield(right) + t);
      case _ =>
    }
  }

  lemma BareLowered(e: Tree, m: nat, t: seq<Tok>)
    requires WellFormed(e) && m <= 12 && Captures(t, m)
    ensures Bare(e, m, t) <==> Bare(e, 0, t)
  {
    hide Captures, StartsTerm, InfixBp;
    if e.Bin? && InfixBp(e.op).value.0 < m {
      Powers(e.op);
      CapturesDown(t, m, InfixBp(e.op).value.1);
    }
  }

  /** Before `^` the least power costs at most the parentheses of a percentage. */
  lemma TightLeft(e: Tree, m: nat, t: seq<Tok>)
    requires WellFormed(e) && 13 <= m <= 15 && Captures(t, m)
    ensures Size(Guard(e, m, t)) <= 2 + Size(Guard(e, 0, t))
  {
    hide Captures, StartsTerm, InfixBp;
    TightCaptures(t, m, m);
    match e
    case Pct(a) =>
      CaretNoTerm(t);
      PercentAfter(t, [RParen] + t, 0);
      GuardSame(a, 0, [Percent] + t, [Percent] + ([RParen] + t));
    case Bin(op, l, r) =>
      Powers(op);
      TightBinNotBare(op, m, t);
    case _ =>
  }

  lemma CaretNoTerm(t: seq<Tok>)
    requires t != [] && t[0].Caret?
    ensures !StartsTerm(t) && !StartsTerm([RParen] + t)
  {
  }

  lemma TightBinNotBare(op: Tok, m: nat, t: seq<Tok>)
    requires InfixBp(op).Some? && 13 <= m <= 15 && Captures(t, m)
    ensures Captures(t, InfixBp(op).value.1)
  {
    TightCaptures(t, m, m);
    Powers(op);
  }

  /** On the right, surroundings that go on with nothing as tight cost at most one pair of parentheses, and none past
      a prefix's power. */
  lemma {:induction false} RightCost(e: Tree, m: nat, t: seq<Tok>)
    requires WellFormed(e) && m <= 15 && !Captures(t, m)
    ensures Size(Guard(e, m, t)) <= 2 + Size(Guard(e, m, [RParen] + t))
    ensures m >= 13 ==> Guard(e, m, t) == Guard(e, m, [RParen] + t)
    decreases e, 1
  {
    hide Captures, StartsTerm, InfixBp, Yield;
    var u := [RParen] + t;
    NothingAfterParen(t);
    if m >= 13 {
      TightSame(t, m);
      GuardSame(e, m, t, u);
    } else {
      match e
      case Lit(_) =>
      case Paren(a) => InParens(a, t);
      case Prefix(op, a) =>
        LooserNot(t, m, 13);
        RightCost(a, 13, t);
      case Pct(a) => RightPct(a, m, t);
      case Bin(op, l, r) =>
        if InfixBp(op).value.0 >= m {
          RightBin(op, l, r, m, t);
        } else {
          ParenAfter(t, u, 0);
          PartsInParens(e, t);
          PartsInParens(e, u);
          GuardSame(e, 0, [RParen] + t, [RParen] + u);
        }
    }
  }

  lemma PartsInParens(e: Tree, t: seq<Tok>)
    requires WellFormed(e)
    ensures GuardParts(e, 0, [RParen] + t) == Guard(e, 0, [RParen] + t)
  {
    BareInParens(e, t);
  }

  lemma InParens(a: Tree, t: seq<Tok>)
    requires WellFormed(a)
    ensures Guard(Paren(a), 0, t) == Guard(Paren(a), 0, [RParen] + t)
    ensures forall m: nat :: Guard(Paren(a), m, t) == Guard(Paren(a), m, [RParen] + t)
  {
    ParenAfter(t, [RParen] + t, 0);
    GuardSame(a, 0, [RParen] + t, [RParen] + ([RParen] + t));
  }

  lemma LooserNot(t: seq<Tok>, m: nat, b: nat)
    requires !Captures(t, m) && m <= b
    ensures !Captures(t, b)
  {
    if Captures(t, b) {
      CapturesDown(t, b, m);
    }
  }

  lemma TightSame(t: seq<Tok>, m: nat)
    requires 13 <= m <= 15 && !Captures(t, m)
    ensures SameAfter(t, [RParen] + t, m)
  {
    NothingAfterParen(t);
    forall b: nat | b >= 13 ensures !Captures(t, b) {
      if Captures(t, b) {
        TightCaptures(t, m, b);
      }
    }
  }

  lemma RightPct(a: Tree, m: nat, t: seq<Tok>)
    requires WellFormed(a) && m <= 12
    ensures Size(Guard(Pct(a), m, t)) <= 2 + Size(Guard(Pct(a), m, [RParen] + t))
  {
    hide Captures;
    var u := [RParen] + t;
    if StartsTerm(t) {
      PercentAfter(u, u, m);
      GuardLowered(a, m, [Percent] + u);
    } else {
      PercentAfter(t, u, m);
      GuardSame(a, m, [Percent] + t, [Percent] + u);
    }
  }

  lemma {:induction false} RightBin(op: Tok, l: Tree, r: Tree, m: nat, t: seq<Tok>)
    requires WellFormed(Bin(op, l, r)) && m <= 12 && !Captures(t, m) && InfixBp(op).value.0 >= m
    ensures Size(Guard(Bin(op, l, r), m, t)) <= 2 + Size(Guard(Bin(op, l, r), m, [RParen] + t))
    decreases Bin(op, l, r), 0
  {
    hide Captures, InfixBp, StartsTerm;
    var u, b := [RParen] + t, InfixBp(op).value.1;
    Powers(op);
    NothingAfterParen(t);
    LooserNot(t, m, b);
    RightCost(r, b, t);
    GuardInShape(r, b, t);
    GuardInShape(r, b, u);
    var x, y := Guard(r, b, t), Guard(r, b, u);
    OperatorAfter(op, x, y, b, t, u, m);
    GuardSame(l, m, [op] + Yield(x) + t, [op] + Yield(y) + u);
  }

  /** A tree's own parentheses are the most its surroundings can cost. */
  lemma OwnParens(e: Tree, m: nat, t: seq<Tok>)
    requires WellFormed(e) && m <= 15
    ensures Size(Guard(e, m, t)) <= 2 + Size(Guard(e, 0, [RParen] + t))
  {
    hide Captures, StartsTerm, InfixBp;
    PartsInParens(e, t);
    if Bare(e, m, t) {
      match e
      case Lit(_) =>
      case Paren(a) => InParens(a, t);
      case Prefix(op, a) => RightCost(a, 13, t);
      case Pct(a) =>
        PercentAfter(t, [RParen] + t, m);
        GuardLowered(a, m, [Percent] + t);
        PercentAfter(t, [RParen] + t, 0);
        GuardSame(a, 0, [Percent] + t, [Percent] + ([RParen] + t));
      case Bin(op, l, r) => OwnParensBin(op, l, r, m, t);
    }
  }

  lemma OwnParensBin(op: Tok, l: Tree, r: Tree, m: nat, t: seq<Tok>)
    requires WellFormed(Bin(op, l, r)) && m <= 15 && Bare(Bin(op, l, r), m, t)
    ensures Size(Guard(Bin(op, l, r), m, t)) <= 2 + Size(Guard(Bin(op, l, r), 0, [RParen] + t))
  {
    hide Captures, InfixBp, StartsTerm;
    var u, b := [RParen] + t, InfixBp(op).value.1;
    Powers(op);
    NothingAfterParen(t);
    RightCost(r, b, t);
    GuardInShape(r, b, t);
    GuardInShape(r, b, u);
    var x, y := Guard(r, b, t), Guard(r, b, u);
    OperatorAfter(op, x, y, b, t, u, 0);
    GuardSame(l, 0, [op] + Yield(x) + t, [op] + Yield(y) + u);
    if m <= 12 {
      GuardLowered(l, m, [op] + Yield(x) + t);
    } else {
      TightLeft(l, m, [op] + Yield(x) + t);
    }
  }

  // ---- the print is shortest --------------------------------------------------------------

  lemma {:induction false} ShapeIsLonger(x: Tree, e: Tree, m: nat, t: seq<Tok>)
    requires WellFormed(e) && Extends(x, e) && m <= 15 && Shape(x, m, t)
    ensures Size(Guard(e, m, t)) <= Size(x)
    decreases x
  {
    hide Captures, StartsTerm, InfixBp;
    if x.Paren? && Extends(x.arg, e) {
      ShapeIsLonger(x.arg, e, 0, [RParen] + t);
      OwnParens(e, m, t);
    } else {
      match e
      case Lit(_) =>
      case Paren(a) => ShapeIsLonger(x.arg, a, 0, [RParen] + t);
      case Prefix(op, a) => ShapeIsLonger(x.arg, a, 13, t);
      case Pct(a) => ShapeIsLonger(x.arg, a, m, [Percent] + t);
      case Bin(op, l, r) =>
        var b := InfixBp(op).value.1;
        ShapeIsLonger(x.r, r, b, t);
        GuardInShape(r, b, t);
        OperatorAfter(op, Guard(r, b, t), x.r, b, t, t, m);
        GuardSame(l, m, [op] + Yield(Guard(r, b, t)) + t, [op] + Yield(x.r) + t);
        ShapeIsLonger(x.l, l, m, [op] + Yield(x.r) + t);
    }
  }

  /** Whatever parentheses are added to a tree, if the result reads back, its tokens are at least those of the print. */
  lemma PrintIsShortest(e: Tree, x: Tree)
    requires WellFormed(e) && Extends(x, e) && ParseTree(Yield(x), 0) == Some((x, []))
    ensures |Print(e)| <= |Yield(x)|
  {
    assert Yield(x) + [] == Yield(x);
    ReadsExactly(Yield(x), 0, x, []);
    ShapeIsLonger(x, e, 0, []);
  }

  /** And the print is one of them. */
  lemma {:induction false} GuardExtends(e: Tree, m: nat, t: seq<Tok>)
    requires WellFormed(e)
    ensures Extends(Guard(e, m, t), e)
    decreases e, 1
  {
    hide Captures, StartsTerm, InfixBp, Bare;
    PartsExtend(e, if Bare(e, m, t) then m else 0, if Bare(e, m, t) then t else [RParen] + t);
  }

  lemma {:induction false} PartsExtend(e: Tree, m: nat, t: seq<Tok>)
    requires WellFormed(e)
    ensures Extends(GuardParts(e, m, t), e)
    decreases e, 0
  {
    hide Captures, StartsTerm, Bare;
    match e
    case Lit(_) =>
    case Paren(a) => GuardExtends(a, 0, [RParen] + t);
    case Prefix(op, a) => GuardExtends(a, 13, t);
    case Pct(a) => GuardExtends(a, m, [Percent] + t);
    case Bin(op, l, r) =>
      var right := Guard(r, InfixBp(op).value.1, t);
      GuardExtends(r, InfixBp(op).value.1, t);
      GuardExtends(l, m, [op] + Yield(right) + t);
  }
}
