/** The inline calculator: precedence climbing over a token vector, with a percent flag that travels with operands,
    and the minimal-parenthesis printer it inverts. */
module Calc {
  import opened Bytes

  datatype Tok =
    | Num(v: real) | Plus | Minus | Star | Slash | Percent | Caret
    | Amp | Pipe | Xor | Shl | Shr | Tilde | LParen | RParen

  /** A parsed operand, and whether it was written as a percentage. */
  datatype Value = Value(v: real, percent: bool)

  function Plain(v: real): Value {
    Value(v, false)
  }

  /** The machine's arithmetic: every theorem holds whatever it answers, rounding and failures included. `bits` sees
      only operands that are exact integers. */
  datatype Arith = Arith(
    add: (real, real) -> real, sub: (real, real) -> real, mul: (real, real) -> real, div: (real, real) -> real,
    rem: (real, real) -> real, pow: (real, real) -> real, neg: real -> real, finite: real -> bool,
    bits: (Tok, int, int) -> Option<int>, flip: int -> int)

  const EXACT_INTS := 9007199254740992.0

  /** Bitwise operands must be whole and below 2^53 in magnitude. */
  function ToInt(v: real): (i: Option<int>)
    ensures i.Some? <==> v == v.Floor as real && -EXACT_INTS < v < EXACT_INTS
    ensures i.Some? ==> i.value as real == v
  {
    if v == v.Floor as real && -EXACT_INTS < v < EXACT_INTS then Some(v.Floor) else None
  }

  /** Left and right binding powers of an infix operator. */
  function InfixBp(t: Tok): (bp: Option<(nat, nat)>)
    ensures bp.Some? ==> 1 <= bp.value.0 <= 16 && 2 <= bp.value.1 <= 15
  {
    match t
    case Pipe => Some((1, 2))
    case Xor => Some((3, 4))
    case Amp => Some((5, 6))
    case Shl => Some((7, 8))
    case Shr => Some((7, 8))
    case Plus => Some((9, 10))
    case Minus => Some((9, 10))
    case Star => Some((11, 12))
    case Slash => Some((11, 12))
    case Percent => Some((11, 12))
    case Caret => Some((16, 15))
    case _ => None
  }

  /** A percentage on the right of `+` or `-` is a percentage of the left operand. */
  function Apply(ar: Arith, op: Tok, lhs: real, rhs: real, rhsIsPercent: bool): Option<real> {
    match op
    case Plus => Some(ar.add(lhs, if rhsIsPercent then ar.mul(lhs, rhs) else rhs))
    case Minus => Some(ar.sub(lhs, if rhsIsPercent then ar.mul(lhs, rhs) else rhs))
    case Star => Some(ar.mul(lhs, rhs))
    case Slash => Some(ar.div(lhs, rhs))
    case Percent => Some(ar.rem(lhs, rhs))
    case Caret => Some(ar.pow(lhs, rhs))
    case Amp | Pipe | Xor | Shl | Shr => Bitwise(ar, op, lhs, rhs)
    case _ => None
  }

  function Bitwise(ar: Arith, op: Tok, lhs: real, rhs: real): Option<real> {
    if ToInt(lhs).None? || ToInt(rhs).None? then None
    else
      match ar.bits(op, ToInt(lhs).value, ToInt(rhs).value)
      case None => None
      case Some(i) => Some(i as real)
  }

  predicate StartsTerm(t: seq<Tok>) {
    t != [] && (t[0].Num? || t[0].LParen? || IsPrefix(t[0]))
  }

  predicate IsPrefix(t: Tok) {
    t.Minus? || t.Plus? || t.Tilde?
  }

  /** A prefix operator's value. */
  function Prefixed(ar: Arith, op: Tok, v: real): Option<real> {
    match op
    case Minus => Some(ar.neg(v))
    case Plus => Some(v)
    case _ => if ToInt(v).None? then None else Some(ar.flip(ToInt(v).value) as real)
  }

  // ---- expression trees ----------------------------------------------------------------------

  datatype Tree = Lit(v: real) | Prefix(op: Tok, arg: Tree) | Pct(arg: Tree) | Bin(op: Tok, l: Tree, r: Tree)
    | Paren(arg: Tree)

  /** The tokens of a tree, with the parentheses it carries and no others. */
  function Yield(e: Tree): (t: seq<Tok>)
    ensures |t| > 0
  {
    match e
    case Lit(v) => [Num(v)]
    case Prefix(op, a) => [op] + Yield(a)
    case Pct(a) => Yield(a) + [Percent]
    case Bin(op, l, r) => Yield(l) + ([op] + Yield(r))
    case Paren(a) => [LParen] + (Yield(a) + [RParen])
  }

  /** What a tree means. Parentheses keep the percent flag; every operator but `%` clears it. */
  function Eval(ar: Arith, e: Tree): Option<Value> {
    match e
    case Lit(v) => Some(Plain(v))
    case Paren(a) => Eval(ar, a)
    case Prefix(op, a) =>
      (match Eval(ar, a)
       case None => None
       case Some(x) => if Prefixed(ar, op, x.v).None? then None else Some(Plain(Prefixed(ar, op, x.v).value)))
    case Pct(a) =>
      (match Eval(ar, a)
       case None => None
       case Some(x) => Some(Value(ar.div(x.v, 100.0), true)))
    case Bin(op, l, r) =>
      (match (Eval(ar, l), Eval(ar, r))
       case (Some(x), Some(y)) =>
         if Apply(ar, op, x.v, y.v, y.percent).None? then None
         else Some(Plain(Apply(ar, op, x.v, y.v, y.percent).value))
       case _ => None)
  }

  // ---- the grammar the parser climbs -----------------------------------------------------

  /** An expression at the front of `t`, binding at least as tightly as `m`, and what is left after it. */
  function ParseTree(t: seq<Tok>, m: nat): (r: Option<(Tree, seq<Tok>)>)
    ensures r.Some? ==> |r.value.1| < |t|
    decreases |t|, 2
  {
    match Primary(t)
    case None => None
    case Some(x) => Loop(x.0, x.1, m)
  }

  /** A number, a prefixed operand or a parenthesised expression. */
  function Primary(t: seq<Tok>): (r: Option<(Tree, seq<Tok>)>)
    ensures r.Some? ==> |r.value.1| < |t|
    decreases |t|, 1
  {
    if t == [] then None
    else if t[0].Num? then Some((Lit(t[0].v), t[1..]))
    else if IsPrefix(t[0]) then
      (match ParseTree(t[1..], 13)
       case None => None
       case Some(x) => Some((Prefix(t[0], x.0), x.1)))
    else if t[0].LParen? then
      (match ParseTree(t[1..], 0)
       case None => None
       case Some(x) => if x.1 != [] && x.1[0].RParen? then Some((Paren(x.0), x.1[1..])) else None)
    else None
  }

  /** Postfix percentages and infix operators after `lhs`, as long as they bind at least as tightly as `m`. */
  function Loop(lhs: Tree, t: seq<Tok>, m: nat): (r: Option<(Tree, seq<Tok>)>)
    ensures r.Some? ==> |r.value.1| <= |t|
    decreases |t|, 0
  {
    if !Captures(t, m) then Some((lhs, t))
    else if PostfixPercent(t) then Loop(Pct(lhs), t[1..], m)
    else
      match ParseTree(t[1..], InfixBp(t[0]).value.1)
      case None => None
      case Some(x) => Loop(Bin(t[0], lhs, x.0), x.1, m)
  }

  /** A `%` that no term follows is a percentage; any other is modulo. */
  predicate PostfixPercent(t: seq<Tok>) {
    t != [] && t[0].Percent? && !StartsTerm(t[1..])
  }

  /** The tokens `t` go on with an operator that binds at least as tightly as `m`. */
  predicate Captures(t: seq<Tok>, m: nat) {
    if PostfixPercent(t) then m <= 12
    else t != [] && InfixBp(t[0]).Some? && InfixBp(t[0]).value.0 >= m
  }

  // ---- the parser ----------------------------------------------------------------------------

  /** A parser's answer and resting place, against the tree the grammar gives. */
  ghost predicate Agrees(ar: Arith, r: Option<Value>, x: Option<(Tree, seq<Tok>)>, toks: seq<Tok>, pos: nat) {
    match x
    case None => r.None?
    case Some(p) => r == Eval(ar, p.0) && (r.Some? ==> pos <= |toks| && toks[pos..] == p.1)
  }

  class Parser {
    const toks: seq<Tok>
    var pos: nat

    constructor (toks: seq<Tok>)
      ensures this.toks == toks && pos == 0
    {
      this.toks, pos := toks, 0;
    }

    method Next() returns (t: Option<Tok>)
      modifies this
      ensures pos == old(pos) + 1
      ensures t == if old(pos) < |toks| then Some(toks[old(pos)]) else None
      ensures t.Some? ==> toks[old(pos)..][0] == t.value && toks[old(pos)..][1..] == toks[pos..]
    {
      t := if pos < |toks| then Some(toks[pos]) else None;
      pos := pos + 1;
    }

    method Expr(ar: Arith, minBp: nat) returns (r: Option<Value>)
      requires pos <= |toks|
      modifies this
      ensures Agrees(ar, r, ParseTree(toks[old(pos)..], minBp), toks, pos)
      ensures r.Some? ==> old(pos) < pos
      decreases |toks| - pos, 2
    {
      hide Primary, Loop, Eval;
      ghost var x := Primary(toks[pos..]);
      var lhs := Term(ar);
      if lhs.None? {
        if x.Some? {
          FailureStays(ar, x.value.0, x.value.1, minBp);
        }
        return None;
      }
      r := Climb(ar, lhs.value, x.value.0, minBp);
    }

    /** What stands before the loop. */
    method Term(ar: Arith) returns (r: Option<Value>)
      requires pos <= |toks|
      modifies this
      ensures Agrees(ar, r, Primary(toks[old(pos)..]), toks, pos)
      ensures r.Some? ==> old(pos) < pos
      decreases |toks| - pos, 1
    {
      hide ParseTree, Loop;
      var first := Next();
      if first.None? {
        return None;
      }
      match first.value {
        case Num(v) =>
          r := Some(Plain(v));
        case Minus =>
          var x := Expr(ar, 13);
          r := if x.None? then None else Some(Plain(ar.neg(x.value.v)));
        case Plus =>
          var x := Expr(ar, 13);
          r := if x.None? then None else Some(Plain(x.value.v));
        case Tilde =>
          var x := Expr(ar, 13);
          if x.None? || ToInt(x.value.v).None? {
            return None;
          }
          r := Some(Plain(ar.flip(ToInt(x.value.v).value) as real));
        case LParen =>
          var x := Expr(ar, 0);
          if x.None? {
            return None;
          }
          var close := Next();
          r := if close == Some(RParen) then x else None;
        case _ =>
          r := None;
      }
    }

    /** The loop that takes operators as long as they bind tightly enough. */
    method Climb(ar: Arith, lhs0: Value, ghost tree0: Tree, minBp: nat) returns (r: Option<Value>)
      requires pos <= |toks| && Eval(ar, tree0) == Some(lhs0)
      modifies this
      ensures Agrees(ar, r, Loop(tree0, toks[old(pos)..], minBp), toks, pos)
      ensures r.Some? ==> old(pos) <= pos
      decreases |toks| - pos, 0
    {
      hide ParseTree, Primary, InfixBp, Apply, StartsTerm;
      var lhs := lhs0;
      ghost var tree := tree0;
      while pos < |toks|
        invariant old(pos) <= pos <= |toks|
        invariant Eval(ar, tree) == Some(lhs)
        invariant Loop(tree0, toks[old(pos)..], minBp) == Loop(tree, toks[pos..], minBp)
        decreases |toks| - pos
      {
        var op := toks[pos];
        assert toks[pos..][0] == op && toks[pos..][1..] == toks[pos + 1..];
        if op.Percent? && !StartsTerm(toks[pos + 1..]) {
          if minBp > 12 {
            break;
          }
          pos := pos + 1;
          lhs, tree := Value(ar.div(lhs.v, 100.0), true), Pct(tree);
          continue;
        }
        var bp := InfixBp(op);
        if bp.None? || bp.value.0 < minBp {
          break;
        }
        pos := pos + 1;
        ghost var x := ParseTree(toks[pos..], bp.value.1);
        var rhs := Expr(ar, bp.value.1);
        var v := if rhs.None? then None else Apply(ar, op, lhs.v, rhs.value.v, rhs.value.percent);
        if v.None? {
          if x.Some? {
            FailureStays(ar, Bin(op, tree, x.value.0), x.value.1, minBp);
          }
          return None;
        }
        lhs, tree := Plain(v.value), Bin(op, tree, x.value.0);
      }
      r := Some(lhs);
    }
  }

  /** A left operand without a value leaves the whole expression without one. */
  lemma {:induction false} FailureStays(ar: Arith, lhs: Tree, t: seq<Tok>, m: nat)
    requires Eval(ar, lhs).None?
    ensures Loop(lhs, t, m).Some? ==> Eval(ar, Loop(lhs, t, m).value.0).None?
    decreases |t|
  {
    if Captures(t, m) {
      if PostfixPercent(t) {
        FailureStays(ar, Pct(lhs), t[1..], m);
      } else {
        var x := ParseTree(t[1..], InfixBp(t[0]).value.1);
        if x.Some? {
          FailureStays(ar, Bin(t[0], lhs, x.value.0), x.value.1, m);
        }
      }
    }
  }

  /** The value of a whole token vector: every token consumed, and the result finite. */
  method Evaluate(ar: Arith, toks: seq<Tok>) returns (r: Option<real>)
    ensures r == Answer(ar, toks)
  {
    hide ParseTree;
    var p := new Parser(toks);
    assert toks[0..] == toks;
    var x := p.Expr(ar, 0);
    if x.None? || p.pos != |toks| || !ar.finite(x.value.v) {
      return None;
    }
    r := Some(x.value.v);
  }

  /** The finite value of the one tree that reads all of `toks`. */
  function Answer(ar: Arith, toks: seq<Tok>): Option<real> {
    match ParseTree(toks, 0)
    case None => None
    case Some(x) =>
      if x.1 != [] || Eval(ar, x.0).None? || !ar.finite(Eval(ar, x.0).value.v) then None
      else Some(Eval(ar, x.0).value.v)
  }

  // ---- which trees the parser reads -----------------------------------------------------

  /** The tree needs no further parentheses when read with minimum binding power `m` and `rest` after it. */
  ghost predicate Shape(e: Tree, m: nat, rest: seq<Tok>) {
    match e
    case Lit(_) => true
    case Paren(a) => Shape(a, 0, [RParen] + rest)
    case Prefix(op, a) => IsPrefix(op) && !Captures(rest, 13) && Shape(a, 13, rest)
    case Pct(a) => m <= 12 && !StartsTerm(rest) && Shape(a, m, [Percent] + rest)
    case Bin(op, l, r) =>
      && InfixBp(op).Some? && InfixBp(op).value.0 >= m && !Captures(rest, InfixBp(op).value.1)
      && Shape(l, m, [op] + Yield(r) + rest) && Shape(r, InfixBp(op).value.1, rest)
  }

  lemma {:induction false} ShapeStartsTerm(e: Tree, m: nat, rest: seq<Tok>)
    requires Shape(e, m, rest)
    ensures StartsTerm(Yield(e) + rest)
  {
    match e
    case Lit(v) =>
    case Paren(a) =>
    case Prefix(op, a) =>
    case Pct(a) => ShapeStartsTerm(a, m, [Percent] + rest);
    case Bin(op, l, r) => ShapeStartsTerm(l, m, [op] + Yield(r) + rest);
  }

  /** A tree in shape is read whole, and the loop goes on from it. */
  lemma {:induction false} ReadsTree(e: Tree, m: nat, m0: nat, rest: seq<Tok>)
    requires Shape(e, m, rest) && m0 <= m
    ensures ParseTree(Yield(e) + rest, m0) == Loop(e, rest, m0)
  {
    hide ParseTree, Primary, Loop, Captures, StartsTerm, Yield;
    match e
    case Lit(v) => ReadsLit(v, m0, rest);
    case Paren(a) =>
      ReadsTree(a, 0, 0, [RParen] + rest);
      ReadsParen(a, m0, rest);
    case Prefix(op, a) =>
      ReadsTree(a, 13, 13, rest);
      ReadsPrefix(op, a, m0, rest);
    case Pct(a) =>
      ReadsTree(a, m, m0, [Percent] + rest);
      ReadsPct(a, m0, rest);
    case Bin(op, l, r) =>
      ReadsTree(l, m, m0, [op] + Yield(r) + rest);
      ReadsTree(r, InfixBp(op).value.1, InfixBp(op).value.1, rest);
      ShapeStartsTerm(r, InfixBp(op).value.1, rest);
      ReadsBin(op, l, r, m0, rest);
  }

  lemma ReadsLit(v: real, m: nat, rest: seq<Tok>)
    ensures ParseTree(Yield(Lit(v)) + rest, m) == Loop(Lit(v), rest, m)
  {
    hide Loop;
    assert (Yield(Lit(v)) + rest)[1..] == rest;
  }

  lemma ReadsParen(a: Tree, m: nat, rest: seq<Tok>)
    requires ParseTree(Yield(a) + ([RParen] + rest), 0) == Loop(a, [RParen] + rest, 0)
    ensures ParseTree(Yield(Paren(a)) + rest, m) == Loop(Paren(a), rest, m)
  {
    hide Captures;
    var t := Yield(Paren(a)) + rest;
    assert t[1..] == Yield(a) + ([RParen] + rest);
    NothingAfterParen(rest);
    assert ([RParen] + rest)[1..] == rest;
    assert Primary(t) == Some((Paren(a), rest));
  }

  lemma ReadsPrefix(op: Tok, a: Tree, m: nat, rest: seq<Tok>)
    requires IsPrefix(op) && !Captures(rest, 13) && ParseTree(Yield(a) + rest, 13) == Loop(a, rest, 13)
    ensures ParseTree(Yield(Prefix(op, a)) + rest, m) == Loop(Prefix(op, a), rest, m)
  {
    hide Captures;
    var t := Yield(Prefix(op, a)) + rest;
    assert t[1..] == Yield(a) + rest;
    assert Primary(t) == Some((Prefix(op, a), rest));
  }

  lemma ReadsPct(a: Tree, m: nat, rest: seq<Tok>)
    requires m <= 12 && !StartsTerm(rest) && ParseTree(Yield(a) + ([Percent] + rest), m) == Loop(a, [Percent] + rest, m)
    ensures ParseTree(Yield(Pct(a)) + rest, m) == Loop(Pct(a), rest, m)
  {
    hide ParseTree, Captures, PostfixPercent;
    assert Yield(Pct(a)) + rest == Yield(a) + ([Percent] + rest);
    PercentGoesOn(rest, m);
    assert ([Percent] + rest)[1..] == rest;
  }

  lemma ReadsBin(op: Tok, l: Tree, r: Tree, m: nat, rest: seq<Tok>)
    requires InfixBp(op).Some? && InfixBp(op).value.0 >= m && !Captures(rest, InfixBp(op).value.1)
    requires StartsTerm(Yield(r) + rest)
    requires ParseTree(Yield(l) + ([op] + Yield(r) + rest), m) == Loop(l, [op] + Yield(r) + rest, m)
    requires ParseTree(Yield(r) + rest, InfixBp(op).value.1) == Loop(r, rest, InfixBp(op).value.1)
    ensures ParseTree(Yield(Bin(op, l, r)) + rest, m) == Loop(Bin(op, l, r), rest, m)
  {
    hide ParseTree, Captures, PostfixPercent, StartsTerm, InfixBp;
    var after := [op] + Yield(r) + rest;
    assert Yield(Bin(op, l, r)) + rest == Yield(l) + after;
    assert after == [op] + (Yield(r) + rest) && after[1..] == Yield(r) + rest;
    InfixGoesOn(op, Yield(r) + rest, m);
  }

  lemma NothingFollows()
    ensures forall m: nat :: !Captures([], m)
  {
    assert !PostfixPercent([]);
  }

  lemma NothingAfterParen(rest: seq<Tok>)
    ensures forall m: nat :: !Captures([RParen] + rest, m)
  {
  }

  lemma PercentGoesOn(rest: seq<Tok>, m: nat)
    requires m <= 12 && !StartsTerm(rest)
    ensures PostfixPercent([Percent] + rest) && Captures([Percent] + rest, m)
  {
    assert ([Percent] + rest)[1..] == rest;
  }

  lemma InfixGoesOn(op: Tok, rest: seq<Tok>, m: nat)
    requires InfixBp(op).Some? && InfixBp(op).value.0 >= m && StartsTerm(rest)
    ensures !PostfixPercent([op] + rest) && Captures([op] + rest, m)
  {
    assert ([op] + rest)[1..] == rest;
  }

  /** Whatever is read is a tree in shape whose tokens stand in front of what is left. */
  lemma {:induction false} TreeInShape(t: seq<Tok>, m: nat)
    requires ParseTree(t, m).Some?
    ensures InShape(ParseTree(t, m).value.0, t, ParseTree(t, m).value.1, m)
    decreases |t|, 2
  {
    PrimaryInShape(t, m);
    var x := Primary(t).value;
    LoopInShape(x.0, x.1, m, t);
  }

  ghost predicate InShape(e: Tree, t: seq<Tok>, rest: seq<Tok>, m: nat) {
    Yield(e) + rest == t && Shape(e, m, rest) && !Captures(rest, m)
  }

  lemma {:induction false} PrimaryInShape(t: seq<Tok>, m: nat)
    requires Primary(t).Some?
    ensures Yield(Primary(t).value.0) + Primary(t).value.1 == t
    ensures Shape(Primary(t).value.0, m, Primary(t).value.1)
    decreases |t|, 1
  {
    if IsPrefix(t[0]) {
      TreeInShape(t[1..], 13);
    } else if t[0].LParen? {
      TreeInShape(t[1..], 0);
      var x := ParseTree(t[1..], 0).value;
      assert x.1 == [RParen] + x.1[1..];
    }
  }

  lemma {:induction false} LoopInShape(lhs: Tree, t: seq<Tok>, m: nat, whole: seq<Tok>)
    requires Loop(lhs, t, m).Some? && Yield(lhs) + t == whole && Shape(lhs, m, t)
    ensures InShape(Loop(lhs, t, m).value.0, whole, Loop(lhs, t, m).value.1, m)
    decreases |t|, 0
  {
    hide Shape, Yield, StartsTerm, PostfixPercent;
    if Captures(t, m) {
      if PostfixPercent(t) {
        PctInShape(lhs, t, m);
        LoopInShape(Pct(lhs), t[1..], m, whole);
      } else {
        var x := ParseTree(t[1..], InfixBp(t[0]).value.1).value;
        TreeInShape(t[1..], InfixBp(t[0]).value.1);
        BinInShape(lhs, t, m, x.0, x.1);
        LoopInShape(Bin(t[0], lhs, x.0), x.1, m, whole);
      }
    }
  }

  lemma PctInShape(lhs: Tree, t: seq<Tok>, m: nat)
    requires Shape(lhs, m, t) && PostfixPercent(t) && Captures(t, m)
    ensures t != [] && Shape(Pct(lhs), m, t[1..]) && Yield(Pct(lhs)) + t[1..] == Yield(lhs) + t
  {
    assert t == [Percent] + t[1..];
  }

  lemma BinInShape(lhs: Tree, t: seq<Tok>, m: nat, r: Tree, rest: seq<Tok>)
    requires Shape(lhs, m, t) && !PostfixPercent(t) && Captures(t, m)
    requires InShape(r, t[1..], rest, InfixBp(t[0]).value.1)
    ensures Shape(Bin(t[0], lhs, r), m, rest) && Yield(Bin(t[0], lhs, r)) + rest == Yield(lhs) + t
  {
    assert t == [t[0]] + t[1..];
    assert [t[0]] + Yield(r) + rest == t;
  }

  /** The parser inverts the yield exactly on the trees in shape: it reads `e` off `t` and leaves `rest` precisely
      when `t` is the tokens of `e` before `rest`, `e` needs no further parentheses there, and no operator of `rest`
      would go on. In particular no token vector has two readings. */
  lemma ReadsExactly(t: seq<Tok>, m: nat, e: Tree, rest: seq<Tok>)
    ensures ParseTree(t, m) == Some((e, rest)) <==> Yield(e) + rest == t && Shape(e, m, rest) && !Captures(rest, m)
  {
    if ParseTree(t, m) == Some((e, rest)) {
      TreeInShape(t, m);
    }
    if InShape(e, t, rest, m) {
      ReadsTree(e, m, m, rest);
    }
  }

  // ---- the printer -----------------------------------------------------------------------------

  /** Every operator stands where the grammar has it. */
  predicate WellFormed(e: Tree) {
    match e
    case Lit(_) => true
    case Paren(a) => WellFormed(a)
    case Prefix(op, a) => IsPrefix(op) && WellFormed(a)
    case Pct(a) => WellFormed(a)
    case Bin(op, l, r) => InfixBp(op).Some? && WellFormed(l) && WellFormed(r)
  }

  /** The root can stand bare before `rest` under minimum power `m`. A percentage cannot before a token that would
      make its `%` a modulo. */
  predicate Bare(e: Tree, m: nat, rest: seq<Tok>)
    requires WellFormed(e)
  {
    match e
    case Lit(_) => true
    case Paren(_) => true
    case Prefix(_, _) => !Captures(rest, 13)
    case Pct(_) => m <= 12 && !StartsTerm(rest)
    case Bin(op, _, _) => InfixBp(op).value.0 >= m && !Captures(rest, InfixBp(op).value.1)
  }

  /** `e` with parentheses added only around what cannot stand bare. */
  function Guard(e: Tree, m: nat, rest: seq<Tok>): Tree
    requires WellFormed(e)
    decreases e, 1
  {
    if Bare(e, m, rest) then GuardParts(e, m, rest) else Paren(GuardParts(e, 0, [RParen] + rest))
  }

  function GuardParts(e: Tree, m: nat, rest: seq<Tok>): Tree
    requires WellFormed(e)
    decreases e, 0
  {
    match e
    case Lit(_) => e
    case Paren(a) => Paren(Guard(a, 0, [RParen] + rest))
    case Prefix(op, a) => Prefix(op, Guard(a, 13, rest))
    case Pct(a) => Pct(Guard(a, m, [Percent] + rest))
    case Bin(op, l, r) =>
      var right := Guard(r, InfixBp(op).value.1, rest);
      Bin(op, Guard(l, m, [op] + Yield(right) + rest), right)
  }

  function Print(e: Tree): seq<Tok>
    requires WellFormed(e)
  {
    Yield(Guard(e, 0, []))
  }

  /** The parenthesised tree is in shape. */
  lemma {:induction false} GuardInShape(e: Tree, m: nat, rest: seq<Tok>)
    requires WellFormed(e)
    ensures Shape(Guard(e, m, rest), m, rest)
    decreases e, 1
  {
    if Bare(e, m, rest) {
      PartsInShape(e, m, rest);
    } else {
      BareInParens(e, rest);
      PartsInShape(e, 0, [RParen] + rest);
    }
  }

  lemma BareInParens(e: Tree, rest: seq<Tok>)
    requires WellFormed(e)
    ensures Bare(e, 0, [RParen] + rest)
  {
    NothingAfterParen(rest);
  }

  lemma {:induction false} PartsInShape(e: Tree, m: nat, rest: seq<Tok>)
    requires WellFormed(e) && Bare(e, m, rest)
    ensures Shape(GuardParts(e, m, rest), m, rest)
    decreases e, 0
  {
    match e
    case Lit(_) =>
    case Paren(a) => GuardInShape(a, 0, [RParen] + rest);
    case Prefix(op, a) => GuardInShape(a, 13, rest);
    case Pct(a) => GuardInShape(a, m, [Percent] + rest);
    case Bin(op, l, r) =>
      var right := Guard(r, InfixBp(op).value.1, rest);
      GuardInShape(r, InfixBp(op).value.1, rest);
      GuardInShape(l, m, [op] + Yield(right) + rest);
  }

  /** Added parentheses never change a value. */
  lemma {:induction false} GuardKeepsValue(ar: Arith, e: Tree, m: nat, rest: seq<Tok>)
    requires WellFormed(e)
    ensures Eval(ar, Guard(e, m, rest)) == Eval(ar, e)
    decreases e, 1
  {
    PartsKeepValue(ar, e, if Bare(e, m, rest) then m else 0, if Bare(e, m, rest) then rest else [RParen] + rest);
  }

  lemma {:induction false} PartsKeepValue(ar: Arith, e: Tree, m: nat, rest: seq<Tok>)
    requires WellFormed(e)
    ensures Eval(ar, GuardParts(e, m, rest)) == Eval(ar, e)
    decreases e, 0
  {
    match e
    case Lit(_) =>
    case Paren(a) => GuardKeepsValue(ar, a, 0, [RParen] + rest);
    case Prefix(op, a) => GuardKeepsValue(ar, a, 13, rest);
    case Pct(a) => GuardKeepsValue(ar, a, m, [Percent] + rest);
    case Bin(op, l, r) =>
      var right := Guard(r, InfixBp(op).value.1, rest);
      GuardKeepsValue(ar, r, InfixBp(op).value.1, rest);
      GuardKeepsValue(ar, l, m, [op] + Yield(right) + rest);
  }

  /** No parentheses are added exactly when the tree reads back without them. */
  lemma {:induction false} GuardAddsNone(e: Tree, m: nat, rest: seq<Tok>)
    requires WellFormed(e)
    ensures Guard(e, m, rest) == e <==> Shape(e, m, rest)
  {
    if Guard(e, m, rest) == e {
      GuardInShape(e, m, rest);
    }
    if Shape(e, m, rest) {
      match e
      case Lit(_) =>
      case Paren(a) => GuardAddsNone(a, 0, [RParen] + rest);
      case Prefix(op, a) => GuardAddsNone(a, 13, rest);
      case Pct(a) => GuardAddsNone(a, m, [Percent] + rest);
      case Bin(op, l, r) =>
        GuardAddsNone(r, InfixBp(op).value.1, rest);
        GuardAddsNone(l, m, [op] + Yield(r) + rest);
    }
  }

  /** Printing and parsing consumes every token and yields the tree's value. */
  lemma PrintParses(ar: Arith, e: Tree)
    requires WellFormed(e)
    ensures ParseTree(Print(e), 0) == Some((Guard(e, 0, []), []))
    ensures Eval(ar, Guard(e, 0, [])) == Eval(ar, e)
    ensures Answer(ar, Print(e)) ==
            if Eval(ar, e).Some? && ar.finite(Eval(ar, e).value.v) then Some(Eval(ar, e).value.v) else None
  {
    GuardInShape(e, 0, []);
    GuardKeepsValue(ar, e, 0, []);
    assert Print(e) + [] == Print(e);
    ReadsExactly(Print(e), 0, Guard(e, 0, []), []);
  }

  /** Parentheses are never taken away, and a print of the same length adds none. */
  lemma {:induction false} GuardGrows(e: Tree, m: nat, rest: seq<Tok>)
    requires WellFormed(e)
    ensures |Yield(Guard(e, m, rest))| >= |Yield(e)|
    ensures |Yield(Guard(e, m, rest))| == |Yield(e)| ==> Guard(e, m, rest) == e
    decreases e, 1
  {
    PartsGrow(e, if Bare(e, m, rest) then m else 0, if Bare(e, m, rest) then rest else [RParen] + rest);
  }

  lemma {:induction false} PartsGrow(e: Tree, m: nat, rest: seq<Tok>)
    requires WellFormed(e)
    ensures |Yield(GuardParts(e, m, rest))| >= |Yield(e)|
    ensures |Yield(GuardParts(e, m, rest))| == |Yield(e)| ==> GuardParts(e, m, rest) == e
    decreases e, 0
  {
    match e
    case Lit(_) =>
    case Paren(a) => GuardGrows(a, 0, [RParen] + rest);
    case Prefix(op, a) => GuardGrows(a, 13, rest);
    case Pct(a) => GuardGrows(a, m, [Percent] + rest);
    case Bin(op, l, r) =>
      var right := Guard(r, InfixBp(op).value.1, rest);
      GuardGrows(r, InfixBp(op).value.1, rest);
      GuardGrows(l, m, [op] + Yield(right) + rest);
  }

  /** A tree prints without any parentheses of the printer's own exactly when its bare tokens already read as it. */
  lemma BarePrint(e: Tree)
    requires WellFormed(e)
    ensures Print(e) == Yield(e) <==> ParseTree(Yield(e), 0) == Some((e, []))
  {
    assert Yield(e) + [] == Yield(e);
    ReadsExactly(Yield(e), 0, e, []);
    GuardAddsNone(e, 0, []);
    if Print(e) == Yield(e) {
      GuardGrows(e, 0, []);
    }
  }

  /** How tightly the operators bind, loosest first. */
  function Tightness(t: Tok): nat {
    match t
    case Pipe => 1
    case Xor => 2
    case Amp => 3
    case Shl | Shr => 4
    case Plus | Minus => 5
    case Star | Slash | Percent => 6
    case Caret => 7
    case _ => 0
  }

  /** Two infix operators group by tightness, and to the left when equally tight; only `^` then groups to the right. */
  lemma Grouping(p: Tok, q: Tok, x: real, y: real, z: real)
    requires InfixBp(p).Some? && InfixBp(q).Some?
    ensures ParseTree([Num(x), p, Num(y), q, Num(z)], 0) == Some((
              if Tightness(q) > Tightness(p) || (p.Caret? && q.Caret?) then Bin(p, Lit(x), Bin(q, Lit(y), Lit(z)))
              else Bin(q, Bin(p, Lit(x), Lit(y)), Lit(z)), []))
  {
    PowersAreTightness(p, q);
    if InfixBp(q).value.0 >= InfixBp(p).value.1 {
      GroupsRight(p, q, x, y, z);
    } else {
      GroupsLeft(p, q, x, y, z);
    }
  }

  lemma PowersAreTightness(p: Tok, q: Tok)
    requires InfixBp(p).Some? && InfixBp(q).Some?
    ensures InfixBp(q).value.0 >= InfixBp(p).value.1 <==> Tightness(q) > Tightness(p) || (p.Caret? && q.Caret?)
    ensures InfixBp(p).value.0 >= 13 <==> p.Caret?
    ensures InfixBp(p).value.1 <= 12 <==> !p.Caret?
  {
  }

  /** A prefix operator takes a whole power and nothing looser. */
  lemma PrefixGrouping(op: Tok, q: Tok, x: real, y: real)
    requires IsPrefix(op) && InfixBp(q).Some?
    ensures ParseTree([op, Num(x), q, Num(y)], 0) == Some((
              if q.Caret? then Prefix(op, Bin(q, Lit(x), Lit(y))) else Bin(q, Prefix(op, Lit(x)), Lit(y)), []))
  {
    hide InfixBp, ParseTree;
    PowersAreTightness(q, q);
    var t := if q.Caret? then Prefix(op, Bin(q, Lit(x), Lit(y))) else Bin(q, Prefix(op, Lit(x)), Lit(y));
    YieldPair(q, x, y);
    assert Yield(Prefix(op, Lit(x))) == [op, Num(x)];
    assert Yield(t) + [] == [op, Num(x), q, Num(y)];
    ReadsExactly(Yield(t) + [], 0, t, []);
    OperatorFollows(q, [Num(y)]);
    assert [q] + Yield(Lit(y)) + [] == [q] + [Num(y)];
    assert if q.Caret? then Shape(Bin(q, Lit(x), Lit(y)), 13, []) else Shape(Prefix(op, Lit(x)), 0, [q] + [Num(y)]);
    NothingFollows();
    assert Shape(t, 0, []);
  }

  /** A percent sign takes a whole power, and otherwise only the operand before it. */
  lemma PercentGrouping(p: Tok, x: real, y: real)
    requires InfixBp(p).Some?
    ensures ParseTree([Num(x), p, Num(y), Percent], 0) == Some((
              if p.Caret? then Pct(Bin(p, Lit(x), Lit(y))) else Bin(p, Lit(x), Pct(Lit(y))), []))
  {
    hide InfixBp, ParseTree;
    PowersAreTightness(p, p);
    var t := if p.Caret? then Pct(Bin(p, Lit(x), Lit(y))) else Bin(p, Lit(x), Pct(Lit(y)));
    YieldPair(p, x, y);
    assert Yield(Pct(Lit(y))) == [Num(y), Percent];
    assert Yield(t) + [] == [Num(x), p, Num(y), Percent];
    ReadsExactly(Yield(t) + [], 0, t, []);
    assert [Percent] + [] == [Percent] && PostfixPercent([Percent]);
    assert if p.Caret? then Shape(Bin(p, Lit(x), Lit(y)), 0, [Percent]) else Shape(Pct(Lit(y)), InfixBp(p).value.1, []);
    NothingFollows();
    assert Shape(t, 0, []);
  }

  lemma GroupsRight(p: Tok, q: Tok, x: real, y: real, z: real)
    requires InfixBp(p).Some? && InfixBp(q).Some? && InfixBp(q).value.0 >= InfixBp(p).value.1
    ensures ParseTree([Num(x), p, Num(y), q, Num(z)], 0) == Some((Bin(p, Lit(x), Bin(q, Lit(y), Lit(z))), []))
  {
    hide InfixBp, ParseTree;
    var right := Bin(p, Lit(x), Bin(q, Lit(y), Lit(z)));
    YieldPair(q, y, z);
    assert Yield(right) + [] == [Num(x), p, Num(y), q, Num(z)];
    ReadsExactly(Yield(right) + [], 0, right, []);
    assert Shape(Bin(q, Lit(y), Lit(z)), InfixBp(p).value.1, []);
    NothingFollows();
    assert Shape(right, 0, []);
  }

  lemma GroupsLeft(p: Tok, q: Tok, x: real, y: real, z: real)
    requires InfixBp(p).Some? && InfixBp(q).Some? && InfixBp(q).value.0 < InfixBp(p).value.1
    ensures ParseTree([Num(x), p, Num(y), q, Num(z)], 0) == Some((Bin(q, Bin(p, Lit(x), Lit(y)), Lit(z)), []))
  {
    hide InfixBp, ParseTree;
    var left := Bin(q, Bin(p, Lit(x), Lit(y)), Lit(z));
    YieldPair(p, x, y);
    assert Yield(left) + [] == [Num(x), p, Num(y), q, Num(z)];
    ReadsExactly(Yield(left) + [], 0, left, []);
    OperatorFollows(q, [Num(z)]);
    assert [q] + Yield(Lit(z)) + [] == [q] + [Num(z)];
    assert Shape(Bin(p, Lit(x), Lit(y)), 0, [q] + [Num(z)]);
    NothingFollows();
    assert Shape(left, 0, []);
  }

  lemma YieldPair(p: Tok, x: real, y: real)
    ensures Yield(Bin(p, Lit(x), Lit(y))) == [Num(x), p, Num(y)]
  {
  }

  lemma OperatorFollows(p: Tok, rest: seq<Tok>)
    requires StartsTerm(rest) && InfixBp(p).Some?
    ensures forall m: nat :: Captures([p] + rest, m) <==> InfixBp(p).value.0 >= m
  {
    assert ([p] + rest)[1..] == rest;
  }

  /** Arithmetic without rounding or failures in the four everyday operations and the two prefix ones; flipping every
      bit of a two's complement integer takes it from -1. */
  ghost predicate Exact(ar: Arith) {
    && (forall x, y :: ar.add(x, y) == x + y && ar.sub(x, y) == x - y && ar.mul(x, y) == x * y)
    && (forall x, y :: y != 0.0 ==> ar.div(x, y) == x / y)
    && (forall x :: ar.neg(x) == -x) && (forall i :: ar.flip(i) == -1 - i)
    && (forall x :: ar.finite(x))
  }

  /** `x + p%` and `x - p%` take the percentage of the left operand; `x * p%` multiplies by the fraction `q`. */
  lemma PercentOfLeft(ar: Arith, l: Tree, a: Tree, q: real)
    requires Exact(ar) && WellFormed(l) && WellFormed(a) && Eval(ar, l).Some? && Eval(ar, a).Some?
    requires q == Eval(ar, a).value.v / 100.0
    ensures var sum := Answer(ar, Print(Bin(Plus, l, Pct(a)))); sum.Some? && sum.value == Eval(ar, l).value.v * (1.0 + q)
    ensures var less := Answer(ar, Print(Bin(Minus, l, Pct(a))));
            less.Some? && less.value == Eval(ar, l).value.v * (1.0 - q)
    ensures var part := Answer(ar, Print(Bin(Star, l, Pct(a)))); part.Some? && part.value == Eval(ar, l).value.v * q
  {
    hide Print, Answer, Apply;
    PercentRight(ar, Plus, l, a);
    PercentRight(ar, Minus, l, a);
    PercentRight(ar, Star, l, a);
    ExactApply(ar, Eval(ar, l).value.v, Eval(ar, a).value.v, q);
  }

  lemma ExactApply(ar: Arith, x: real, p: real, q: real)
    requires Exact(ar) && q == p / 100.0
    ensures ar.div(p, 100.0) == q
    ensures var sum := Apply(ar, Plus, x, q, true); sum.Some? && sum.value == x * (1.0 + q)
    ensures var less := Apply(ar, Minus, x, q, true); less.Some? && less.value == x * (1.0 - q)
    ensures var part := Apply(ar, Star, x, q, true); part.Some? && part.value == x * q
  {
    hide Bitwise;
    assert ar.mul(x, q) == x * q;
    assert ar.add(x, ar.mul(x, q)) == x + ar.mul(x, q) && ar.sub(x, ar.mul(x, q)) == x - ar.mul(x, q);
    Distribute(x, q);
  }

  lemma Distribute(x: real, q: real)
    ensures x + x * q == x * (1.0 + q) && x - x * q == x * (1.0 - q)
  {
  }

  lemma PercentRight(ar: Arith, op: Tok, l: Tree, a: Tree)
    requires (forall v :: ar.finite(v)) && WellFormed(l) && WellFormed(a) && Eval(ar, l).Some? && Eval(ar, a).Some?
    requires op.Plus? || op.Minus? || op.Star?
    ensures Answer(ar, Print(Bin(op, l, Pct(a)))) ==
            Apply(ar, op, Eval(ar, l).value.v, ar.div(Eval(ar, a).value.v, 100.0), true)
  {
    hide Print, Answer, ToInt;
    assert WellFormed(Pct(a));
    PrintParses(ar, Bin(op, l, Pct(a)));
    var y := Eval(ar, Pct(a));
    assert y == Some(Value(ar.div(Eval(ar, a).value.v, 100.0), true));
  }

  /** Two numbers and an everyday operator. */
  lemma TwoNumbers(ar: Arith, op: Tok, x: real, y: real)
    requires Exact(ar) && y != 0.0 && (op.Plus? || op.Minus? || op.Star? || op.Slash?)
    ensures var r := Answer(ar, [Num(x), op, Num(y)]);
            && r.Some?
            && (op.Plus? ==> r.value == x + y) && (op.Minus? ==> r.value == x - y)
            && (op.Star? ==> r.value == x * y) && (op.Slash? ==> r.value == x / y)
  {
    hide ParseTree, Bitwise;
    YieldPair(op, x, y);
    var t := Bin(op, Lit(x), Lit(y));
    assert Yield(t) + [] == [Num(x), op, Num(y)];
    ReadsExactly(Yield(t) + [], 0, t, []);
    NothingFollows();
    assert Shape(t, 0, []);
    assert Eval(ar, t) == Some(Plain(Apply(ar, op, x, y, false).value));
    assert ar.add(x, y) == x + y && ar.sub(x, y) == x - y && ar.mul(x, y) == x * y && ar.div(x, y) == x / y;
  }
}
