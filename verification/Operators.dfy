/** What each operator of the calculator stands for: which machine operation, on which operands, and when there
    is no value. */
module Operators {
  import opened Bytes
  import opened Calc

  /** A whole number below 2^53 in magnitude. */
  predicate Whole(v: real) {
    v == v.Floor as real && -9007199254740992.0 < v < 9007199254740992.0
  }

  /** An answer is shown only if it is finite. */
  function Shown(ar: Arith, v: real): Option<real> {
    if ar.finite(v) then Some(v) else None
  }

  lemma WholeIs(v: real)
    ensures ToInt(v) == if Whole(v) then Some(v.Floor) else None
  {
  }

  // ---- prefix operators ------------------------------------------------------------------------

  /** Whatever stands behind it, a minus gives the machine's negation of its value, a plus the value, and a tilde the
      machine's flip of it if it is whole. */
  lemma PrefixAnswers(ar: Arith, op: Tok, e: Tree)
    requires IsPrefix(op) && WellFormed(e)
    ensures Eval(ar, e).None? ==> Answer(ar, Print(Prefix(op, e))) == None
    ensures Eval(ar, e).Some? ==>
              var v, r := Eval(ar, e).value.v, Answer(ar, Print(Prefix(op, e)));
              && (op.Minus? ==> r == Shown(ar, ar.neg(v)))
              && (op.Plus? ==> r == Shown(ar, v))
              && (op.Tilde? ==> r == if Whole(v) then Shown(ar, ar.flip(v.Floor) as real) else None)
  {
    hide Print, Answer, ToInt;
    assert WellFormed(Prefix(op, e));
    PrintParses(ar, Prefix(op, e));
    if Eval(ar, e).Some? {
      WholeIs(Eval(ar, e).value.v);
    }
  }

  /** Without rounding: minus negates, plus changes nothing, and tilde takes a whole number from -1 and has no value
      for any other. */
  lemma PrefixValue(ar: Arith, op: Tok, e: Tree)
    requires Exact(ar) && IsPrefix(op) && WellFormed(e) && Eval(ar, e).Some?
    ensures var v, r := Eval(ar, e).value.v, Answer(ar, Print(Prefix(op, e)));
            && (op.Minus? ==> r == Some(-v))
            && (op.Plus? ==> r == Some(v))
            && (op.Tilde? ==> r == if Whole(v) then Some(-1.0 - v) else None)
  {
    hide Print, Answer, Eval;
    PrefixAnswers(ar, op, e);
    var v := Eval(ar, e).value.v;
    assert ar.neg(v) == -v && ar.finite(v) && ar.finite(-v);
    if Whole(v) {
      assert ar.flip(v.Floor) == -1 - v.Floor;
      assert ar.finite(-1.0 - v);
    }
  }

  /** A second minus undoes the first. So does a second tilde, except at the largest whole number, whose flip is one
      too large in magnitude to be flipped back. */
  lemma PrefixTwice(ar: Arith, e: Tree)
    requires Exact(ar) && WellFormed(e) && Eval(ar, e).Some?
    ensures var v := Eval(ar, e).value.v;
            && Answer(ar, Print(e)) == Some(v)
            && Answer(ar, Print(Prefix(Minus, Prefix(Minus, e)))) == Some(v)
            && Answer(ar, Print(Prefix(Tilde, Prefix(Tilde, e)))) ==
                 if Whole(v) && v != 9007199254740991.0 then Some(v) else None
  {
    hide Print, Answer, ToInt;
    var v := Eval(ar, e).value.v;
    PrintParses(ar, e);
    WholeIs(v);
    assert ar.finite(v) && ar.neg(v) == -v && ar.flip(v.Floor) == -1 - v.Floor;
    PrefixValue(ar, Minus, Prefix(Minus, e));
    if Whole(v) {
      assert (-1 - v.Floor) as real == -1.0 - v;
      FlipIsWhole(v);
      PrefixValue(ar, Tilde, Prefix(Tilde, e));
    } else {
      PrefixAnswers(ar, Tilde, Prefix(Tilde, e));
    }
  }

  lemma FlipIsWhole(v: real)
    requires Whole(v)
    ensures Whole(-1.0 - v) <==> v != 9007199254740991.0
  {
    var w := -1 - v.Floor;
    assert -1.0 - v == w as real && (w as real).Floor == w;
  }

  // ---- percentages ---------------------------------------------------------------------------

  /** Written as a percentage, in any number of parentheses. */
  predicate IsPercentage(e: Tree) {
    match e
    case Pct(_) => true
    case Paren(a) => IsPercentage(a)
    case _ => false
  }

  /** An operand counts as a percentage exactly when it is written as one: parentheses keep that, and every
      operator loses it. */
  lemma {:induction false} PercentageIsWritten(ar: Arith, e: Tree)
    requires Eval(ar, e).Some?
    ensures Eval(ar, e).value.percent <==> IsPercentage(e)
  {
    if e.Paren? {
      PercentageIsWritten(ar, e.arg);
    }
  }

  // ---- infix operators -------------------------------------------------------------------------

  /** Every infix operator is one machine operation on the left value and then the right one; the five bitwise ones
      take only whole numbers; and `+` and `-` take an operand written as a percentage of the left value. */
  lemma InfixAnswers(ar: Arith, op: Tok, l: Tree, r: Tree)
    requires InfixBp(op).Some? && WellFormed(l) && WellFormed(r)
    ensures Eval(ar, l).None? || Eval(ar, r).None? ==> Answer(ar, Print(Bin(op, l, r))) == None
    ensures Eval(ar, l).Some? && Eval(ar, r).Some? ==>
              var x, y, answer := Eval(ar, l).value.v, Eval(ar, r).value.v, Answer(ar, Print(Bin(op, l, r)));
              var z := if IsPercentage(r) then ar.mul(x, y) else y;
              && (op.Plus? ==> answer == Shown(ar, ar.add(x, z)))
              && (op.Minus? ==> answer == Shown(ar, ar.sub(x, z)))
              && (op.Star? ==> answer == Shown(ar, ar.mul(x, y)))
              && (op.Slash? ==> answer == Shown(ar, ar.div(x, y)))
              && (op.Percent? ==> answer == Shown(ar, ar.rem(x, y)))
              && (op.Caret? ==> answer == Shown(ar, ar.pow(x, y)))
              && (op.Amp? || op.Pipe? || op.Xor? || op.Shl? || op.Shr? ==>
                    answer ==
                      if Whole(x) && Whole(y) && ar.bits(op, x.Floor, y.Floor).Some? then
                        Shown(ar, ar.bits(op, x.Floor, y.Floor).value as real)
                      else None)
  {
    hide Print, Answer, ToInt;
    assert WellFormed(Bin(op, l, r));
    PrintParses(ar, Bin(op, l, r));
    if Eval(ar, l).Some? && Eval(ar, r).Some? {
      PercentageIsWritten(ar, r);
      WholeIs(Eval(ar, l).value.v);
      WholeIs(Eval(ar, r).value.v);
    }
  }

  /** A percent sign divides by a hundred. */
  lemma PercentAnswers(ar: Arith, e: Tree)
    requires WellFormed(e)
    ensures Answer(ar, Print(Pct(e))) ==
              if Eval(ar, e).Some? then Shown(ar, ar.div(Eval(ar, e).value.v, 100.0)) else None
  {
    hide Print, Answer;
    assert WellFormed(Pct(e));
    PrintParses(ar, Pct(e));
  }

  /** A number is its own value, and parentheses change none. */
  lemma PlainAnswers(ar: Arith, v: real, e: Tree)
    requires WellFormed(e)
    ensures Answer(ar, [Num(v)]) == Shown(ar, v)
    ensures Answer(ar, Print(Paren(e))) == Answer(ar, Print(e))
  {
    hide Answer, ParseTree;
    PrintParses(ar, Lit(v));
    PrintParses(ar, Paren(e));
    PrintParses(ar, e);
    assert Print(Lit(v)) == [Num(v)];
  }
}
