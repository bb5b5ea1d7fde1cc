/** sqlite3ExprAnd: joining two conditions, with constant-false folding. */
module ExprAnd {
  import opened Basics
  import opened ExprTree

  const INT32_MAX := 0x7FFF_FFFF

  /** sqlite3ExprIsInteger: an integer literal that fits 32 bits, under unary plus and minus. */
  function IsInteger(e: Expr): Option<int> {
    match e
    case Leaf(a) => if a.Literal? && a.v.Int? && 0 <= a.v.n <= INT32_MAX then Some(a.v.n) else None
    case Unary(u, x) =>
      if u.Plain? then IsInteger(x)
      else if u.Negate? then
        (match IsInteger(x)
         case None => None
         case Some(n) => Some(-n))
      else None
    case _ => None
  }

  /** A condition and whether it comes from the ON or USING clause of a join. */
  datatype Term = Term(e: Expr, fromJoin: bool)

  /** exprAlwaysFalse */
  predicate AlwaysFalse(t: Term) {
    !t.fromJoin && IsInteger(t.e) == Some(0)
  }

  const FALSE := Leaf(Literal(Int(0)))

  function ExprAnd(left: Option<Term>, right: Option<Term>): Option<Expr> {
    match (left, right)
    case (None, None) => None
    case (None, Some(r)) => Some(r.e)
    case (Some(l), None) => Some(l.e)
    case (Some(l), Some(r)) => Some(if AlwaysFalse(l) || AlwaysFalse(r) then FALSE else Binary(And, l.e, r.e))
  }

  /** Subtraction from zero, which codes a unary minus that is not part of a literal, negates small integers. */
  ghost predicate Subtracts(k: Engine) {
    forall n {:trigger k.arith(Subtract, Int(0), Int(n))} ::
      0 - INT32_MAX <= n <= INT32_MAX ==> k.arith(Subtract, Int(0), Int(n)) == Int(-n)
  }

  lemma {:induction false} IntegerValue(e: Expr, c: Context)
    requires Subtracts(c.engine) && IsInteger(e).Some?
    ensures Eval(e, c) == Int(IsInteger(e).value) && 0 - INT32_MAX <= IsInteger(e).value <= INT32_MAX
    decreases e
  {
    match e
    case Leaf(_) =>
    case Unary(u, x) => IntegerValue(x, c);
  }

  lemma FalseValue(t: Term, c: Context)
    requires Subtracts(c.engine) && AlwaysFalse(t)
    ensures Eval(t.e, c) == Int(0) && Cond(t.e, c) == False
  {
    IntegerValue(t.e, c);
    assert t.e.Leaf? || t.e.Unary?;
  }

  /** The joined condition has the exact three-valued meaning of AND, as a value and as a jump, in every row. */
  lemma AndPreserved(l: Term, r: Term, c: Context)
    requires Subtracts(c.engine)
    ensures var e := ExprAnd(Some(l), Some(r)).value;
      Eval(e, c) == Eval(Binary(And, l.e, r.e), c) && Cond(e, c) == And3(Cond(l.e, c), Cond(r.e, c))
  {
    if AlwaysFalse(l) {
      FalseValue(l, c);
    }
    if AlwaysFalse(r) {
      FalseValue(r, c);
    }
    assert Eval(FALSE, c) == Int(0) && Cond(FALSE, c) == False;
  }

  // ----- what is folded -----

  /** The tree under the signs at the top, and how many of them are minus. */
  function Unsigned(e: Expr): Expr {
    if e.Unary? && (e.u.Plain? || e.u.Negate?) then Unsigned(e.arg) else e
  }

  function Minuses(e: Expr): nat {
    if e.Unary? && (e.u.Plain? || e.u.Negate?) then Minuses(e.arg) + (if e.u.Negate? then 1 else 0) else 0
  }

  /** An integer is a literal of at most 32 bits under signs, and nothing else; every minus turns its sign. */
  lemma {:induction false} IntegerIs(e: Expr)
    ensures var x := Unsigned(e);
      IsInteger(e) ==
        if x.Leaf? && x.atom.Literal? && x.atom.v.Int? && 0 <= x.atom.v.n <= 0x7FFF_FFFF then
          Some(if Minuses(e) % 2 == 0 then x.atom.v.n else -x.atom.v.n)
        else None
    decreases e
  {
    if e.Unary? && (e.u.Plain? || e.u.Negate?) {
      IntegerIs(e.arg);
    }
  }

  ghost predicate SignedZero(t: Term) {
    !t.fromJoin && Unsigned(t.e) == Leaf(Literal(Int(0)))
  }

  /** The conditions are folded to zero exactly when one of them is a zero under signs that does not come
      from a join; otherwise they are joined as they are, and a missing one does not count. */
  lemma AndFolds(l: Term, r: Term)
    ensures ExprAnd(Some(l), Some(r)) ==
      Some(if SignedZero(l) || SignedZero(r) then Leaf(Literal(Int(0))) else Binary(And, l.e, r.e))
    ensures ExprAnd(None, Some(r)) == Some(r.e) && ExprAnd(Some(l), None) == Some(l.e)
  {
    IntegerIs(l.e);
    IntegerIs(r.e);
  }
}
