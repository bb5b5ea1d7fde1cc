/** When a condition coded as a jump and the same expression coded as a value agree. */
module Truth {
  import opened ExprTree

  /** The truth value of `e` when the operands of its AND/OR/NOT skeleton are read
      as the logic opcodes read them (`asInt`) or as the jump opcodes do. */
  function Skeleton(e: Expr, c: Context, asInt: bool): Tri {
    match e
    case Unary(u, x) => if u.Not? then Not3(Skeleton(x, c, asInt)) else Reading(e, c, asInt)
    case Binary(b, x, y) =>
      if b.And? then And3(Skeleton(x, c, asInt), Skeleton(y, c, asInt))
      else if b.Or? then Or3(Skeleton(x, c, asInt), Skeleton(y, c, asInt))
      else Reading(e, c, asInt)
    case _ => Reading(e, c, asInt)
  }

  function Reading(e: Expr, c: Context, asInt: bool): Tri {
    if asInt then IntTruth(c.engine, Eval(e, c)) else RealTruth(c.engine, Eval(e, c))
  }

  /** A stored truth value is read the same by both kinds of opcode. */
  lemma StoredTruth(k: Engine, t: Tri)
    ensures IntTruth(k, TriValue(t)) == t && RealTruth(k, TriValue(t)) == t
  {
  }

  /** Both codings are the same skeleton; they differ only in how its operands are read. */
  lemma {:induction false} BothReadings(e: Expr, c: Context)
    ensures IntTruth(c.engine, Eval(e, c)) == Skeleton(e, c, true)
    ensures Cond(e, c) == Skeleton(e, c, false)
    decreases e
  {
    match e
    case Unary(u, x) =>
      BothReadings(x, c);
      UnaryReadings(u, x, c);
    case Binary(b, x, y) =>
      BothReadings(x, c);
      BothReadings(y, c);
      BinaryReadings(b, x, y, c);
    case Between(x, y, z) => StoredTruth(c.engine, Between3(c.engine, Eval(x, c), Eval(y, c), Eval(z, c)));
    case In(x, l, _) => StoredTruth(c.engine, In3(c.engine, Eval(x, c), Keys(l, c)));
    case _ =>
  }

  lemma UnaryReadings(u: UnaryOp, x: Expr, c: Context)
    requires IntTruth(c.engine, Eval(x, c)) == Skeleton(x, c, true) && Cond(x, c) == Skeleton(x, c, false)
    ensures IntTruth(c.engine, Eval(Unary(u, x), c)) == Skeleton(Unary(u, x), c, true)
    ensures Cond(Unary(u, x), c) == Skeleton(Unary(u, x), c, false)
  {
    if u.Not? {
      StoredTruth(c.engine, Not3(IntTruth(c.engine, Eval(x, c))));
    } else if u.IsNull? {
      StoredTruth(c.engine, OfBool(Eval(x, c).Null? != u.negated));
    }
  }

  lemma BinaryReadings(b: BinaryOp, x: Expr, y: Expr, c: Context)
    requires IntTruth(c.engine, Eval(x, c)) == Skeleton(x, c, true) && Cond(x, c) == Skeleton(x, c, false)
    requires IntTruth(c.engine, Eval(y, c)) == Skeleton(y, c, true) && Cond(y, c) == Skeleton(y, c, false)
    ensures IntTruth(c.engine, Eval(Binary(b, x, y), c)) == Skeleton(Binary(b, x, y), c, true)
    ensures Cond(Binary(b, x, y), c) == Skeleton(Binary(b, x, y), c, false)
  {
    var k, v, w := c.engine, Eval(x, c), Eval(y, c);
    match b
    case And => StoredTruth(k, And3(IntTruth(k, v), IntTruth(k, w)));
    case Or => StoredTruth(k, Or3(IntTruth(k, v), IntTruth(k, w)));
    case Compare(op) => StoredTruth(k, Compare3(k, op, v, w));
    case Is(n) => StoredTruth(k, OfBool(Same(k, v, w) != n));
    case Arith(_) =>
  }

  /** Every operand of the skeleton is itself a predicate. */
  predicate Predicates(e: Expr) {
    match e
    case Unary(u, x) => (u.Not? && Predicates(x)) || u.IsNull?
    case Binary(b, x, y) => ((b.And? || b.Or?) && Predicates(x) && Predicates(y)) || b.Compare? || b.Is?
    case Between(_, _, _) => true
    case In(_, _, _) => true
    case _ => false
  }

  /** A condition built from predicates has one truth value, jump or value. */
  lemma {:induction false} PredicatesAgree(e: Expr, c: Context)
    requires Predicates(e)
    ensures Eval(e, c) == TriValue(Cond(e, c))
    decreases e
  {
    match e
    case Unary(u, x) =>
      if u.Not? {
        PredicatesAgree(x, c);
        StoredTruth(c.engine, Cond(x, c));
      }
    case Binary(b, x, y) =>
      if b.And? || b.Or? {
        PredicatesAgree(x, c);
        PredicatesAgree(y, c);
        StoredTruth(c.engine, Cond(x, c));
        StoredTruth(c.engine, Cond(y, c));
      }
    case Between(_, _, _) =>
    case In(_, _, _) =>
  }

  /** NOT applied `n` times. */
  function Negations(n: nat, x: Expr): Expr {
    if n == 0 then x else Unary(Not, Negations(n - 1, x))
  }

  /** Values that the two families of opcodes read differently. Of the numbers these are the reals
      strictly between -1 and 1 other than zero; of text and blobs, those that the two parsers of
      numbers disagree about. */
  predicate Fraction(k: Engine, v: Value) {
    match v
    case Null => false
    case Int(_) => false
    case Real(r) => -1.0 < r < 1.0 && r != 0.0
    case _ => (k.parseReal(v) != 0.0) != (k.parseInt(v) != 0)
  }

  lemma FractionIs(k: Engine, v: Value)
    ensures IntTruth(k, v) == RealTruth(k, v) <==> !Fraction(k, v)
  {
    if v.Int? {
      assert v.n as real == 0.0 <==> v.n == 0;
    }
  }

  /** An expression that is not itself an AND, OR or NOT. */
  predicate Operand(e: Expr) {
    !(e.Unary? && e.u.Not?) && !(e.Binary? && (e.b.And? || e.b.Or?))
  }

  /** For any operand under any number of NOTs the two codings agree exactly when its value is not a fraction. */
  lemma {:induction false} NegationsAgree(n: nat, x: Expr, c: Context)
    requires Operand(x)
    ensures IntTruth(c.engine, Eval(Negations(n, x), c)) == Cond(Negations(n, x), c)
            <==> !Fraction(c.engine, Eval(x, c))
    decreases n
  {
    BothReadings(Negations(n, x), c);
    if n == 0 {
      FractionIs(c.engine, Eval(x, c));
    } else {
      NegationsAgree(n - 1, x, c);
      BothReadings(Negations(n - 1, x), c);
      assert Skeleton(Negations(n, x), c, true) == Not3(Skeleton(Negations(n - 1, x), c, true));
      assert Skeleton(Negations(n, x), c, false) == Not3(Skeleton(Negations(n - 1, x), c, false));
    }
  }

  /** No operand of the AND/OR/NOT skeleton has a fraction for its value. */
  predicate Whole(e: Expr, c: Context) {
    if Operand(e) then !Fraction(c.engine, Eval(e, c))
    else if e.Unary? then Whole(e.arg, c)
    else Whole(e.left, c) && Whole(e.right, c)
  }

  /** Whatever its shape, a condition without fractions has one truth value, jump or value. */
  lemma {:induction false} WholeAgree(e: Expr, c: Context)
    requires Whole(e, c)
    ensures IntTruth(c.engine, Eval(e, c)) == Cond(e, c)
    decreases e
  {
    BothReadings(e, c);
    if Operand(e) {
      FractionIs(c.engine, Eval(e, c));
    } else if e.Unary? {
      WholeAgree(e.arg, c);
      BothReadings(e.arg, c);
    } else {
      WholeAgree(e.left, c);
      WholeAgree(e.right, c);
      BothReadings(e.left, c);
      BothReadings(e.right, c);
    }
  }

  /** NOT 0.5 is stored as 1, yet a jump on it is not taken. */
  lemma NotHalf(c: Context)
    ensures var e := Unary(Not, Leaf(Literal(Real(0.5))));
      Eval(e, c) == Int(1) && Cond(e, c) == False
  {
    var x := Leaf(Literal(Real(0.5)));
    assert Eval(x, c) == Real(0.5);
    assert Truncate(0.5) == 0;
    assert Cond(x, c) == True;
  }
}
