/** The operators spelled out: values and truth values in terms of the engine's comparison and of numbers,
    and what that means for the generated code. */
module Meaning {
  import opened ExprTree
  import opened Vdbe
  import opened CodeGen
  import opened CodeGenShape
  import opened CodeGenRuns
  import opened CodeGenCorrect
  import opened Statements

  /** An expression is worth one or zero, and true or false as a condition. */
  ghost predicate Decided(e: Expr, c: Context, b: bool) {
    Eval(e, c) == (if b then Int(1) else Int(0)) && Cond(e, c) == if b then True else False
  }

  /** An expression is worth NULL, and neither true nor false. */
  ghost predicate Undecided(e: Expr, c: Context) {
    Eval(e, c) == Null && Cond(e, c) == Unknown
  }

  // ----- comparisons -----

  /** How two values that are not NULL compare. */
  ghost function Order(x: Expr, y: Expr, c: Context): int {
    c.engine.compare(Eval(x, c), Eval(y, c))
  }

  ghost predicate Known(x: Expr, c: Context) {
    !Eval(x, c).Null?
  }

  lemma CompareMeans(x: Expr, y: Expr, c: Context)
    ensures Known(x, c) && Known(y, c) ==>
      var n := Order(x, y, c);
      && Decided(Binary(Compare(Lt), x, y), c, n < 0) && Decided(Binary(Compare(Le), x, y), c, n <= 0)
      && Decided(Binary(Compare(Gt), x, y), c, n > 0) && Decided(Binary(Compare(Ge), x, y), c, n >= 0)
      && Decided(Binary(Compare(Eq), x, y), c, n == 0) && Decided(Binary(Compare(Ne), x, y), c, n != 0)
    ensures !Known(x, c) || !Known(y, c) ==> forall op :: Undecided(Binary(Compare(op), x, y), c)
  {
  }

  lemma BetweenMeans(x: Expr, y: Expr, z: Expr, c: Context)
    ensures var e := Between(x, y, z);
      var under := Known(x, c) && Known(y, c) && Order(x, y, c) < 0;
      var over := Known(x, c) && Known(z, c) && Order(x, z, c) > 0;
      if under || over then Decided(e, c, false)
      else if Known(x, c) && Known(y, c) && Known(z, c) then Decided(e, c, true)
      else Undecided(e, c)
  {
  }

  lemma IsMeans(negated: bool, x: Expr, y: Expr, c: Context)
    ensures var same := if Known(x, c) && Known(y, c) then Order(x, y, c) == 0 else !Known(x, c) && !Known(y, c);
      Decided(Binary(Is(negated), x, y), c, same != negated)
    ensures Decided(Unary(IsNull(negated), x), c, Known(x, c) == negated)
  {
  }

  /** The engine orders integers as numbers. */
  ghost predicate Numeric(k: Engine) {
    forall a, b :: (k.compare(Int(a), Int(b)) < 0 <==> a < b) && (k.compare(Int(a), Int(b)) == 0 <==> a == b)
  }

  function Number(n: int): Expr {
    Leaf(Literal(Int(n)))
  }

  lemma NumbersCompare(a: int, b: int, c: Context)
    requires Numeric(c.engine)
    ensures Decided(Binary(Compare(Lt), Number(a), Number(b)), c, a < b)
    ensures Decided(Binary(Compare(Le), Number(a), Number(b)), c, a <= b)
    ensures Decided(Binary(Compare(Gt), Number(a), Number(b)), c, a > b)
    ensures Decided(Binary(Compare(Ge), Number(a), Number(b)), c, a >= b)
    ensures Decided(Binary(Compare(Eq), Number(a), Number(b)), c, a == b)
    ensures Decided(Binary(Compare(Ne), Number(a), Number(b)), c, a != b)
  {
    CompareMeans(Number(a), Number(b), c);
  }

  lemma NumbersBetween(a: int, low: int, high: int, c: Context)
    requires Numeric(c.engine)
    ensures Decided(Between(Number(a), Number(low), Number(high)), c, low <= a <= high)
  {
    BetweenMeans(Number(a), Number(low), Number(high), c);
  }

  // ----- AND, OR, NOT -----

  /** A stored operand counts as true when it is a number other than zero, after truncation. */
  ghost predicate Zero(x: Expr, c: Context) {
    Known(x, c) && IntValue(c.engine, Eval(x, c)) == 0
  }

  ghost predicate NonZero(x: Expr, c: Context) {
    Known(x, c) && IntValue(c.engine, Eval(x, c)) != 0
  }

  lemma StoredConnectives(x: Expr, y: Expr, c: Context)
    ensures Eval(Binary(And, x, y), c) ==
      if Zero(x, c) || Zero(y, c) then Int(0) else if NonZero(x, c) && NonZero(y, c) then Int(1) else Null
    ensures Eval(Binary(Or, x, y), c) ==
      if NonZero(x, c) || NonZero(y, c) then Int(1) else if Zero(x, c) && Zero(y, c) then Int(0) else Null
    ensures Eval(Unary(Not, x), c) == if Zero(x, c) then Int(1) else if NonZero(x, c) then Int(0) else Null
  {
  }

  lemma JumpConnectives(x: Expr, y: Expr, c: Context)
    ensures Cond(Binary(And, x, y), c) == True <==> Cond(x, c) == True && Cond(y, c) == True
    ensures Cond(Binary(And, x, y), c) == False <==> Cond(x, c) == False || Cond(y, c) == False
    ensures Cond(Binary(Or, x, y), c) == True <==> Cond(x, c) == True || Cond(y, c) == True
    ensures Cond(Binary(Or, x, y), c) == False <==> Cond(x, c) == False && Cond(y, c) == False
    ensures Cond(Unary(Not, x), c) == True <==> Cond(x, c) == False
    ensures Cond(Unary(Not, x), c) == False <==> Cond(x, c) == True
  {
  }

  /** Numbers as conditions: a jump compares them with zero, a stored operand drops the fraction first. */
  lemma NumbersAsConditions(n: int, r: real, c: Context)
    ensures Cond(Leaf(Literal(Int(n))), c) == if n != 0 then True else False
    ensures Cond(Leaf(Literal(Real(r))), c) == if r != 0.0 then True else False
    ensures Cond(Leaf(Literal(Null)), c) == Unknown
    ensures NonZero(Leaf(Literal(Int(n))), c) <==> n != 0
    ensures NonZero(Leaf(Literal(Real(r))), c) <==> r >= 1.0 || r <= -1.0
  {
  }

  // ----- IN, COALESCE, CASE -----

  lemma {:induction false} KeysAre(l: Exprs, c: Context)
    ensures Keys(l, c) == set v | v in EvalAll(l, c)
    decreases l
  {
    match l
    case Nil =>
    case Cons(x, t) => KeysAre(t, c);
  }

  ghost predicate Listed(k: Engine, v: Value, vs: seq<Value>) {
    exists i :: 0 <= i < |vs| && !vs[i].Null? && k.compare(v, vs[i]) == 0
  }

  /** x IN a list: false on an empty list, true when an element compares equal, and otherwise NULL if
      a NULL on either side leaves it open. */
  lemma InMeans(x: Expr, l: Exprs, id: int, c: Context)
    ensures var e, v, vs := In(x, l, id), Eval(x, c), EvalAll(l, c);
      if vs == [] then Decided(e, c, false)
      else if v.Null? then Undecided(e, c)
      else if Listed(c.engine, v, vs) then Decided(e, c, true)
      else if Null in vs then Undecided(e, c)
      else Decided(e, c, false)
  {
    var k, v, vs := c.engine, Eval(x, c), EvalAll(l, c);
    KeysAre(l, c);
    if vs != [] && !v.Null? {
      assert vs[0] in Keys(l, c);
      if Listed(k, v, vs) {
        var i :| 0 <= i < |vs| && !vs[i].Null? && k.compare(v, vs[i]) == 0;
        assert vs[i] in Keys(l, c) && Same(k, v, vs[i]);
      } else {
        assert Null in vs ==> Null in Keys(l, c) && Same(k, Null, Null);
      }
    }
  }

  ghost predicate FirstKnown(vs: seq<Value>, i: int) {
    0 <= i < |vs| && !vs[i].Null? && forall j :: 0 <= j < i ==> vs[j].Null?
  }

  ghost predicate AllNull(vs: seq<Value>) {
    forall j :: 0 <= j < |vs| ==> vs[j].Null?
  }

  /** COALESCE: the first argument that is not NULL. */
  lemma CoalesceMeans(x: Expr, l: Exprs, c: Context, i: int)
    ensures var v, vs := Eval(Coalesce(x, l), c), EvalAll(Cons(x, l), c);
      (FirstKnown(vs, i) ==> v == vs[i]) && (AllNull(vs) ==> v.Null?)
  {
    FirstNonNullMeans(Cons(x, l), c, i);
  }

  lemma {:induction false} FirstNonNullMeans(l: Exprs, c: Context, i: int)
    ensures FirstKnown(EvalAll(l, c), i) ==> FirstNonNull(l, c) == EvalAll(l, c)[i]
    ensures AllNull(EvalAll(l, c)) ==> FirstNonNull(l, c).Null?
    decreases l
  {
    if l.Cons? {
      var v, us, vs := Eval(l.head, c), EvalAll(l.tail, c), EvalAll(l, c);
      FirstNonNullMeans(l.tail, c, i - 1);
      assert vs == [v] + us;
      assert forall j :: 0 <= j < |us| ==> us[j] == vs[j + 1];
      assert AllNull(vs) ==> vs[0].Null? && AllNull(us);
      if FirstKnown(vs, i) && i > 0 {
        assert vs[0].Null? && FirstKnown(us, i - 1) && us[i - 1] == vs[i];
      }
    }
  }

  function Arms(w: Whens): seq<(Expr, Expr)> {
    match w
    case Else(_) => []
    case When(t, x, more) => [(t, x)] + Arms(more)
  }

  function Otherwise(w: Whens): Expr {
    match w
    case Else(x) => x
    case When(_, _, more) => Otherwise(more)
  }

  /** The test of an arm succeeds: it is true, or with a base value it is equal to that. */
  ghost predicate Holds(base: Value, hasBase: bool, t: Expr, c: Context) {
    if hasBase then !base.Null? && Known(t, c) && c.engine.compare(base, Eval(t, c)) == 0
    else Cond(t, c) == True
  }

  ghost predicate FirstArm(base: Value, hasBase: bool, w: Whens, c: Context, i: int) {
    && 0 <= i < |Arms(w)| && Holds(base, hasBase, Arms(w)[i].0, c)
    && forall j :: 0 <= j < i ==> !Holds(base, hasBase, Arms(w)[j].0, c)
  }

  ghost predicate NoArm(base: Value, hasBase: bool, w: Whens, c: Context) {
    forall j :: 0 <= j < |Arms(w)| ==> !Holds(base, hasBase, Arms(w)[j].0, c)
  }

  lemma {:induction false} CaseMeans(base: Value, hasBase: bool, w: Whens, c: Context, i: int)
    ensures var v := if hasBase then ChooseEqual(base, w, c) else Choose(w, c);
      && (FirstArm(base, hasBase, w, c, i) ==> v == Eval(Arms(w)[i].1, c))
      && (NoArm(base, hasBase, w, c) ==> v == Eval(Otherwise(w), c))
    decreases w
  {
    if w.When? {
      CaseMeans(base, hasBase, w.more, c, i - 1);
      LaterArm(base, hasBase, w, c, i);
    }
  }

  /** An arm that is not the first is one of the rest. */
  lemma LaterArm(base: Value, hasBase: bool, w: Whens, c: Context, i: int)
    requires w.When?
    ensures FirstArm(base, hasBase, w, c, i) && i > 0 ==>
      && !Holds(base, hasBase, w.test, c) && FirstArm(base, hasBase, w.more, c, i - 1)
      && Arms(w)[i] == Arms(w.more)[i - 1]
    ensures FirstArm(base, hasBase, w, c, i) && i == 0 ==> Holds(base, hasBase, w.test, c)
    ensures NoArm(base, hasBase, w, c) ==> !Holds(base, hasBase, w.test, c) && NoArm(base, hasBase, w.more, c)
  {
    var arms, rest := Arms(w), Arms(w.more);
    assert arms == [(w.test, w.result)] + rest;
    assert forall k :: 0 <= k < |rest| ==> rest[k] == arms[k + 1];
    assert arms[0].0 == w.test;
  }

  /** CASE: the result of the first arm whose test succeeds, or of ELSE. */
  lemma CaseIs(x: Expr, w: Whens, c: Context, i: int)
    ensures FirstArm(Null, false, w, c, i) ==> Eval(Case(w), c) == Eval(Arms(w)[i].1, c)
    ensures NoArm(Null, false, w, c) ==> Eval(Case(w), c) == Eval(Otherwise(w), c)
    ensures FirstArm(Eval(x, c), true, w, c, i) ==> Eval(CaseOf(x, w), c) == Eval(Arms(w)[i].1, c)
    ensures NoArm(Eval(x, c), true, w, c) ==> Eval(CaseOf(x, w), c) == Eval(Otherwise(w), c)
  {
    CaseMeans(Null, false, w, c, i);
    CaseMeans(Eval(x, c), true, w, c, i);
  }

  // ----- the generated code -----

  /** Where a jump ends up. */
  ghost predicate Arrives(p: Program, m: Machine, taken: bool, dest: int, fall: int) {
    m.pc == if taken then Address(p, dest) else fall
  }

  lemma IfTrueArrives(e: Expr, dest: int, jumpIfNull: bool, g: Gen, p: Program, c: Context, m: Machine)
      returns (m': Machine)
    requires Can(e, c, g, m) && Fits(IfTrue(e, dest, jumpIfNull, g), p)
    ensures Ran(UsesOf(e), {}, p, c, g, m, m')
    ensures var t := Cond(e, c);
      Arrives(p, m', t == True || (t == Unknown && jumpIfNull), dest, |IfTrue(e, dest, jumpIfNull, g).code|)
  {
    m' := IfTrueCorrect(e, dest, jumpIfNull, g, p, c, m);
  }

  lemma IfFalseArrives(e: Expr, dest: int, jumpIfNull: bool, g: Gen, p: Program, c: Context, m: Machine)
      returns (m': Machine)
    requires Can(e, c, g, m) && Fits(IfFalse(e, dest, jumpIfNull, g), p)
    ensures Ran(UsesOf(e), {}, p, c, g, m, m')
    ensures var t := Cond(e, c);
      Arrives(p, m', t == False || (t == Unknown && jumpIfNull), dest, |IfFalse(e, dest, jumpIfNull, g).code|)
  {
    m' := IfFalseCorrect(e, dest, jumpIfNull, g, p, c, m);
  }

  /** The answer of a comparison of two values that are not NULL. */
  ghost predicate Answer(op: CompareOp, n: int, b: bool) {
    && (op == Lt ==> (b <==> n < 0)) && (op == Le ==> (b <==> n <= 0))
    && (op == Gt ==> (b <==> n > 0)) && (op == Ge ==> (b <==> n >= 0))
    && (op == Eq ==> (b <==> n == 0)) && (op == Ne ==> (b <==> n != 0))
  }

  /** IfTrue of a comparison jumps exactly when the operands are in that order. */
  lemma CompareJumps(op: CompareOp, x: Expr, y: Expr, dest: int, jumpIfNull: bool, g: Gen, p: Program, c: Context,
      m: Machine) returns (m': Machine, taken: bool)
    requires var e := Binary(Compare(op), x, y); Can(e, c, g, m) && Fits(IfTrue(e, dest, jumpIfNull, g), p)
    requires Known(x, c) && Known(y, c)
    ensures Reaches(p, c, m, m') && Answer(op, Order(x, y, c), taken)
    ensures Arrives(p, m', taken, dest, |IfTrue(Binary(Compare(op), x, y), dest, jumpIfNull, g).code|)
  {
    m' := IfTrueArrives(Binary(Compare(op), x, y), dest, jumpIfNull, g, p, c, m);
    CompareMeans(x, y, c);
    taken := Cond(Binary(Compare(op), x, y), c) == True;
  }

  /** IfFalse of a comparison falls through exactly when the operands are in that order. */
  lemma CompareSkips(op: CompareOp, x: Expr, y: Expr, dest: int, jumpIfNull: bool, g: Gen, p: Program, c: Context,
      m: Machine) returns (m': Machine, holds: bool)
    requires var e := Binary(Compare(op), x, y); Can(e, c, g, m) && Fits(IfFalse(e, dest, jumpIfNull, g), p)
    requires Known(x, c) && Known(y, c)
    ensures Reaches(p, c, m, m') && Answer(op, Order(x, y, c), holds)
    ensures Arrives(p, m', !holds, dest, |IfFalse(Binary(Compare(op), x, y), dest, jumpIfNull, g).code|)
  {
    m' := IfFalseArrives(Binary(Compare(op), x, y), dest, jumpIfNull, g, p, c, m);
    CompareMeans(x, y, c);
    holds := Cond(Binary(Compare(op), x, y), c) == True;
  }

  /** A comparison coded into a register leaves one or zero there. */
  lemma CompareStores(op: CompareOp, x: Expr, y: Expr, t: int, g: Gen, p: Program, c: Context, m: Machine)
      returns (m': Machine, b: bool)
    requires var e := Binary(Compare(op), x, y); CanInto(e, t, c, g, m) && Fits(CodeInto(e, t, g), p)
    requires Known(x, c) && Known(y, c)
    ensures Reaches(p, c, m, m') && Answer(op, Order(x, y, c), b)
    ensures Get(m', t) == if b then Int(1) else Int(0)
  {
    m' := IntoCorrect(Binary(Compare(op), x, y), t, g, p, c, m);
    CompareMeans(x, y, c);
    b := Eval(Binary(Compare(op), x, y), c) == Int(1);
  }

  /** With a NULL operand IfTrue jumps exactly with jumpIfNull. */
  lemma NullJumps(op: CompareOp, x: Expr, y: Expr, dest: int, jumpIfNull: bool, g: Gen, p: Program, c: Context,
      m: Machine) returns (m': Machine)
    requires var e := Binary(Compare(op), x, y); Can(e, c, g, m) && Fits(IfTrue(e, dest, jumpIfNull, g), p)
    requires !Known(x, c) || !Known(y, c)
    ensures Reaches(p, c, m, m')
    ensures Arrives(p, m', jumpIfNull, dest, |IfTrue(Binary(Compare(op), x, y), dest, jumpIfNull, g).code|)
  {
    m' := IfTrueArrives(Binary(Compare(op), x, y), dest, jumpIfNull, g, p, c, m);
    CompareMeans(x, y, c);
  }

  /** IfTrue of BETWEEN jumps exactly when the value lies between the bounds. */
  lemma BetweenJumps(x: Expr, y: Expr, z: Expr, dest: int, jumpIfNull: bool, g: Gen, p: Program, c: Context,
      m: Machine) returns (m': Machine)
    requires Can(Between(x, y, z), c, g, m) && Fits(IfTrue(Between(x, y, z), dest, jumpIfNull, g), p)
    requires Known(x, c) && Known(y, c) && Known(z, c)
    ensures Reaches(p, c, m, m')
    ensures var taken := Order(x, y, c) >= 0 && Order(x, z, c) <= 0;
      Arrives(p, m', taken, dest, |IfTrue(Between(x, y, z), dest, jumpIfNull, g).code|)
  {
    m' := IfTrueArrives(Between(x, y, z), dest, jumpIfNull, g, p, c, m);
    BetweenMeans(x, y, z, c);
  }

  /** IfTrue of IN jumps exactly when some element of the list compares equal. */
  lemma InJumps(x: Expr, l: Exprs, id: int, dest: int, jumpIfNull: bool, g: Gen, p: Program, c: Context, m: Machine)
      returns (m': Machine)
    requires Can(In(x, l, id), c, g, m) && Fits(IfTrue(In(x, l, id), dest, jumpIfNull, g), p)
    requires Known(x, c) && Null !in EvalAll(l, c)
    ensures Reaches(p, c, m, m')
    ensures var taken := Listed(c.engine, Eval(x, c), EvalAll(l, c));
      Arrives(p, m', taken, dest, |IfTrue(In(x, l, id), dest, jumpIfNull, g).code|)
  {
    m' := IfTrueArrives(In(x, l, id), dest, jumpIfNull, g, p, c, m);
    InMeans(x, l, id, c);
  }

  /** WHERE with a comparison, over any sequence of rows: the body is reached for exactly the rows
      whose operands are not NULL and in that order. */
  lemma WhereCompares(op: CompareOp, x: Expr, y: Expr, dest: int, g: Gen, p: Program, rows: seq<Context>, m: Machine,
      rest: (nat, Machine) -> Machine) returns (ends: seq<Machine>, kept: seq<bool>)
    requires var e := Binary(Compare(op), x, y);
      && Parsed(e) && Inv(g) && Fits(IfFalse(e, dest, true, g), p) && Rows(rows)
      && UsesOf(e).ids !! m.once && Elsewhere(rest, UsesOf(e).ids)
    ensures |ends| == |kept| == |rows|
    ensures forall i :: 0 <= i < |rows| ==>
      var c := rows[i];
      && (Known(x, c) && Known(y, c) ==> Answer(op, Order(x, y, c), kept[i]))
      && (!Known(x, c) || !Known(y, c) ==> !kept[i])
      && Arrives(p, ends[i], !kept[i], dest, |IfFalse(Binary(Compare(op), x, y), dest, true, g).code|)
  {
    var e := Binary(Compare(op), x, y);
    ends := WhereRows(e, dest, g, p, rows, m, rest);
    kept := seq(|rows|, i requires 0 <= i < |rows| => Cond(e, rows[i]) == True);
    forall i | 0 <= i < |rows|
      ensures Known(x, rows[i]) && Known(y, rows[i]) ==> Answer(op, Order(x, y, rows[i]), kept[i])
      ensures !Known(x, rows[i]) || !Known(y, rows[i]) ==> !kept[i]
      ensures Arrives(p, ends[i], !kept[i], dest, |IfFalse(e, dest, true, g).code|)
    {
      CompareMeans(x, y, rows[i]);
      assert Filtered(e, dest, g, p, rows, m, rest, ends, i);
    }
  }
}
