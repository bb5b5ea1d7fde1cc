/** SQL scalar expressions, the values they range over and their meaning.

    Two evaluators are needed.  `Eval` is the value an expression has when it is
    coded into a register; `Cond` is its truth value when it is coded as a jump.
    They differ in how a bare number is read as a truth value: the logic opcodes
    truncate to an integer first, the jump opcodes compare the real value with zero.
 */
module ExprTree {

  datatype Value =
    | Null
    | Int(n: int)
    | Real(r: real)
    | Text(s: string)
    | Blob(bytes: seq<int>)
    | Record(field: Value)      // one-column index key built by OP_MakeRecord

  datatype CompareOp = Eq | Ne | Lt | Le | Gt | Ge

  datatype ArithOp =
    | Add | Subtract | Multiply | Divide | Remainder
    | BitAnd | BitOr | ShiftLeft | ShiftRight | Concat

  datatype Affinity = ToText | ToBlob | ToNumeric | ToInt | ToReal

  datatype Tri = True | False | Unknown

  /** What the model leaves to the engine: collation order on non-NULL values,
      arithmetic, casts, number parsing and SQL functions. */
  datatype Engine = Engine(
    compare: (Value, Value) -> int,
    arith: (ArithOp, Value, Value) -> Value,
    bitNot: Value -> Value,
    convert: (Affinity, Value) -> Value,
    parseInt: Value -> int,
    parseReal: Value -> real,
    call: (string, seq<Value>) -> Value)

  datatype Atom =
    | Column(table: int, column: int)
    | Literal(v: Value)
    | Variable(index: int)
    | Register(reg: int)

  datatype UnaryOp =
    | Plain                      // unary plus, COLLATE, AS
    | Cast(aff: Affinity)
    | Negate
    | Not
    | BitNot
    | IsNull(negated: bool)      // ISNULL, NOTNULL

  datatype BinaryOp =
    | Compare(cmp: CompareOp)
    | Is(negated: bool)          // IS, IS NOT
    | And
    | Or
    | Arith(op: ArithOp)

  datatype Expr =
    | Leaf(atom: Atom)
    | Unary(u: UnaryOp, arg: Expr)
    | Binary(b: BinaryOp, left: Expr, right: Expr)
    | Between(arg: Expr, low: Expr, high: Expr)
    | In(arg: Expr, rhs: Exprs, id: int)         // id: cursor and once-flag of the RHS table
    | Coalesce(arg: Expr, rest: Exprs)
    | Call(name: string, args: Exprs)
    | Case(whens: Whens)
    | CaseOf(base: Expr, whens: Whens)

  datatype Exprs = Nil | Cons(head: Expr, tail: Exprs)

  // a missing ELSE is Else(Leaf(Literal(Null)))
  datatype Whens = Else(last: Expr) | When(test: Expr, result: Expr, more: Whens)

  /** One evaluation context: the current row, the bound parameters and the
      values held in registers that the tree refers to by number. */
  datatype Context = Context(
    engine: Engine,
    column: (int, int) -> Value,
    variable: int -> Value,
    pins: map<int, Value>)

  // ----- truth values -----

  function Truncate(r: real): int {
    if r >= 0.0 then r.Floor else -(-r).Floor
  }

  function IntValue(k: Engine, v: Value): int {
    match v
    case Null => 0
    case Int(n) => n
    case Real(r) => Truncate(r)
    case _ => k.parseInt(v)
  }

  function RealValue(k: Engine, v: Value): real {
    match v
    case Null => 0.0
    case Int(n) => n as real
    case Real(r) => r
    case _ => k.parseReal(v)
  }

  function OfBool(b: bool): Tri {
    if b then True else False
  }

  /** Reading of a register by OP_And, OP_Or and OP_Not. */
  function IntTruth(k: Engine, v: Value): Tri {
    if v.Null? then Unknown else OfBool(IntValue(k, v) != 0)
  }

  /** Reading of a register by OP_If and OP_IfNot. */
  function RealTruth(k: Engine, v: Value): Tri {
    if v.Null? then Unknown else OfBool(RealValue(k, v) != 0.0)
  }

  function TriValue(t: Tri): Value {
    match t
    case True => Int(1)
    case False => Int(0)
    case Unknown => Null
  }

  function Not3(t: Tri): Tri {
    match t
    case True => False
    case False => True
    case Unknown => Unknown
  }

  function And3(a: Tri, b: Tri): Tri {
    if a == False || b == False then False
    else if a == Unknown || b == Unknown then Unknown
    else True
  }

  function Or3(a: Tri, b: Tri): Tri {
    if a == True || b == True then True
    else if a == Unknown || b == Unknown then Unknown
    else False
  }

  // ----- comparisons -----

  predicate Orders(op: CompareOp, order: int) {
    match op
    case Eq => order == 0
    case Ne => order != 0
    case Lt => order < 0
    case Le => order <= 0
    case Gt => order > 0
    case Ge => order >= 0
  }

  function Compare3(k: Engine, op: CompareOp, a: Value, b: Value): Tri {
    if a.Null? || b.Null? then Unknown else OfBool(Orders(op, k.compare(a, b)))
  }

  predicate Same(k: Engine, a: Value, b: Value) {
    if a.Null? || b.Null? then a.Null? && b.Null? else k.compare(a, b) == 0
  }

  predicate Contains(k: Engine, keys: set<Value>, v: Value) {
    exists w | w in keys :: Same(k, v, w)
  }

  /** x BETWEEN y AND z: section 8.3 of SQL-92. */
  function Between3(k: Engine, x: Value, y: Value, z: Value): Tri {
    And3(Compare3(k, Ge, x, y), Compare3(k, Le, x, z))
  }

  /** x IN (...): section 8.4 of SQL-92, with the empty list giving false. */
  function In3(k: Engine, v: Value, keys: set<Value>): Tri {
    if keys == {} then False
    else if v.Null? then Unknown
    else if Contains(k, keys, v) then True
    else if Contains(k, keys, Null) then Unknown
    else False
  }

  // ----- the evaluators -----

  function AtomValue(a: Atom, c: Context): Value {
    match a
    case Column(t, i) => c.column(t, i)
    case Literal(v) => v
    case Variable(i) => c.variable(i)
    case Register(r) => if r in c.pins then c.pins[r] else Null
  }

  /** Numeric literals are negated as they are coded; anything else is subtracted from zero. */
  function UnaryValue(k: Engine, u: UnaryOp, literal: bool, v: Value): Value {
    match u
    case Plain => v
    case Cast(a) => k.convert(a, v)
    case Negate =>
      if literal && v.Int? then Int(-v.n)
      else if literal && v.Real? then Real(-v.r)
      else k.arith(Subtract, Int(0), v)
    case Not => TriValue(Not3(IntTruth(k, v)))
    case BitNot => k.bitNot(v)
    case IsNull(n) => TriValue(OfBool(v.Null? != n))
  }

  function BinaryValue(k: Engine, b: BinaryOp, x: Value, y: Value): Value {
    match b
    case Compare(op) => TriValue(Compare3(k, op, x, y))
    case Is(n) => TriValue(OfBool(Same(k, x, y) != n))
    case And => TriValue(And3(IntTruth(k, x), IntTruth(k, y)))
    case Or => TriValue(Or3(IntTruth(k, x), IntTruth(k, y)))
    case Arith(op) => k.arith(op, x, y)
  }

  predicate IsLiteral(e: Expr) {
    e.Leaf? && e.atom.Literal?
  }

  function Eval(e: Expr, c: Context): Value
    decreases e, 0
  {
    match e
    case Leaf(a) => AtomValue(a, c)
    case Unary(u, x) => UnaryValue(c.engine, u, IsLiteral(x), Eval(x, c))
    case Binary(b, x, y) => BinaryValue(c.engine, b, Eval(x, c), Eval(y, c))
    case Between(x, y, z) => TriValue(Between3(c.engine, Eval(x, c), Eval(y, c), Eval(z, c)))
    case In(x, l, _) => TriValue(In3(c.engine, Eval(x, c), Keys(l, c)))
    case Coalesce(x, l) => var v := Eval(x, c); if v.Null? then FirstNonNull(l, c) else v
    case Call(f, l) => c.engine.call(f, EvalAll(l, c))
    case Case(w) => Choose(w, c)
    case CaseOf(x, w) => ChooseEqual(Eval(x, c), w, c)
  }

  function EvalAll(l: Exprs, c: Context): (vs: seq<Value>)
    ensures |vs| == Length(l)
    decreases l, 0
  {
    match l
    case Nil => []
    case Cons(x, t) => [Eval(x, c)] + EvalAll(t, c)
  }

  function Keys(l: Exprs, c: Context): set<Value>
    decreases l, 0
  {
    match l
    case Nil => {}
    case Cons(x, t) => {Eval(x, c)} + Keys(t, c)
  }

  function FirstNonNull(l: Exprs, c: Context): Value
    decreases l, 0
  {
    match l
    case Nil => Null
    case Cons(x, t) => var v := Eval(x, c); if v.Null? then FirstNonNull(t, c) else v
  }

  /** CASE WHEN: a test is a search condition, so it is read with `Cond`. */
  function Choose(w: Whens, c: Context): Value
    decreases w, 0
  {
    match w
    case Else(x) => Eval(x, c)
    case When(t, x, more) => if Cond(t, c) == True then Eval(x, c) else Choose(more, c)
  }

  function ChooseEqual(v: Value, w: Whens, c: Context): Value
    decreases w, 0
  {
    match w
    case Else(x) => Eval(x, c)
    case When(t, x, more) =>
      if Compare3(c.engine, Eq, v, Eval(t, c)) == True then Eval(x, c) else ChooseEqual(v, more, c)
  }

  /** Search condition: section 8.12 of SQL-92 over AND, OR and NOT. */
  function Cond(e: Expr, c: Context): Tri
    decreases e, 1
  {
    match e
    case Unary(u, x) =>
      (match u
       case Not => Not3(Cond(x, c))
       case IsNull(n) => OfBool(Eval(x, c).Null? != n)
       case _ => RealTruth(c.engine, Eval(e, c)))
    case Binary(b, x, y) =>
      (match b
       case And => And3(Cond(x, c), Cond(y, c))
       case Or => Or3(Cond(x, c), Cond(y, c))
       case Compare(op) => Compare3(c.engine, op, Eval(x, c), Eval(y, c))
       case Is(n) => OfBool(Same(c.engine, Eval(x, c), Eval(y, c)) != n)
       case Arith(_) => RealTruth(c.engine, Eval(e, c)))
    case Between(x, y, z) => Between3(c.engine, Eval(x, c), Eval(y, c), Eval(z, c))
    case In(x, l, _) => In3(c.engine, Eval(x, c), Keys(l, c))
    case _ => RealTruth(c.engine, Eval(e, c))
  }

  // ----- syntax -----

  function Length(l: Exprs): nat {
    match l
    case Nil => 0
    case Cons(_, t) => 1 + Length(t)
  }

  function Size(e: Expr): (n: nat)
    ensures n >= 1
  {
    match e
    case Leaf(_) => 1
    case Unary(_, x) => 1 + Size(x)
    case Binary(_, x, y) => 1 + Size(x) + Size(y)
    case Between(x, y, z) => 6 + Size(x) + Size(y) + Size(z)
    case In(x, l, _) => 1 + Size(x) + SizeAll(l)
    case Coalesce(x, l) => 1 + Size(x) + SizeAll(l)
    case Call(_, l) => 1 + SizeAll(l)
    case Case(w) => 1 + SizeWhens(w)
    case CaseOf(x, w) => 1 + Size(x) + SizeWhens(w)
  }

  function SizeAll(l: Exprs): nat {
    match l
    case Nil => 0
    case Cons(x, t) => 1 + Size(x) + SizeAll(t)
  }

  function SizeWhens(w: Whens): nat {
    match w
    case Else(x) => 1 + Size(x)
    case When(t, x, more) => 3 + Size(t) + Size(x) + SizeWhens(more)
  }

  /** What a tree refers to: registers, and the IN operators with their tables and lists. */
  datatype Uses = Uses(regs: set<int>, ids: set<int>, sites: set<(int, Exprs)>)

  function Join(a: Uses, b: Uses): Uses {
    Uses(a.regs + b.regs, a.ids + b.ids, a.sites + b.sites)
  }

  function UsesOf(e: Expr): Uses {
    match e
    case Leaf(a) => Uses(if a.Register? then {a.reg} else {}, {}, {})
    case Unary(_, x) => UsesOf(x)
    case Binary(_, x, y) => Join(UsesOf(x), UsesOf(y))
    case Between(x, y, z) => Join(Join(UsesOf(x), UsesOf(y)), UsesOf(z))
    case In(x, l, id) => Join(Uses({}, {id}, {(id, l)}), Join(UsesOf(x), UsesAll(l)))
    case Coalesce(x, l) => Join(UsesOf(x), UsesAll(l))
    case Call(_, l) => UsesAll(l)
    case Case(w) => UsesWhens(w)
    case CaseOf(x, w) => Join(UsesOf(x), UsesWhens(w))
  }

  function UsesAll(l: Exprs): Uses {
    match l
    case Nil => Uses({}, {}, {})
    case Cons(x, t) => Join(UsesOf(x), UsesAll(t))
  }

  function UsesWhens(w: Whens): Uses {
    match w
    case Else(x) => UsesOf(x)
    case When(t, x, more) => Join(Join(UsesOf(t), UsesOf(x)), UsesWhens(more))
  }

  predicate Apart(a: Uses, b: Uses) {
    a.ids !! b.ids
  }

  /** Every IN operator has its own table and its list names no register. */
  predicate Distinct(e: Expr) {
    match e
    case Leaf(_) => true
    case Unary(_, x) => Distinct(x)
    case Binary(_, x, y) => Distinct(x) && Distinct(y) && Apart(UsesOf(x), UsesOf(y))
    case Between(x, y, z) =>
      && Distinct(x) && Distinct(y) && Distinct(z)
      && Apart(UsesOf(x), UsesOf(y)) && Apart(Join(UsesOf(x), UsesOf(y)), UsesOf(z))
    case In(x, l, id) =>
      && Distinct(x) && DistinctAll(l) && Apart(UsesOf(x), UsesAll(l))
      && id !in UsesOf(x).ids && id !in UsesAll(l).ids && UsesAll(l).regs == {}
    case Coalesce(x, l) => Distinct(x) && DistinctAll(l) && Apart(UsesOf(x), UsesAll(l))
    case Call(_, l) => DistinctAll(l)
    case Case(w) => DistinctWhens(w)
    case CaseOf(x, w) => Distinct(x) && DistinctWhens(w) && Apart(UsesOf(x), UsesWhens(w))
  }

  predicate DistinctAll(l: Exprs) {
    match l
    case Nil => true
    case Cons(x, t) => Distinct(x) && DistinctAll(t) && Apart(UsesOf(x), UsesAll(t))
  }

  predicate DistinctWhens(w: Whens) {
    match w
    case Else(x) => Distinct(x)
    case When(t, x, more) =>
      && Distinct(t) && Distinct(x) && DistinctWhens(more)
      && Apart(UsesOf(t), UsesOf(x)) && Apart(Join(UsesOf(t), UsesOf(x)), UsesWhens(more))
  }

  /** sqlite3ExprIsConstant: no column and no SQL function. */
  predicate Constant(e: Expr) {
    match e
    case Leaf(a) => !a.Column?
    case Unary(_, x) => Constant(x)
    case Binary(_, x, y) => Constant(x) && Constant(y)
    case Between(x, y, z) => Constant(x) && Constant(y) && Constant(z)
    case In(x, l, _) => Constant(x) && ConstantAll(l)
    case Coalesce(_, _) => false
    case Call(_, _) => false
    case Case(w) => ConstantWhens(w)
    case CaseOf(x, w) => Constant(x) && ConstantWhens(w)
  }

  predicate ConstantAll(l: Exprs) {
    match l
    case Nil => true
    case Cons(x, t) => Constant(x) && ConstantAll(t)
  }

  predicate ConstantWhens(w: Whens) {
    match w
    case Else(x) => Constant(x)
    case When(t, x, more) => Constant(t) && Constant(x) && ConstantWhens(more)
  }

  // ----- what an evaluation depends on -----

  /** `d` may replace `c` for an expression that names registers `regs` and,
      unless `row`, is free of columns. */
  ghost predicate Agree(c: Context, d: Context, regs: set<int>, row: bool) {
    && c.engine == d.engine && c.variable == d.variable
    && (row ==> c.column == d.column)
    && forall r :: r in regs ==> (r in c.pins <==> r in d.pins) && (r in c.pins ==> c.pins[r] == d.pins[r])
  }

  lemma {:induction false} EvalDepends(e: Expr, c: Context, d: Context)
    requires Agree(c, d, UsesOf(e).regs, !Constant(e))
    ensures Eval(e, c) == Eval(e, d)
    ensures Cond(e, c) == Cond(e, d)
    decreases e, 0
  {
    match e
    case Leaf(_) =>
    case Unary(_, x) => EvalDepends(x, c, d);
    case Binary(_, x, y) => EvalDepends(x, c, d); EvalDepends(y, c, d);
    case Between(x, y, z) => EvalDepends(x, c, d); EvalDepends(y, c, d); EvalDepends(z, c, d);
    case In(x, l, _) => EvalDepends(x, c, d); EvalAllDepends(l, c, d);
    case Coalesce(x, l) => EvalDepends(x, c, d); EvalAllDepends(l, c, d);
    case Call(_, l) => EvalAllDepends(l, c, d);
    case Case(w) => ChooseDepends(w, Null, c, d);
    case CaseOf(x, w) => EvalDepends(x, c, d); ChooseDepends(w, Eval(x, c), c, d);
  }

  lemma {:induction false} EvalAllDepends(l: Exprs, c: Context, d: Context)
    requires Agree(c, d, UsesAll(l).regs, !ConstantAll(l))
    ensures EvalAll(l, c) == EvalAll(l, d)
    ensures Keys(l, c) == Keys(l, d)
    ensures FirstNonNull(l, c) == FirstNonNull(l, d)
    decreases l, 0
  {
    match l
    case Nil =>
    case Cons(x, t) => EvalDepends(x, c, d); EvalAllDepends(t, c, d);
  }

  lemma {:induction false} ChooseDepends(w: Whens, v: Value, c: Context, d: Context)
    requires Agree(c, d, UsesWhens(w).regs, !ConstantWhens(w))
    ensures Choose(w, c) == Choose(w, d)
    ensures ChooseEqual(v, w, c) == ChooseEqual(v, w, d)
    decreases w, 0
  {
    match w
    case Else(x) => EvalDepends(x, c, d);
    case When(t, x, more) =>
      EvalDepends(t, c, d);
      EvalDepends(x, c, d);
      ChooseDepends(more, v, c, d);
  }

  // ----- tables of the IN operators -----

  /** The tables of the sites are among the ids and the lists name no register. */
  ghost predicate Owned(u: Uses) {
    forall s :: s in u.sites ==> s.0 in u.ids && UsesAll(s.1).regs == {}
  }

  lemma {:induction false} SitesOwned(e: Expr)
    requires Distinct(e)
    ensures Owned(UsesOf(e))
    decreases e, 0
  {
    match e
    case Leaf(_) =>
    case Unary(_, x) => SitesOwned(x);
    case Binary(_, x, y) => SitesOwned(x); SitesOwned(y);
    case Between(x, y, z) => SitesOwned(x); SitesOwned(y); SitesOwned(z);
    case In(x, l, _) => SitesOwned(x); SitesAllOwned(l);
    case Coalesce(x, l) => SitesOwned(x); SitesAllOwned(l);
    case Call(_, l) => SitesAllOwned(l);
    case Case(w) => SitesWhensOwned(w);
    case CaseOf(x, w) => SitesOwned(x); SitesWhensOwned(w);
  }

  lemma {:induction false} SitesAllOwned(l: Exprs)
    requires DistinctAll(l)
    ensures Owned(UsesAll(l))
    decreases l, 0
  {
    match l
    case Nil =>
    case Cons(x, t) => SitesOwned(x); SitesAllOwned(t);
  }

  lemma {:induction false} SitesWhensOwned(w: Whens)
    requires DistinctWhens(w)
    ensures Owned(UsesWhens(w))
    decreases w, 0
  {
    match w
    case Else(x) => SitesOwned(x);
    case When(t, x, more) => SitesOwned(t); SitesOwned(x); SitesWhensOwned(more);
  }
}
