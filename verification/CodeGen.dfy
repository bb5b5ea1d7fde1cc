/** The expression code generators, as functions that thread the parser's
    allocation state: emitted code, resolved labels, register count, the pool of
    released temporaries and the released block of consecutive registers. */
module CodeGen {
  import opened ExprTree
  import opened Vdbe

  /** Capacity of Parse.aTempReg. */
  const POOL_SIZE := 8

  datatype Gen = Gen(
    code: seq<Instr>,
    labels: map<int, nat>,
    nLabel: nat,
    nMem: nat,
    temps: seq<int>,
    iRange: int,
    nRange: nat)

  datatype Coded = Coded(g: Gen, reg: int)

  /** A coded operand; `free` is the temporary to release, or zero. */
  datatype Operand = Operand(g: Gen, reg: int, free: int)

  // ----- allocation state -----

  function Emit(g: Gen, i: Instr): Gen {
    g.(code := g.code + [i])
  }

  function NewLabel(g: Gen): int {
    -1 - g.nLabel
  }

  function MakeLabel(g: Gen): Gen {
    g.(nLabel := g.nLabel + 1)
  }

  function Resolve(g: Gen, at: int): Gen {
    g.(labels := g.labels[at := |g.code|])
  }

  function NewReg(g: Gen): Coded {
    Coded(g.(nMem := g.nMem + 1), g.nMem + 1)
  }

  function GetTemp(g: Gen): Coded {
    if |g.temps| == 0 then NewReg(g)
    else Coded(g.(temps := g.temps[..|g.temps| - 1]), g.temps[|g.temps| - 1])
  }

  function Release(g: Gen, reg: int): Gen {
    if reg != 0 && |g.temps| < POOL_SIZE then g.(temps := g.temps + [reg]) else g
  }

  function GetRange(g: Gen, n: nat): Coded {
    if n <= g.nRange then Coded(g.(iRange := g.iRange + n, nRange := g.nRange - n), g.iRange)
    else Coded(g.(nMem := g.nMem + n), g.nMem + 1)
  }

  function ReleaseRange(g: Gen, first: int, n: nat): Gen {
    if n > g.nRange then g.(iRange := first, nRange := n) else g
  }

  // ----- operands -----

  /** Two coded operands and the temporaries to release after their use. */
  datatype Pair = Pair(g: Gen, left: int, right: int, freeLeft: int, freeRight: int)

  function FreePair(p: Pair, g: Gen): Gen {
    Release(Release(g, p.freeLeft), p.freeRight)
  }

  /** sqlite3ExprCodeTemp */
  function CodeTemp(e: Expr, g: Gen): Operand
    decreases Size(e), 1
  {
    var t := GetTemp(g);
    var o := CodeTarget(e, t.reg, t.g);
    if o.reg == t.reg then Operand(o.g, o.reg, t.reg) else Operand(Release(o.g, t.reg), o.reg, 0)
  }

  function CodePair(x: Expr, y: Expr, g: Gen): Pair
    decreases Size(x) + Size(y), 2
  {
    var a := CodeTemp(x, g);
    var b := CodeTemp(y, a.g);
    Pair(b.g, a.reg, b.reg, a.free, b.free)
  }

  /** sqlite3ExprCode: the value ends up in `t` itself. */
  function CodeInto(e: Expr, t: int, g: Gen): Gen
    decreases Size(e), 1
  {
    if e.Leaf? && e.atom.Register? then Emit(g, OpCopy(e.atom.reg, t))
    else
      var o := CodeTarget(e, t, g);
      if o.reg != t then Emit(o.g, OpSCopy(o.reg, t)) else o.g
  }

  // ----- values -----

  /** sqlite3ExprCodeTarget: the result is in the returned register. */
  function CodeTarget(e: Expr, t: int, g: Gen): Coded
    decreases Size(e), 0
  {
    match e
    case Leaf(a) => if a.Register? then Coded(g, a.reg) else Coded(Emit(g, AtomInstr(a, t)), t)
    case Unary(u, x) => if u.Plain? then CodeTarget(x, t, g) else Coded(CodeUnary(u, x, t, g), t)
    case Binary(b, x, y) => Coded(CodeBinary(b, x, y, t, g), t)
    case Between(x, y, z) => Coded(CodeBetween(x, y, z, t, g), t)
    case In(x, l, id) => Coded(CodeInValue(x, l, id, t, g), t)
    case Coalesce(x, l) => Coded(CodeCoalesce(x, l, t, g), t)
    case Call(f, l) => Coded(CodeCall(f, l, t, g), t)
    case Case(w) => Coded(CodeCase(w, t, g), t)
    case CaseOf(x, w) => Coded(CodeCaseOf(x, w, t, g), t)
  }

  function CodeBinary(b: BinaryOp, x: Expr, y: Expr, t: int, g: Gen): Gen
    decreases Size(x) + Size(y), 3
  {
    var p := CodePair(x, y, g);
    FreePair(p, Emit(p.g, BinaryInstr(b, p.left, p.right, t)))
  }

  function CodeUnary(u: UnaryOp, x: Expr, t: int, g: Gen): Gen
    requires !u.Plain?
    decreases Size(x), 4
  {
    match u
    case Cast(a) => CodeCast(a, x, t, g)
    case Negate => CodeNegate(x, t, g)
    case Not => CodeComplement(false, x, t, g)
    case BitNot => CodeComplement(true, x, t, g)
    case IsNull(n) => CodeIsNull(n, x, t, g)
  }

  function CodeCast(a: Affinity, x: Expr, t: int, g: Gen): Gen
    decreases Size(x), 1
  {
    var o := CodeTarget(x, t, g);
    Emit(if o.reg != t then Emit(o.g, OpSCopy(o.reg, t)) else o.g, OpConvert(a, t))
  }

  function CodeComplement(bitwise: bool, x: Expr, t: int, g: Gen): Gen
    decreases Size(x), 2
  {
    var a := CodeTemp(x, g);
    Release(Emit(a.g, if bitwise then OpBitNot(a.reg, t) else OpNot(a.reg, t)), a.free)
  }

  function CodeNegate(x: Expr, t: int, g: Gen): Gen
    decreases Size(x), 3
  {
    if IsLiteral(x) && x.atom.v.Int? then Emit(g, OpLoad(Int(-x.atom.v.n), t))
    else if IsLiteral(x) && x.atom.v.Real? then Emit(g, OpLoad(Real(-x.atom.v.r), t))
    else CodeMinus(x, t, g)
  }

  /** Any other operand is subtracted from zero. */
  function CodeMinus(x: Expr, t: int, g: Gen): Gen
    decreases Size(x), 2
  {
    var z := GetTemp(g);
    var a := CodeTemp(x, Emit(z.g, OpLoad(Int(0), z.reg)));
    Release(Release(Emit(a.g, OpArith(Subtract, a.reg, z.reg, t)), z.reg), a.free)
  }

  function CodeIsNull(negated: bool, x: Expr, t: int, g: Gen): Gen
    decreases Size(x), 2
  {
    var a := CodeTemp(x, Emit(g, OpLoad(Int(1), t)));
    Release(Emit(Emit(a.g, NullTest(negated, a.reg, |a.g.code| + 2)), OpAddImm(t, -1)), a.free)
  }

  /** X and Y coded and  X>=Y  stored, ready for Z. */
  datatype Half = Half(g: Gen, r3: int, r4: int, left: int, freeLeft: int)

  function CodeBetweenLow(x: Expr, y: Expr, g: Gen): Half
    decreases Size(x) + Size(y), 3
  {
    var p := CodePair(x, y, g);
    var r3 := GetTemp(p.g);
    var r4 := GetTemp(r3.g);
    var g1 := Emit(r4.g, OpStoreCompare(Ge, p.right, r3.reg, p.left, false));
    Half(Release(g1, p.freeRight), r3.reg, r4.reg, p.left, p.freeLeft)
  }

  function CodeBetween(x: Expr, y: Expr, z: Expr, t: int, g: Gen): Gen
    decreases Size(x) + Size(y) + Size(z), 3
  {
    var f := CodeBetweenLow(x, y, g);
    var b := CodeTemp(z, f.g);
    var g2 := Emit(b.g, OpStoreCompare(Le, b.reg, f.r4, f.left, false));
    FreeBetween(f, b.free, Emit(g2, OpLogic(true, f.r3, f.r4, t)))
  }

  function FreeBetween(f: Half, free: int, g: Gen): Gen {
    Release(Release(Release(Release(g, f.r3), f.r4), f.freeLeft), free)
  }

  /** NULL first, then 1 on a match; falling to false turns NULL into 0 by adding 0. */
  function CodeInValue(x: Expr, l: Exprs, id: int, t: int, g: Gen): Gen
    decreases Size(x) + SizeAll(l), 5
  {
    var ifFalse := NewLabel(g);
    var g1 := MakeLabel(g);
    var ifNull := NewLabel(g1);
    var g2 := Emit(MakeLabel(g1), OpLoad(Null, t));
    var g3 := CodeIn(x, l, id, ifFalse, ifNull, g2);
    var g4 := Resolve(Emit(g3, OpLoad(Int(1), t)), ifFalse);
    Resolve(Emit(g4, OpAddImm(t, 0)), ifNull)
  }

  function CodeCoalesce(x: Expr, l: Exprs, t: int, g: Gen): Gen
    decreases Size(x) + SizeAll(l), 4
  {
    var end := NewLabel(g);
    Resolve(CodeAlternatives(l, t, end, CodeInto(x, t, MakeLabel(g))), end)
  }

  function CodeAlternatives(l: Exprs, t: int, end: int, g: Gen): Gen
    decreases SizeAll(l), 0
  {
    match l
    case Nil => g
    case Cons(x, rest) => CodeAlternatives(rest, t, end, CodeInto(x, t, Emit(g, OpNotNull(t, end))))
  }

  function CodeCall(f: string, l: Exprs, t: int, g: Gen): Gen
    decreases SizeAll(l), 1
  {
    if l.Nil? then Emit(g, OpFunction(f, 0, 0, t))
    else
      var n := Length(l);
      var r := GetRange(g, n);
      ReleaseRange(Emit(CodeArgs(l, r.reg, r.g), OpFunction(f, r.reg, n, t)), r.reg, n)
  }

  /** sqlite3ExprCodeExprList with hard copies */
  function CodeArgs(l: Exprs, first: int, g: Gen): Gen
    decreases SizeAll(l), 0
  {
    match l
    case Nil => g
    case Cons(x, rest) => CodeArgs(rest, first + 1, ArgTarget(x, first, g))
  }

  function ArgTarget(x: Expr, first: int, g: Gen): Gen
    decreases Size(x), 1
  {
    var o := CodeTarget(x, first, g);
    if o.reg != first then Emit(o.g, OpCopy(o.reg, first)) else o.g
  }

  function CodeCase(w: Whens, t: int, g: Gen): Gen
    decreases SizeWhens(w), 3
  {
    Resolve(CodeWhens(0, w, t, NewLabel(g), MakeLabel(g)), NewLabel(g))
  }

  /** The operand is coded once; its register is never given back. */
  function CodeCaseOf(x: Expr, w: Whens, t: int, g: Gen): Gen
    decreases Size(x) + SizeWhens(w), 3
  {
    var a := CodeTemp(x, MakeLabel(g));
    Resolve(CodeWhens(a.reg, w, t, NewLabel(g), a.g), NewLabel(g))
  }

  /** The WHEN clauses; `base` holds the CASE operand, or is zero. */
  function CodeWhens(base: int, w: Whens, t: int, end: int, g: Gen): Gen
    decreases SizeWhens(w), 2
  {
    match w
    case Else(x) => CodeInto(x, t, g)
    case When(test, x, more) =>
      var next := NewLabel(g);
      var g1 := IfFalse(CaseTest(base, test), next, true, MakeLabel(g));
      var g2 := Emit(CodeInto(x, t, g1), OpGoto(end));
      CodeWhens(base, more, t, end, Resolve(g2, next))
  }

  function CaseTest(base: int, test: Expr): (e: Expr)
    ensures Size(e) <= 2 + Size(test)
  {
    if base == 0 then test else Binary(Compare(Eq), Leaf(Register(base)), test)
  }

  // ----- IN -----

  /** sqlite3CodeSubselect for a list: fill the ephemeral table, once if it is constant. */
  function CodeRhs(l: Exprs, id: int, hasNull: int, g: Gen): Gen
    decreases SizeAll(l), 3
  {
    var end := NewLabel(g);
    Resolve(CodeFill(l, id, hasNull, Emit(MakeLabel(g), if ConstantAll(l) then OpOnce(id, end) else OpNoop)), end)
  }

  function CodeFill(l: Exprs, id: int, hasNull: int, g: Gen): Gen
    decreases SizeAll(l), 2
  {
    var r1 := GetTemp(Emit(Emit(g, OpLoad(Null, hasNull)), OpOpenEphemeral(id)));
    var r2 := GetTemp(r1.g);
    var g3 := CodeInserts(l, id, r1.reg, r2.reg, Emit(r2.g, OpLoad(Null, r2.reg)));
    Release(Release(g3, r1.reg), r2.reg)
  }

  function CodeInserts(l: Exprs, id: int, r1: int, r2: int, g: Gen): Gen
    decreases SizeAll(l), 1
  {
    match l
    case Nil => g
    case Cons(x, rest) =>
      var o := CodeTarget(x, r1, g);
      CodeInserts(rest, id, r1, r2, Emit(Emit(o.g, OpMakeRecord(o.reg, r2)), OpIdxInsert(id, r2)))
  }

  /** sqlite3ExprCodeIN with an ephemeral table on the right: falls through on a match. */
  function CodeIn(x: Expr, l: Exprs, id: int, ifFalse: int, ifNull: int, g: Gen): Gen
    decreases Size(x) + SizeAll(l), 4
  {
    var q := NewReg(g);
    CodeInLhs(x, id, q.reg, ifFalse, ifNull, CodeRhs(l, id, q.reg, Emit(q.g, OpLoad(Null, q.reg))))
  }

  function CodeInLhs(x: Expr, id: int, hasNull: int, ifFalse: int, ifNull: int, g: Gen): Gen
    decreases Size(x), 2
  {
    var r1 := GetTemp(g);
    var g3 := CodeNullLhs(id, r1.reg, ifFalse, ifNull, CodeInto(x, r1.reg, r1.g));
    Release(CodeMember(id, r1.reg, hasNull, ifFalse, ifNull, g3), r1.reg)
  }

  function CodeNullLhs(id: int, r1: int, ifFalse: int, ifNull: int, g: Gen): Gen {
    if ifNull == ifFalse then Emit(g, OpIsNull(r1, ifNull))
    else Emit(Emit(Emit(g, OpNotNull(r1, |g.code| + 3)), OpRewind(id, ifFalse)), OpGoto(ifNull))
  }

  function CodeMember(id: int, r1: int, hasNull: int, ifFalse: int, ifNull: int, g: Gen): Gen {
    if ifFalse == ifNull then Emit(g, OpNotFound(id, ifFalse, r1))
    else
      var a := |g.code|;
      g.(code := g.code + [
        OpFound(id, a + 7, r1),
        OpNotNull(hasNull, a + 5),
        OpFound(id, a + 4, hasNull),
        OpLoad(Int(-1), hasNull),
        OpAddImm(hasNull, 1),
        OpIf(hasNull, ifNull, false),
        OpGoto(ifFalse)])
  }

  // ----- conditions -----

  function Complement(op: CompareOp): CompareOp {
    match op
    case Eq => Ne
    case Ne => Eq
    case Lt => Ge
    case Ge => Lt
    case Gt => Le
    case Le => Gt
  }

  /** exprCodeBetween: X is coded once and the tree  X>=Y AND X<=Z  refers to its register. */
  function CodeBetweenJump(x: Expr, y: Expr, z: Expr, dest: int, ifTrue: bool, jumpIfNull: bool, g: Gen): Gen
    decreases Size(x) + Size(y) + Size(z) + 5, 3
  {
    var a := CodeTemp(x, g);
    var both := Bounds(a.reg, y, z);
    var h := if ifTrue then IfTrue(both, dest, jumpIfNull, a.g) else IfFalse(both, dest, jumpIfNull, a.g);
    Release(h, a.free)
  }

  function Bounds(reg: int, y: Expr, z: Expr): (e: Expr)
    ensures Size(e) == 5 + Size(y) + Size(z)
  {
    var lo := Binary(Compare(Ge), Leaf(Register(reg)), y);
    var hi := Binary(Compare(Le), Leaf(Register(reg)), z);
    assert Size(Leaf(Register(reg))) == 1;
    assert Size(lo) == 2 + Size(y) && Size(hi) == 2 + Size(z);
    Binary(And, lo, hi)
  }

  function JumpCompare(op: CompareOp, x: Expr, y: Expr, dest: int, nullEq: bool, jumpIfNull: bool, g: Gen): Gen
    decreases Size(x) + Size(y), 3
  {
    var p := CodePair(x, y, g);
    FreePair(p, Emit(p.g, OpJumpCompare(op, p.right, dest, p.left, nullEq, jumpIfNull)))
  }

  function JumpNull(negated: bool, x: Expr, dest: int, g: Gen): Gen
    decreases Size(x), 2
  {
    var a := CodeTemp(x, g);
    Release(Emit(a.g, NullTest(negated, a.reg, dest)), a.free)
  }

  /** Any other expression: compute it and test its number. */
  function JumpTest(e: Expr, dest: int, ifTrue: bool, jumpIfNull: bool, g: Gen): Gen
    decreases Size(e), 2
  {
    var a := CodeTemp(e, g);
    Release(Emit(a.g, if ifTrue then OpIf(a.reg, dest, jumpIfNull) else OpIfNot(a.reg, dest, jumpIfNull)), a.free)
  }

  /** The four ways a jump uses `CodeIn`. */
  function CodeInJump(x: Expr, l: Exprs, id: int, dest: int, ifTrue: bool, jumpIfNull: bool, g: Gen): Gen
    decreases Size(x) + SizeAll(l), 5
  {
    var own := NewLabel(g);
    if ifTrue then
      var g1 := CodeIn(x, l, id, own, if jumpIfNull then dest else own, MakeLabel(g));
      Resolve(Emit(g1, OpGoto(dest)), own)
    else if jumpIfNull then CodeIn(x, l, id, dest, dest, g)
    else Resolve(CodeIn(x, l, id, dest, own, MakeLabel(g)), own)
  }

  /** sqlite3ExprIfTrue */
  function IfTrue(e: Expr, dest: int, jumpIfNull: bool, g: Gen): Gen
    decreases Size(e), 3
  {
    match e
    case Unary(u, x) =>
      (match u
       case Not => IfFalse(x, dest, jumpIfNull, g)
       case IsNull(n) => JumpNull(n, x, dest, g)
       case _ => JumpTest(e, dest, true, jumpIfNull, g))
    case Binary(b, x, y) =>
      (match b
       case And =>
         var g1 := IfFalse(x, NewLabel(g), !jumpIfNull, MakeLabel(g));
         Resolve(IfTrue(y, dest, jumpIfNull, g1), NewLabel(g))
       case Or => IfTrue(y, dest, jumpIfNull, IfTrue(x, dest, jumpIfNull, g))
       case Compare(op) => JumpCompare(op, x, y, dest, false, jumpIfNull, g)
       case Is(n) => JumpCompare(if n then Ne else Eq, x, y, dest, true, false, g)
       case Arith(_) => JumpTest(e, dest, true, jumpIfNull, g))
    case Between(x, y, z) => CodeBetweenJump(x, y, z, dest, true, jumpIfNull, g)
    case In(x, l, id) => CodeInJump(x, l, id, dest, true, jumpIfNull, g)
    case _ => JumpTest(e, dest, true, jumpIfNull, g)
  }

  /** sqlite3ExprIfFalse */
  function IfFalse(e: Expr, dest: int, jumpIfNull: bool, g: Gen): Gen
    decreases Size(e), 3
  {
    match e
    case Unary(u, x) =>
      (match u
       case Not => IfTrue(x, dest, jumpIfNull, g)
       case IsNull(n) => JumpNull(!n, x, dest, g)
       case _ => JumpTest(e, dest, false, jumpIfNull, g))
    case Binary(b, x, y) =>
      (match b
       case And => IfFalse(y, dest, jumpIfNull, IfFalse(x, dest, jumpIfNull, g))
       case Or =>
         var g1 := IfTrue(x, NewLabel(g), !jumpIfNull, MakeLabel(g));
         Resolve(IfFalse(y, dest, jumpIfNull, g1), NewLabel(g))
       case Compare(op) => JumpCompare(Complement(op), x, y, dest, false, jumpIfNull, g)
       case Is(n) => JumpCompare(if n then Eq else Ne, x, y, dest, true, false, g)
       case Arith(_) => JumpTest(e, dest, false, jumpIfNull, g))
    case Between(x, y, z) => CodeBetweenJump(x, y, z, dest, false, jumpIfNull, g)
    case In(x, l, id) => CodeInJump(x, l, id, dest, false, jumpIfNull, g)
    case _ => JumpTest(e, dest, false, jumpIfNull, g)
  }
}
