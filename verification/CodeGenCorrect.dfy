/** Generated code computes what the evaluators say. */
module CodeGenCorrect {
  import opened ExprTree
  import opened Vdbe
  import opened VdbeBlocks
  import opened CodeGen
  import opened CodeGenShape
  import opened CodeGenRuns

  /** Code for `e`, generated at `g`, is about to run. */
  ghost predicate Can(e: Expr, c: Context, g: Gen, m: Machine) {
    Inv(g) && Distinct(e) && m.pc == |g.code| && Live(UsesOf(e), c, g, m)
  }

  /** As above, with a target register that the tree does not read. */
  ghost predicate CanInto(e: Expr, t: int, c: Context, g: Gen, m: Machine) {
    Can(e, c, g, m) && Safe(g, t) && t !in UsesOf(e).regs
  }

  // ----- operands -----

  /** sqlite3ExprCodeTemp leaves the value in the returned register and touches nothing in use. */
  lemma {:induction false} TempCorrect(e: Expr, g: Gen, p: Program, c: Context, m: Machine) returns (m': Machine)
    requires Can(e, c, g, m) && Fits(CodeTemp(e, g).g, p)
    ensures Ran(UsesOf(e), {}, p, c, g, m, m') && m'.pc == |CodeTemp(e, g).g.code|
    ensures Get(m', CodeTemp(e, g).reg) == Eval(e, c)
    decreases Size(e), 1
  {
    var t := GetTemp(g);
    TempGrows(g);
    StaysSafe(g, t.g, UsesOf(e).regs);
    var o := CodeTarget(e, t.reg, t.g);
    var q := if o.reg == t.reg then Operand(o.g, o.reg, t.reg) else Operand(Release(o.g, t.reg), o.reg, 0);
    assert CodeTemp(e, g) == q;
    assert q.g.code == o.g.code && q.g.labels == o.g.labels && q.reg == o.reg;
    m' := TargetCorrect(e, t.reg, t.g, p, c, m);
    RanLess(UsesOf(e), t.reg, p, c, g, t.g, m, m');
  }

  /** After other code, code for `y` may run. */
  lemma CanNext(y: Expr, u: Uses, own: set<int>, p: Program, c: Context, g: Gen, h: Gen, m: Machine, m': Machine)
    requires Distinct(y) && Live(UsesOf(y), c, g, m) && Ran(u, own, p, c, g, m, m') && Grows(g, h)
    requires Apart(u, UsesOf(y)) && own !! UsesOf(y).regs && m'.pc == |h.code|
    ensures Can(y, c, h, m')
  {
    SitesOwned(y);
    LiveAfter(UsesOf(y), c, g, h, own, u.ids, m, m');
  }

  lemma {:induction false} PairCorrect(x: Expr, y: Expr, g: Gen, p: Program, c: Context, m: Machine)
      returns (m': Machine)
    requires Can(x, c, g, m) && Can(y, c, g, m) && Apart(UsesOf(x), UsesOf(y))
    requires Fits(CodePair(x, y, g).g, p)
    ensures Ran(Join(UsesOf(x), UsesOf(y)), {}, p, c, g, m, m') && m'.pc == |CodePair(x, y, g).g.code|
    ensures Get(m', CodePair(x, y, g).left) == Eval(x, c)
    ensures Get(m', CodePair(x, y, g).right) == Eval(y, c)
    decreases Size(x) + Size(y), 2
  {
    var a := CodeTemp(x, g);
    TempShape(x, g);
    StaysSafe(g, a.g, UsesOf(y).regs);
    TempShape(y, a.g);
    FitsPart(a.g, CodeTemp(y, a.g).g, p);
    var m1 := TempCorrect(x, g, p, c, m);
    CanNext(y, UsesOf(x), {}, p, c, g, a.g, m, m1);
    m' := TempCorrect(y, a.g, p, c, m1);
    SitesOwned(x);
    RanTwice(UsesOf(x), UsesOf(y), {}, {}, p, c, g, a.g, m, m1, m');
  }

  /** sqlite3ExprCode leaves the value in the target itself. */
  lemma {:induction false} IntoCorrect(e: Expr, t: int, g: Gen, p: Program, c: Context, m: Machine)
      returns (m': Machine)
    requires CanInto(e, t, c, g, m) && Fits(CodeInto(e, t, g), p)
    ensures Ran(UsesOf(e), {t}, p, c, g, m, m') && m'.pc == |CodeInto(e, t, g).code| && Get(m', t) == Eval(e, c)
    decreases Size(e), 1
  {
    if e.Leaf? && e.atom.Register? {
      Begin(UsesOf(e), {t}, p, c, g, m);
      Fetch(g, OpCopy(e.atom.reg, t), p, m);
      m' := CopyTail(UsesOf(e), OpCopy(e.atom.reg, t), e.atom.reg, t, p, c, g, m, m);
    } else {
      var o := CodeTarget(e, t, g);
      m' := TargetCorrect(e, t, g, p, c, m);
      if o.reg != t {
        Fetch(o.g, OpSCopy(o.reg, t), p, m');
        m' := CopyTail(UsesOf(e), OpSCopy(o.reg, t), o.reg, t, p, c, g, m, m');
      }
    }
  }

  lemma CopyTail(u: Uses, i: Instr, src: int, t: int, p: Program, c: Context, g: Gen, m: Machine,
      m1: Machine) returns (m': Machine)
    requires Ran(u, {t}, p, c, g, m, m1) && At(i, p, m1) && (i == OpCopy(src, t) || i == OpSCopy(src, t))
    ensures Ran(u, {t}, p, c, g, m, m') && m'.pc == m1.pc + 1 && Get(m', t) == Get(m1, src)
  {
    DoCopy(i, src, t, p, c, m1);
    RanPut(u, {t}, t, Get(m1, src), p, c, g, m, m1);
    m' := Put(m1, t, Get(m1, src));
  }

  // ----- values -----

  /** sqlite3ExprCodeTarget: the returned register holds the value, and only the target
      and registers that were free have changed. */
  lemma {:induction false} TargetCorrect(e: Expr, t: int, g: Gen, p: Program, c: Context, m: Machine)
      returns (m': Machine)
    requires CanInto(e, t, c, g, m) && Fits(CodeTarget(e, t, g).g, p)
    ensures Ran(UsesOf(e), {t}, p, c, g, m, m') && m'.pc == |CodeTarget(e, t, g).g.code|
    ensures Get(m', CodeTarget(e, t, g).reg) == Eval(e, c)
    decreases Size(e), 0
  {
    match e
    case Leaf(a) => m' := LeafCorrect(a, t, g, p, c, m);
    case Unary(u, x) =>
      if u.Plain? {
        m' := TargetCorrect(x, t, g, p, c, m);
      } else {
        m' := UnaryCorrect(u, x, t, g, p, c, m);
      }
    case Binary(b, x, y) => m' := BinaryCorrect(b, x, y, t, g, p, c, m);
    case Between(x, y, z) => m' := BetweenCorrect(x, y, z, t, g, p, c, m);
    case _ => m' := TargetListCorrect(e, t, g, p, c, m);
  }

  lemma LeafCorrect(a: Atom, t: int, g: Gen, p: Program, c: Context, m: Machine) returns (m': Machine)
    requires CanInto(Leaf(a), t, c, g, m) && Fits(CodeTarget(Leaf(a), t, g).g, p)
    ensures Ran(UsesOf(Leaf(a)), {t}, p, c, g, m, m') && m'.pc == |CodeTarget(Leaf(a), t, g).g.code|
    ensures Get(m', CodeTarget(Leaf(a), t, g).reg) == AtomValue(a, c)
  {
    Begin(UsesOf(Leaf(a)), {t}, p, c, g, m);
    m' := m;
    if !a.Register? {
      Fetch(g, AtomInstr(a, t), p, m);
      DoAtom(a, t, p, c, m);
      RanPut(UsesOf(Leaf(a)), {t}, t, AtomValue(a, c), p, c, g, m, m);
      m' := Put(m, t, AtomValue(a, c));
    }
  }

  /** The operators that take a list. */
  lemma {:induction false} TargetListCorrect(e: Expr, t: int, g: Gen, p: Program, c: Context, m: Machine)
      returns (m': Machine)
    requires e.In? || e.Coalesce? || e.Call? || e.Case? || e.CaseOf?
    requires CanInto(e, t, c, g, m) && Fits(CodeTarget(e, t, g).g, p)
    ensures Ran(UsesOf(e), {t}, p, c, g, m, m') && m'.pc == |CodeTarget(e, t, g).g.code|
    ensures Get(m', CodeTarget(e, t, g).reg) == Eval(e, c)
    decreases Size(e), 0, 0
  {
    match e
    case In(x, l, id) => m' := InValueCorrect(x, l, id, t, g, p, c, m);
    case Coalesce(x, l) => m' := CoalesceCorrect(x, l, t, g, p, c, m);
    case Call(f, l) => m' := CallCorrect(f, l, t, g, p, c, m);
    case Case(w) => m' := CaseCorrect(w, t, g, p, c, m);
    case CaseOf(x, w) => m' := CaseOfCorrect(x, w, t, g, p, c, m);
  }

  lemma {:induction false} BinaryCorrect(b: BinaryOp, x: Expr, y: Expr, t: int, g: Gen, p: Program, c: Context,
      m: Machine) returns (m': Machine)
    requires Can(x, c, g, m) && Can(y, c, g, m) && Apart(UsesOf(x), UsesOf(y))
    requires Fits(CodeBinary(b, x, y, t, g), p)
    ensures Ran(Join(UsesOf(x), UsesOf(y)), {t}, p, c, g, m, m') && m'.pc == |CodeBinary(b, x, y, t, g).code|
    ensures Get(m', t) == BinaryValue(c.engine, b, Eval(x, c), Eval(y, c))
    decreases Size(x) + Size(y), 3
  {
    var q := CodePair(x, y, g);
    var i := BinaryInstr(b, q.left, q.right, t);
    FreePairCode(q, Emit(q.g, i), p);
    var m1 := PairCorrect(x, y, g, p, c, m);
    Fetch(q.g, i, p, m1);
    m' := BinaryTail(Join(UsesOf(x), UsesOf(y)), {t}, b, q.left, q.right, t, p, c, g, m, m1);
  }

  lemma BinaryTail(u: Uses, own: set<int>, b: BinaryOp, left: int, right: int, t: int, p: Program, c: Context,
      g: Gen, m: Machine, m1: Machine) returns (m': Machine)
    requires (Ran(u, {}, p, c, g, m, m1) || Ran(u, own, p, c, g, m, m1)) && At(BinaryInstr(b, left, right, t), p, m1)
    requires t in own || !Safe(g, t)
    ensures m' == Put(m1, t, BinaryValue(c.engine, b, Get(m1, left), Get(m1, right)))
    ensures Ran(u, own, p, c, g, m, m') && Get(m', t) == BinaryValue(c.engine, b, Get(m1, left), Get(m1, right))
  {
    var v := BinaryValue(c.engine, b, Get(m1, left), Get(m1, right));
    DoBinary(b, left, right, t, p, c, m1);
    RanPut(u, own, t, v, p, c, g, m, m1);
    m' := Put(m1, t, v);
  }

  lemma {:induction false} UnaryCorrect(u: UnaryOp, x: Expr, t: int, g: Gen, p: Program, c: Context,
      m: Machine) returns (m': Machine)
    requires !u.Plain? && CanInto(x, t, c, g, m) && Fits(CodeUnary(u, x, t, g), p)
    ensures Ran(UsesOf(x), {t}, p, c, g, m, m') && m'.pc == |CodeUnary(u, x, t, g).code|
    ensures Get(m', t) == UnaryValue(c.engine, u, IsLiteral(x), Eval(x, c))
    decreases Size(x), 5
  {
    match u
    case Cast(a) => m' := CastCorrect(a, x, t, g, p, c, m);
    case Negate => m' := NegateCorrect(x, t, g, p, c, m);
    case Not => m' := ComplementCorrect(false, x, t, g, p, c, m);
    case BitNot => m' := ComplementCorrect(true, x, t, g, p, c, m);
    case IsNull(n) => m' := IsNullCorrect(n, x, t, g, p, c, m);
  }

  lemma {:induction false} CastCorrect(a: Affinity, x: Expr, t: int, g: Gen, p: Program, c: Context,
      m: Machine) returns (m': Machine)
    requires CanInto(x, t, c, g, m) && Fits(CodeCast(a, x, t, g), p)
    ensures Ran(UsesOf(x), {t}, p, c, g, m, m') && m'.pc == |CodeCast(a, x, t, g).code|
    ensures Get(m', t) == c.engine.convert(a, Eval(x, c))
    decreases Size(x), 1
  {
    var o := CodeTarget(x, t, g);
    var h := if o.reg != t then Emit(o.g, OpSCopy(o.reg, t)) else o.g;
    m' := TargetCorrect(x, t, g, p, c, m);
    if o.reg != t {
      Fetch(o.g, OpSCopy(o.reg, t), p, m');
      m' := CopyTail(UsesOf(x), OpSCopy(o.reg, t), o.reg, t, p, c, g, m, m');
    }
    Fetch(h, OpConvert(a, t), p, m');
    DoConvert(a, t, p, c, m');
    var v := c.engine.convert(a, Eval(x, c));
    RanPut(UsesOf(x), {t}, t, v, p, c, g, m, m');
    m' := Put(m', t, v);
  }

  lemma {:induction false} ComplementCorrect(bitwise: bool, x: Expr, t: int, g: Gen, p: Program, c: Context,
      m: Machine) returns (m': Machine)
    requires CanInto(x, t, c, g, m) && Fits(CodeComplement(bitwise, x, t, g), p)
    ensures Ran(UsesOf(x), {t}, p, c, g, m, m') && m'.pc == |CodeComplement(bitwise, x, t, g).code|
    ensures Get(m', t) == UnaryValue(c.engine, if bitwise then BitNot else Not, false, Eval(x, c))
    decreases Size(x), 2
  {
    var a := CodeTemp(x, g);
    var i := if bitwise then OpBitNot(a.reg, t) else OpNot(a.reg, t);
    ReleaseCode(Emit(a.g, i), a.free, p);
    var m1 := TempCorrect(x, g, p, c, m);
    Fetch(a.g, i, p, m1);
    DoComplement(bitwise, a.reg, t, p, c, m1);
    RanMore(UsesOf(x), {}, {t}, p, c, g, m, m1);
    var v := UnaryValue(c.engine, if bitwise then BitNot else Not, false, Eval(x, c));
    RanPut(UsesOf(x), {t}, t, v, p, c, g, m, m1);
    m' := Put(m1, t, v);
  }

  lemma {:induction false} NegateCorrect(x: Expr, t: int, g: Gen, p: Program, c: Context, m: Machine)
      returns (m': Machine)
    requires CanInto(x, t, c, g, m) && Fits(CodeNegate(x, t, g), p)
    ensures Ran(UsesOf(x), {t}, p, c, g, m, m') && m'.pc == |CodeNegate(x, t, g).code|
    ensures Get(m', t) == UnaryValue(c.engine, Negate, IsLiteral(x), Eval(x, c))
    decreases Size(x), 4
  {
    if IsLiteral(x) && (x.atom.v.Int? || x.atom.v.Real?) {
      var v := UnaryValue(c.engine, Negate, true, x.atom.v);
      Begin(UsesOf(x), {t}, p, c, g, m);
      Fetch(g, OpLoad(v, t), p, m);
      DoLoad(v, t, p, c, m);
      RanPut(UsesOf(x), {t}, t, v, p, c, g, m, m);
      m' := Put(m, t, v);
    } else {
      m' := MinusCorrect(x, t, g, p, c, m);
    }
  }

  lemma {:induction false} MinusCorrect(x: Expr, t: int, g: Gen, p: Program, c: Context, m: Machine)
      returns (m': Machine)
    requires CanInto(x, t, c, g, m) && Fits(CodeMinus(x, t, g), p)
    ensures Ran(UsesOf(x), {t}, p, c, g, m, m') && m'.pc == |CodeMinus(x, t, g).code|
    ensures Get(m', t) == c.engine.arith(Subtract, Int(0), Eval(x, c))
    decreases Size(x), 3
  {
    var z := GetTemp(g);
    ZeroReady(x, c, g, m);
    var a := CodeTemp(x, Emit(z.g, OpLoad(Int(0), z.reg)));
    var i := BinaryInstr(Arith(Subtract), z.reg, a.reg, t);
    LastFits(a.g, i, z.reg, a.free, p);
    var m1 := LoadTempCorrect(x, z.reg, Int(0), {}, g, z.g, p, c, m);
    assert At(i, p, m1);
    m' := BinaryTail(UsesOf(x), {t}, Arith(Subtract), z.reg, a.reg, t, p, c, g, m, m1);
  }

  /** The temporary that will hold the zero is none of the registers the operand reads. */
  lemma ZeroReady(x: Expr, c: Context, g: Gen, m: Machine)
    requires Can(x, c, g, m)
    ensures var z := GetTemp(g);
      && z.reg !in UsesOf(x).regs && z.g.code == g.code && !Safe(g, z.reg) && Safe(z.g, z.reg)
      && Grows(g, Emit(z.g, OpLoad(Int(0), z.reg)))
  {
    TempGrows(g);
    EmitGrows(g, GetTemp(g).g, OpLoad(Int(0), GetTemp(g).reg));
  }

  /** Code that ends in one instruction and two released registers. */
  lemma LastFits(h: Gen, i: Instr, r: int, q: int, p: Program)
    requires Fits(Release(Release(Emit(h, i), r), q), p)
    ensures Fits(h, p) && |h.code| < |p.code| && p.code[|h.code|] == i
    ensures |Release(Release(Emit(h, i), r), q).code| == |h.code| + 1
  {
    ReleaseCode(Emit(h, i), r, p);
    ReleaseCode(Release(Emit(h, i), r), q, p);
    assert Emit(h, i).code[|h.code|] == i;
  }

  /** A constant is loaded into `r`, then an operand is coded. */
  lemma {:induction false} LoadTempCorrect(x: Expr, r: int, v: Value, own: set<int>, g: Gen, h: Gen, p: Program,
      c: Context, m: Machine) returns (m': Machine)
    requires Can(x, c, g, m) && r !in UsesOf(x).regs && h.code == g.code && (r in own || !Safe(g, r))
    requires Safe(h, r) && Grows(g, Emit(h, OpLoad(v, r))) && Fits(CodeTemp(x, Emit(h, OpLoad(v, r))).g, p)
    ensures Ran(UsesOf(x), own, p, c, g, m, m') && m'.pc == |CodeTemp(x, Emit(h, OpLoad(v, r))).g.code|
    ensures Get(m', CodeTemp(x, Emit(h, OpLoad(v, r))).reg) == Eval(x, c) && Get(m', r) == v
    decreases Size(x), 2, 0
  {
    var g1 := Emit(h, OpLoad(v, r));
    StaysSafe(g, g1, UsesOf(x).regs);
    TempShape(x, g1);
    FitsPart(g1, CodeTemp(x, g1).g, p);
    LoadThen(x, r, v, p, c, g, h, m);
    var m1 := Put(m, r, v);
    m' := TempCorrect(x, g1, p, c, m1);
    assert Safe(g1, r);
    RanMore(UsesOf(x), {}, own, p, c, g1, m1, m');
    RanAfterLoad(UsesOf(x), own, r, v, p, c, g, g1, m, m1, m');
  }

  /** A load into a register the tree does not read, emitted at `h` right after `g`. */
  lemma LoadThen(e: Expr, r: int, v: Value, p: Program, c: Context, g: Gen, h: Gen, m: Machine)
    requires Can(e, c, g, m) && r !in UsesOf(e).regs && h.code == g.code
    requires Grows(g, Emit(h, OpLoad(v, r))) && Fits(Emit(h, OpLoad(v, r)), p)
    ensures Reaches(p, c, m, Put(m, r, v)) && Can(e, c, Emit(h, OpLoad(v, r)), Put(m, r, v))
    ensures Get(Put(m, r, v), r) == v
  {
    Fetch(h, OpLoad(v, r), p, m);
    DoLoad(v, r, p, c, m);
    StaysSafe(g, Emit(h, OpLoad(v, r)), UsesOf(e).regs);
  }

  lemma {:induction false} IsNullCorrect(n: bool, x: Expr, t: int, g: Gen, p: Program, c: Context,
      m: Machine) returns (m': Machine)
    requires CanInto(x, t, c, g, m) && Fits(CodeIsNull(n, x, t, g), p)
    ensures Ran(UsesOf(x), {t}, p, c, g, m, m') && m'.pc == |CodeIsNull(n, x, t, g).code|
    ensures Get(m', t) == TriValue(OfBool(Eval(x, c).Null? != n))
    decreases Size(x), 3
  {
    var i := OpLoad(Int(1), t);
    Reflexive(g);
    EmitGrows(g, g, i);
    var a := CodeTemp(x, Emit(g, i));
    IsNullFits(n, a.reg, t, a.free, a.g, p);
    m' := IsNullRan(n, x, t, g, p, c, m);
  }

  lemma {:induction false} IsNullRan(n: bool, x: Expr, t: int, g: Gen, p: Program, c: Context, m: Machine)
      returns (m': Machine)
    requires CanInto(x, t, c, g, m) && Grows(g, Emit(g, OpLoad(Int(1), t)))
    requires var a := CodeTemp(x, Emit(g, OpLoad(Int(1), t)));
      && Fits(a.g, p) && |a.g.code| + 2 <= |p.code|
      && p.code[|a.g.code|] == NullTest(n, a.reg, |a.g.code| + 2) && p.code[|a.g.code| + 1] == OpAddImm(t, -1)
    ensures Ran(UsesOf(x), {t}, p, c, g, m, m')
    ensures m'.pc == |CodeTemp(x, Emit(g, OpLoad(Int(1), t))).g.code| + 2
    ensures Get(m', t) == TriValue(OfBool(Eval(x, c).Null? != n))
    decreases Size(x), 2, 1
  {
    var m1 := LoadTempCorrect(x, t, Int(1), {t}, g, g, p, c, m);
    m' := IsNullTail(UsesOf(x), n, CodeTemp(x, Emit(g, OpLoad(Int(1), t))).reg, t, p, c, g, m, m1);
  }

  lemma IsNullTail(u: Uses, n: bool, r: int, t: int, p: Program, c: Context, g: Gen, m: Machine, m1: Machine)
      returns (m': Machine)
    requires Ran(u, {t}, p, c, g, m, m1) && 0 <= m1.pc && m1.pc + 2 <= |p.code| && Get(m1, t) == Int(1)
    requires p.code[m1.pc] == NullTest(n, r, m1.pc + 2) && p.code[m1.pc + 1] == OpAddImm(t, -1)
    ensures Ran(u, {t}, p, c, g, m, m') && m'.pc == m1.pc + 2
    ensures Get(m', t) == TriValue(OfBool(Get(m1, r).Null? != n))
  {
    m' := DoIsNull(n, r, t, p, c, m1);
    RanBlock(u, {t}, t, p, c, g, m, m1, m');
  }

  lemma IsNullFits(n: bool, r: int, t: int, free: int, h: Gen, p: Program)
    requires Fits(Release(Emit(Emit(h, NullTest(n, r, |h.code| + 2)), OpAddImm(t, -1)), free), p)
    ensures Fits(h, p) && |h.code| + 2 <= |p.code|
    ensures |Release(Emit(Emit(h, NullTest(n, r, |h.code| + 2)), OpAddImm(t, -1)), free).code| == |h.code| + 2
    ensures p.code[|h.code|] == NullTest(n, r, |h.code| + 2) && p.code[|h.code| + 1] == OpAddImm(t, -1)
  {
    var k := Emit(Emit(h, NullTest(n, r, |h.code| + 2)), OpAddImm(t, -1));
    ReleaseCode(k, free, p);
    assert k.code[|h.code|] == NullTest(n, r, |h.code| + 2) && k.code[|h.code| + 1] == OpAddImm(t, -1);
  }

  // ----- BETWEEN -----

  lemma {:induction false} BetweenLowCorrect(x: Expr, y: Expr, g: Gen, p: Program, c: Context, m: Machine)
      returns (m': Machine)
    requires Can(x, c, g, m) && Can(y, c, g, m) && Apart(UsesOf(x), UsesOf(y))
    requires Fits(CodeBetweenLow(x, y, g).g, p)
    ensures Ran(Join(UsesOf(x), UsesOf(y)), {}, p, c, g, m, m') && m'.pc == |CodeBetweenLow(x, y, g).g.code|
    ensures Get(m', CodeBetweenLow(x, y, g).left) == Eval(x, c)
    ensures Get(m', CodeBetweenLow(x, y, g).r3) == TriValue(Compare3(c.engine, Ge, Eval(x, c), Eval(y, c)))
    decreases Size(x) + Size(y), 3
  {
    var q := CodePair(x, y, g);
    PairShape(x, y, g);
    var r := GetTemp(q.g).reg;
    BetweenLowFits(q.left, q.right, q.freeRight, q.g, p);
    assert !Safe(g, r);
    var m1 := PairCorrect(x, y, g, p, c, m);
    m' := BinaryTail(Join(UsesOf(x), UsesOf(y)), {}, Compare(Ge), q.left, q.right, r, p, c, g, m, m1);
  }

  lemma BetweenLowFits(left: int, right: int, free: int, h: Gen, p: Program)
    requires Inv(h)
    requires var k := GetTemp(GetTemp(h).g).g;
      Fits(Release(Emit(k, BinaryInstr(Compare(Ge), left, right, GetTemp(h).reg)), free), p)
    ensures Fits(h, p) && !Safe(h, GetTemp(h).reg) && GetTemp(GetTemp(h).g).g.code == h.code
    ensures |h.code| < |p.code| && p.code[|h.code|] == BinaryInstr(Compare(Ge), left, right, GetTemp(h).reg)
  {
    TempGrows(h);
    var k := GetTemp(h).g;
    TempGrows(k);
    var i := BinaryInstr(Compare(Ge), left, right, GetTemp(h).reg);
    ReleaseCode(Emit(GetTemp(k).g, i), free, p);
    assert Emit(GetTemp(k).g, i).code[|h.code|] == i;
  }

  lemma {:induction false} BetweenCorrect(x: Expr, y: Expr, z: Expr, t: int, g: Gen, p: Program, c: Context,
      m: Machine) returns (m': Machine)
    requires Can(x, c, g, m) && Can(y, c, g, m) && Can(z, c, g, m) && Safe(g, t)
    requires Apart(UsesOf(x), UsesOf(y)) && Apart(Join(UsesOf(x), UsesOf(y)), UsesOf(z))
    requires Fits(CodeBetween(x, y, z, t, g), p)
    ensures Ran(Join(Join(UsesOf(x), UsesOf(y)), UsesOf(z)), {t}, p, c, g, m, m')
    ensures m'.pc == |CodeBetween(x, y, z, t, g).code|
    ensures Get(m', t) == TriValue(Between3(c.engine, Eval(x, c), Eval(y, c), Eval(z, c)))
    decreases Size(x) + Size(y) + Size(z), 5
  {
    BetweenStages(x, y, z, t, g, p);
    m' := BetweenRan(x, y, z, t, g, p, c, m);
  }

  lemma {:induction false} BetweenRan(x: Expr, y: Expr, z: Expr, t: int, g: Gen, p: Program, c: Context,
      m: Machine) returns (m': Machine)
    requires Can(x, c, g, m) && Can(y, c, g, m) && Can(z, c, g, m)
    requires Apart(UsesOf(x), UsesOf(y)) && Apart(Join(UsesOf(x), UsesOf(y)), UsesOf(z))
    requires BetweenEnds(CodeBetweenLow(x, y, g), z, t, p)
    ensures Ran(Join(Join(UsesOf(x), UsesOf(y)), UsesOf(z)), {t}, p, c, g, m, m')
    ensures m'.pc == |CodeTemp(z, CodeBetweenLow(x, y, g).g).g.code| + 2
    ensures Get(m', t) == TriValue(Between3(c.engine, Eval(x, c), Eval(y, c), Eval(z, c)))
    decreases Size(x) + Size(y) + Size(z), 4, 1
  {
    var f := CodeBetweenLow(x, y, g);
    var m2 := BetweenOperands(x, y, z, g, p, c, m);
    var u := Join(Join(UsesOf(x), UsesOf(y)), UsesOf(z));
    var r := CodeTemp(z, f.g).reg;
    assert BetweenSet(Eval(x, c), Eval(y, c), Eval(z, c), f, r, t, p, c, g, m2);
    m' := BetweenTail(u, Eval(x, c), Eval(y, c), Eval(z, c), f, r, t, p, c, g, m, m2);
  }

  /** The two instructions after the operands. */
  ghost predicate BetweenEnds(f: Half, z: Expr, t: int, p: Program) {
    var b := CodeTemp(z, f.g);
    && Fits(b.g, p) && |b.g.code| + 2 <= |p.code|
    && p.code[|b.g.code|] == BinaryInstr(Compare(Le), f.left, b.reg, f.r4)
    && p.code[|b.g.code| + 1] == BinaryInstr(And, f.r4, f.r3, t)
  }

  lemma BetweenStages(x: Expr, y: Expr, z: Expr, t: int, g: Gen, p: Program)
    requires Fits(CodeBetween(x, y, z, t, g), p)
    ensures BetweenEnds(CodeBetweenLow(x, y, g), z, t, p)
    ensures |CodeBetween(x, y, z, t, g).code| == |CodeTemp(z, CodeBetweenLow(x, y, g).g).g.code| + 2
  {
    var f := CodeBetweenLow(x, y, g);
    var b := CodeTemp(z, f.g);
    BetweenFits(f, b.reg, b.free, t, b.g, p);
  }

  lemma {:induction false} BetweenOperands(x: Expr, y: Expr, z: Expr, g: Gen, p: Program, c: Context,
      m: Machine) returns (m': Machine)
    requires Can(x, c, g, m) && Can(y, c, g, m) && Can(z, c, g, m)
    requires Apart(UsesOf(x), UsesOf(y)) && Apart(Join(UsesOf(x), UsesOf(y)), UsesOf(z))
    requires Fits(CodeTemp(z, CodeBetweenLow(x, y, g).g).g, p)
    ensures var f := CodeBetweenLow(x, y, g);
      && Ran(Join(Join(UsesOf(x), UsesOf(y)), UsesOf(z)), {}, p, c, g, m, m') && m'.pc == |CodeTemp(z, f.g).g.code|
      && Get(m', f.left) == Eval(x, c) && Get(m', CodeTemp(z, f.g).reg) == Eval(z, c)
      && Get(m', f.r3) == TriValue(Compare3(c.engine, Ge, Eval(x, c), Eval(y, c)))
      && f.r3 != f.r4 && f.left != f.r4 && !Safe(g, f.r4)
    decreases Size(x) + Size(y) + Size(z), 4, 0
  {
    var u := Join(UsesOf(x), UsesOf(y));
    var f := CodeBetweenLow(x, y, g);
    BetweenLowShape(x, y, g);
    StaysSafe(g, f.g, UsesOf(z).regs);
    TempShape(z, f.g);
    FitsPart(f.g, CodeTemp(z, f.g).g, p);
    var m1 := BetweenLowCorrect(x, y, g, p, c, m);
    CanNext(z, u, {}, p, c, g, f.g, m, m1);
    m' := TempCorrect(z, f.g, p, c, m1);
    SitesOwned(x);
    SitesOwned(y);
    RanTwice(u, UsesOf(z), {}, {}, p, c, g, f.g, m, m1, m');
  }

  lemma BetweenTail(u: Uses, vx: Value, vy: Value, vz: Value, f: Half, r: int, t: int, p: Program, c: Context,
      g: Gen, m: Machine, m1: Machine) returns (m': Machine)
    requires Ran(u, {}, p, c, g, m, m1) && BetweenSet(vx, vy, vz, f, r, t, p, c, g, m1)
    ensures Ran(u, {t}, p, c, g, m, m') && m'.pc == m1.pc + 2
    ensures Get(m', t) == TriValue(Between3(c.engine, vx, vy, vz))
  {
    var m2 := BinaryTail(u, {}, Compare(Le), f.left, r, f.r4, p, c, g, m, m1);
    m' := BinaryTail(u, {t}, And, f.r4, f.r3, t, p, c, g, m, m2);
    Truths(c.engine, Compare3(c.engine, Ge, vx, vy), Compare3(c.engine, Le, vx, vz));
  }

  /** The operands are in their registers and the last two instructions are next. */
  ghost predicate BetweenSet(vx: Value, vy: Value, vz: Value, f: Half, r: int, t: int, p: Program, c: Context,
      g: Gen, m: Machine) {
    && Get(m, f.left) == vx && Get(m, r) == vz && Get(m, f.r3) == TriValue(Compare3(c.engine, Ge, vx, vy))
    && f.r3 != f.r4 && !Safe(g, f.r4) && 0 <= m.pc && m.pc + 2 <= |p.code|
    && p.code[m.pc] == BinaryInstr(Compare(Le), f.left, r, f.r4) && p.code[m.pc + 1] == BinaryInstr(And, f.r4, f.r3, t)
  }

  /** A stored truth value is read back as itself. */
  lemma Truths(k: Engine, a: Tri, b: Tri)
    ensures IntTruth(k, TriValue(a)) == a && And3(IntTruth(k, TriValue(b)), IntTruth(k, TriValue(a))) == And3(a, b)
  {
  }

  lemma BetweenFits(f: Half, r: int, free: int, t: int, h: Gen, p: Program)
    requires Fits(FreeBetween(f, free,
      Emit(Emit(h, OpStoreCompare(Le, r, f.r4, f.left, false)), OpLogic(true, f.r3, f.r4, t))), p)
    ensures Fits(h, p) && |h.code| + 2 <= |p.code|
    ensures p.code[|h.code|] == BinaryInstr(Compare(Le), f.left, r, f.r4)
    ensures p.code[|h.code| + 1] == BinaryInstr(And, f.r4, f.r3, t)
  {
    var k := Emit(Emit(h, OpStoreCompare(Le, r, f.r4, f.left, false)), OpLogic(true, f.r3, f.r4, t));
    assert FreeBetween(f, free, k).code == k.code && FreeBetween(f, free, k).labels == k.labels;
    assert k.code[|h.code|] == OpStoreCompare(Le, r, f.r4, f.left, false) &&
      k.code[|h.code| + 1] == OpLogic(true, f.r3, f.r4, t);
  }

  // ----- COALESCE -----

  /** Code that makes a label, reaches `g1`, goes on to `g2` and resolves the label there. */
  lemma LabelStages(g: Gen, g1: Gen, g2: Gen, p: Program)
    requires Inv(g) && Grows(MakeLabel(g), g1) && Grows(g1, g2) && Fits(Resolve(g2, NewLabel(g)), p)
    ensures Grows(g, g1) && Fits(g1, p) && Fits(g2, p) && Address(p, NewLabel(g)) == |g2.code|
  {
    LabelGrows(g);
    Chain(g, MakeLabel(g), g1);
    LabelAfter(g, g1, g2);
    FitsPart(g2, Resolve(g2, NewLabel(g)), p);
    FitsPart(g1, g2, p);
    LabelAddress(g2, NewLabel(g), p);
  }

  lemma {:induction false} CoalesceCorrect(x: Expr, l: Exprs, t: int, g: Gen, p: Program, c: Context,
      m: Machine) returns (m': Machine)
    requires CanInto(x, t, c, g, m) && DistinctAll(l) && Live(UsesAll(l), c, g, m)
    requires Apart(UsesOf(x), UsesAll(l)) && t !in UsesAll(l).regs && Fits(CodeCoalesce(x, l, t, g), p)
    ensures Ran(Join(UsesOf(x), UsesAll(l)), {t}, p, c, g, m, m') && m'.pc == |CodeCoalesce(x, l, t, g).code|
    ensures Get(m', t) == if Eval(x, c).Null? then FirstNonNull(l, c) else Eval(x, c)
    decreases Size(x) + SizeAll(l), 4
  {
    var g1 := MakeLabel(g);
    var g2 := CodeInto(x, t, g1);
    CoalesceStages(x, l, t, g, p);
    var m1 := IntoCorrect(x, t, g1, p, c, m);
    RanEarlier(UsesOf(x), {t}, p, c, g, g1, m, m1);
    SitesAllOwned(l);
    LiveAfter(UsesAll(l), c, g, g2, {t}, UsesOf(x).ids, m, m1);
    m' := AlternativesCorrect(l, t, NewLabel(g), g2, p, c, m1);
    SitesOwned(x);
    RanTwice(UsesOf(x), UsesAll(l), {t}, {t}, p, c, g, g2, m, m1, m');
  }

  lemma CoalesceStages(x: Expr, l: Exprs, t: int, g: Gen, p: Program)
    requires Ready(g, UsesOf(x).regs, t) && Ready(g, UsesAll(l).regs, t) && Fits(CodeCoalesce(x, l, t, g), p)
    ensures var g2 := CodeInto(x, t, MakeLabel(g));
      var g3 := CodeAlternatives(l, t, NewLabel(g), g2);
      && Grows(g, MakeLabel(g)) && AllSafe(MakeLabel(g), UsesOf(x).regs) && Grows(g, g2) && Fits(g2, p) && Fits(g3, p)
      && Address(p, NewLabel(g)) == |g3.code| && |CodeCoalesce(x, l, t, g).code| == |g3.code|
  {
    var g1 := MakeLabel(g);
    LabelSafe(g, UsesOf(x).regs, UsesAll(l).regs);
    IntoShape(x, t, g1);
    var g2 := CodeInto(x, t, g1);
    StaysSafe(g1, g2, UsesAll(l).regs);
    AlternativesShape(l, t, NewLabel(g), g2);
    LabelStages(g, g2, CodeAlternatives(l, t, NewLabel(g), g2), p);
  }

  lemma {:induction false} AlternativesCorrect(l: Exprs, t: int, end: int, g: Gen, p: Program, c: Context,
      m: Machine) returns (m': Machine)
    requires Inv(g) && Safe(g, t) && m.pc == |g.code| && DistinctAll(l) && Live(UsesAll(l), c, g, m)
    requires t !in UsesAll(l).regs && Fits(CodeAlternatives(l, t, end, g), p)
    requires Address(p, end) == |CodeAlternatives(l, t, end, g).code|
    ensures Ran(UsesAll(l), {t}, p, c, g, m, m') && m'.pc == |CodeAlternatives(l, t, end, g).code|
    ensures Get(m', t) == if Get(m, t).Null? then FirstNonNull(l, c) else Get(m, t)
    decreases SizeAll(l), 0
  {
    Begin(UsesAll(l), {t}, p, c, g, m);
    match l
    case Nil => m' := m;
    case Cons(x, rest) =>
      var g1 := Emit(g, OpNotNull(t, end));
      Reflexive(g);
      EmitGrows(g, g, OpNotNull(t, end));
      StaysSafe(g, g1, UsesAll(l).regs);
      IntoShape(x, t, g1);
      var g2 := CodeInto(x, t, g1);
      Chain(g, g1, g2);
      StaysSafe(g, g2, UsesAll(l).regs);
      AlternativesShape(rest, t, end, g2);
      FitsPart(g2, CodeAlternatives(rest, t, end, g2), p);
      FitsPart(g1, g2, p);
      Fetch(g, OpNotNull(t, end), p, m);
      DoNullTest(true, t, end, p, c, m);
      if !Get(m, t).Null? {
        RanGo(UsesAll(l), {t}, Address(p, end), p, c, g, m, m);
        m' := m.(pc := Address(p, end));
      } else {
        m' := AlternativesNext(x, rest, t, end, g, p, c, m);
      }
  }

  lemma {:induction false} AlternativesNext(x: Expr, rest: Exprs, t: int, end: int, g: Gen, p: Program,
      c: Context, m: Machine) returns (m': Machine)
    requires Inv(g) && Safe(g, t) && m.pc == |g.code| && DistinctAll(Cons(x, rest))
    requires Live(UsesAll(Cons(x, rest)), c, g, m)
    requires t !in UsesAll(Cons(x, rest)).regs && Reaches(p, c, m, m.(pc := m.pc + 1))
    requires var g1 := Emit(g, OpNotNull(t, end)); var g2 := CodeInto(x, t, g1);
      && Grows(g, g1) && Grows(g1, g2) && Grows(g, g2) && Fits(g2, p)
      && Fits(CodeAlternatives(rest, t, end, g2), p) && Address(p, end) == |CodeAlternatives(rest, t, end, g2).code|
    ensures var g2 := CodeInto(x, t, Emit(g, OpNotNull(t, end)));
      m'.pc == |CodeAlternatives(rest, t, end, g2).code|
    ensures Ran(UsesAll(Cons(x, rest)), {t}, p, c, g, m, m') && Get(m', t) == FirstNonNull(Cons(x, rest), c)
    decreases SizeAll(Cons(x, rest)), 0, 0
  {
    var u, v := UsesOf(x), UsesAll(rest);
    var g2 := CodeInto(x, t, Emit(g, OpNotNull(t, end)));
    var m1 := AlternativeCorrect(x, t, end, g, p, c, m);
    SitesAllOwned(rest);
    LiveAfter(v, c, g, g2, {t}, u.ids, m, m1);
    m' := AlternativesCorrect(rest, t, end, g2, p, c, m1);
    SitesOwned(x);
    RanTwice(u, v, {t}, {t}, p, c, g, g2, m, m1, m');
  }

  /** The next alternative, after the test in front of it has fallen through. */
  lemma {:induction false} AlternativeCorrect(x: Expr, t: int, end: int, g: Gen, p: Program, c: Context,
      m: Machine) returns (m': Machine)
    requires CanInto(x, t, c, g, m) && Reaches(p, c, m, m.(pc := m.pc + 1))
    requires Grows(g, Emit(g, OpNotNull(t, end))) && Fits(CodeInto(x, t, Emit(g, OpNotNull(t, end))), p)
    ensures Ran(UsesOf(x), {t}, p, c, g, m, m') && m'.pc == |CodeInto(x, t, Emit(g, OpNotNull(t, end))).code|
    ensures Get(m', t) == Eval(x, c)
    decreases Size(x), 2
  {
    var g1, m0 := Emit(g, OpNotNull(t, end)), m.(pc := m.pc + 1);
    StaysSafe(g, g1, UsesOf(x).regs);
    m' := IntoCorrect(x, t, g1, p, c, m0);
    RanEarlier(UsesOf(x), {t}, p, c, g, g1, m0, m');
    Transitive(p, c, m, m0, m');
  }

  // ----- functions -----

  ghost predicate Inside(x: int, first: int, n: nat) {
    first <= x < first + n
  }

  ghost function Block(first: int, n: nat): set<int> {
    set x | first <= x < first + n && Inside(x, first, n)
  }

  lemma {:induction false} CallCorrect(f: string, l: Exprs, t: int, g: Gen, p: Program, c: Context,
      m: Machine) returns (m': Machine)
    requires Inv(g) && Safe(g, t) && m.pc == |g.code| && DistinctAll(l) && Live(UsesAll(l), c, g, m)
    requires Fits(CodeCall(f, l, t, g), p)
    ensures Ran(UsesAll(l), {t}, p, c, g, m, m') && m'.pc == |CodeCall(f, l, t, g).code|
    ensures Get(m', t) == c.engine.call(f, EvalAll(l, c))
    decreases SizeAll(l), 2
  {
    var u := UsesAll(l);
    if l.Nil? {
      Begin(u, {t}, p, c, g, m);
      Fetch(g, OpFunction(f, 0, 0, t), p, m);
      m' := CallTail(u, f, 0, 0, t, p, c, g, m, m);
    } else {
      var n := Length(l);
      var r := GetRange(g, n);
      CallStages(f, l, t, g, p);
      var g1 := CodeArgs(l, r.reg, r.g);
      var m1 := ArgsCorrect(l, r.reg, r.g, p, c, m);
      RanRange(u, r.reg, n, t, p, c, g, r.g, m, m1);
      m' := CallTail(u, f, r.reg, n, t, p, c, g, m, m1);
    }
  }

  lemma CallStages(f: string, l: Exprs, t: int, g: Gen, p: Program)
    requires Inv(g) && AllSafe(g, UsesAll(l).regs) && l.Cons? && Fits(CodeCall(f, l, t, g), p)
    ensures var n := Length(l);
      var r := GetRange(g, n);
      var g1 := CodeArgs(l, r.reg, r.g);
      && Grows(g, r.g) && AllSafe(r.g, UsesAll(l).regs) && r.g.code == g.code && Fits(g1, p)
      && (forall x :: r.reg <= x < r.reg + n ==> Safe(r.g, x) && !Safe(g, x))
      && |CodeCall(f, l, t, g).code| == |g1.code| + 1 <= |p.code| && p.code[|g1.code|] == OpFunction(f, r.reg, n, t)
  {
    var n := Length(l);
    var r := GetRange(g, n);
    RangeGrows(g, n);
    StaysSafe(g, r.g, UsesAll(l).regs);
    var g1 := CodeArgs(l, r.reg, r.g);
    var i := OpFunction(f, r.reg, n, t);
    assert Fits(Emit(g1, i), p) && Emit(g1, i).code[|g1.code|] == i;
  }

  lemma CallTail(u: Uses, f: string, first: int, n: nat, t: int, p: Program, c: Context, g: Gen, m: Machine,
      m1: Machine) returns (m': Machine)
    requires Ran(u, {t}, p, c, g, m, m1) && At(OpFunction(f, first, n, t), p, m1)
    ensures Ran(u, {t}, p, c, g, m, m') && m'.pc == m1.pc + 1 && Get(m', t) == c.engine.call(f, Span(m1, first, n))
  {
    var v := c.engine.call(f, Span(m1, first, n));
    DoCall(f, first, n, t, p, c, m1);
    RanPut(u, {t}, t, v, p, c, g, m, m1);
    m' := Put(m1, t, v);
  }

  /** A block of registers taken after `g` does not count at `g`. */
  lemma RanRange(u: Uses, first: int, n: nat, t: int, p: Program, c: Context, g: Gen, h: Gen, m: Machine, m': Machine)
    requires Ran(u, Block(first, n), p, c, h, m, m') && Grows(g, h)
    requires forall x :: first <= x < first + n ==> !Safe(g, x)
    ensures Ran(u, {t}, p, c, g, m, m')
  {
  }

  lemma {:induction false} ArgsCorrect(l: Exprs, first: int, g: Gen, p: Program, c: Context, m: Machine)
      returns (m': Machine)
    requires Inv(g) && m.pc == |g.code| && DistinctAll(l) && Live(UsesAll(l), c, g, m)
    requires forall x :: first <= x < first + Length(l) ==> Safe(g, x) && x !in UsesAll(l).regs
    requires Fits(CodeArgs(l, first, g), p)
    ensures Ran(UsesAll(l), Block(first, Length(l)), p, c, g, m, m') && m'.pc == |CodeArgs(l, first, g).code|
    ensures Span(m', first, Length(l)) == EvalAll(l, c)
    decreases SizeAll(l), 1
  {
    match l
    case Nil => Begin(UsesAll(l), {}, p, c, g, m); m' := m;
    case Cons(x, rest) =>
      ArgsStages(x, rest, first, g, p);
      m' := ArgsNext(x, rest, first, g, p, c, m);
      SpanFirst(m', first, Length(rest));
  }

  lemma SpanFirst(m: Machine, first: int, n: nat)
    ensures Span(m, first, 1 + n) == [Get(m, first)] + Span(m, first + 1, n)
  {
  }

  lemma {:induction false} ArgsNext(x: Expr, rest: Exprs, first: int, g: Gen, p: Program, c: Context, m: Machine)
      returns (m': Machine)
    requires CanInto(x, first, c, g, m) && DistinctAll(rest) && Live(UsesAll(rest), c, g, m)
    requires Apart(UsesOf(x), UsesAll(rest)) && first !in UsesAll(rest).regs
    requires forall r :: first + 1 <= r < first + 1 + Length(rest) ==> r !in UsesAll(rest).regs
    requires var h := ArgTarget(x, first, g);
      && Grows(g, h) && Fits(h, p) && Fits(CodeArgs(rest, first + 1, h), p)
      && forall r :: first + 1 <= r < first + 1 + Length(rest) ==> Safe(h, r)
    ensures Ran(Join(UsesOf(x), UsesAll(rest)), Block(first, 1 + Length(rest)), p, c, g, m, m')
    ensures m'.pc == |CodeArgs(rest, first + 1, ArgTarget(x, first, g)).code|
    ensures Get(m', first) == Eval(x, c) && Span(m', first + 1, Length(rest)) == EvalAll(rest, c)
    decreases SizeAll(Cons(x, rest)), 0
  {
    var u, v, h := UsesOf(x), UsesAll(rest), ArgTarget(x, first, g);
    var m1 := ArgCorrect(x, first, g, p, c, m);
    SitesAllOwned(rest);
    LiveAfter(v, c, g, h, {first}, u.ids, m, m1);
    m' := ArgsCorrect(rest, first + 1, h, p, c, m1);
    SitesOwned(x);
    ArgsJoin(u, v, first, Length(rest), p, c, g, h, m, m1, m');
  }

  lemma ArgsStages(x: Expr, rest: Exprs, first: int, g: Gen, p: Program)
    requires Inv(g) && AllSafe(g, UsesOf(x).regs) && AllSafe(g, UsesAll(rest).regs)
    requires forall r :: first <= r < first + 1 + Length(rest) ==>
      Safe(g, r) && r !in UsesOf(x).regs && r !in UsesAll(rest).regs
    requires Fits(CodeArgs(rest, first + 1, ArgTarget(x, first, g)), p)
    ensures var h := ArgTarget(x, first, g);
      && Grows(g, h) && AllSafe(h, UsesAll(rest).regs) && Fits(h, p) && Safe(g, first)
      && forall r :: first + 1 <= r < first + 1 + Length(rest) ==> Safe(h, r)
  {
    assert Safe(g, first) && first !in UsesOf(x).regs;
    var h := ArgTarget(x, first, g);
    ArgShape(x, first, g);
    StaysSafe(g, h, UsesAll(rest).regs);
    ArgsShape(rest, first + 1, h);
    FitsPart(h, CodeArgs(rest, first + 1, h), p);
  }

  lemma ArgsJoin(u: Uses, v: Uses, first: int, n: nat, p: Program, c: Context, g: Gen, h: Gen, m: Machine,
      m1: Machine, m2: Machine)
    requires Ran(u, {first}, p, c, g, m, m1) && Ran(v, Block(first + 1, n), p, c, h, m1, m2)
    requires Grows(g, h) && Owned(u) && Apart(u, v) && Safe(g, first)
    ensures Ran(Join(u, v), Block(first, n + 1), p, c, g, m, m2) && Get(m2, first) == Get(m1, first)
  {
    assert Inside(first, first, n + 1);
    assert Block(first + 1, n) <= Block(first, n + 1);
    RanMore(u, {first}, Block(first, n + 1), p, c, g, m, m1);
    RanTwice(u, v, Block(first, n + 1), Block(first + 1, n), p, c, g, h, m, m1, m2);
  }

  lemma {:induction false} ArgCorrect(x: Expr, first: int, g: Gen, p: Program, c: Context, m: Machine)
      returns (m': Machine)
    requires CanInto(x, first, c, g, m) && Fits(ArgTarget(x, first, g), p)
    ensures Ran(UsesOf(x), {first}, p, c, g, m, m') && m'.pc == |ArgTarget(x, first, g).code|
    ensures Get(m', first) == Eval(x, c)
    decreases Size(x), 1
  {
    var o := CodeTarget(x, first, g);
    m' := TargetCorrect(x, first, g, p, c, m);
    if o.reg != first {
      Fetch(o.g, OpCopy(o.reg, first), p, m');
      m' := CopyTail(UsesOf(x), OpCopy(o.reg, first), o.reg, first, p, c, g, m, m');
    }
  }

  // ----- CASE -----

  lemma {:induction false} CaseCorrect(w: Whens, t: int, g: Gen, p: Program, c: Context, m: Machine)
      returns (m': Machine)
    requires Inv(g) && Safe(g, t) && m.pc == |g.code| && DistinctWhens(w) && Live(UsesWhens(w), c, g, m)
    requires t !in UsesWhens(w).regs && Fits(CodeCase(w, t, g), p)
    ensures Ran(UsesWhens(w), {t}, p, c, g, m, m') && m'.pc == |CodeCase(w, t, g).code| && Get(m', t) == Choose(w, c)
    decreases SizeWhens(w), 3
  {
    var g1 := MakeLabel(g);
    LabelSafe(g, UsesWhens(w).regs, {});
    WhensShape(0, w, t, NewLabel(g), g1);
    var g2 := CodeWhens(0, w, t, NewLabel(g), g1);
    Reflexive(g2);
    LabelAfter(g, g2, g2);
    FitsPart(g2, Resolve(g2, NewLabel(g)), p);
    LabelAddress(g2, NewLabel(g), p);
    m' := WhensCorrect(0, w, t, NewLabel(g), g1, p, c, m);
    RanEarlier(UsesWhens(w), {t}, p, c, g, g1, m, m');
  }

  lemma {:induction false} CaseOfCorrect(x: Expr, w: Whens, t: int, g: Gen, p: Program, c: Context,
      m: Machine) returns (m': Machine)
    requires CanInto(x, t, c, g, m) && DistinctWhens(w) && Live(UsesWhens(w), c, g, m) && Apart(UsesOf(x), UsesWhens(w))
    requires t !in UsesWhens(w).regs && Fits(CodeCaseOf(x, w, t, g), p)
    ensures Ran(Join(UsesOf(x), UsesWhens(w)), {t}, p, c, g, m, m') && m'.pc == |CodeCaseOf(x, w, t, g).code|
    ensures Get(m', t) == ChooseEqual(Eval(x, c), w, c)
    decreases Size(x) + SizeWhens(w), 3
  {
    var g1 := MakeLabel(g);
    var a := CodeTemp(x, g1);
    CaseOfStages(x, w, t, g, p);
    SitesOwned(x);
    var m1 := TempCorrect(x, g1, p, c, m);
    RanEarlier(UsesOf(x), {}, p, c, g, g1, m, m1);
    m' := BaseCorrect(UsesOf(x), a.reg, Eval(x, c), w, t, NewLabel(g), g, a.g, p, c, m, m1);
  }

  /** The states while a CASE with an operand is coded. */
  lemma {:induction false} CaseOfStages(x: Expr, w: Whens, t: int, g: Gen, p: Program)
    requires Ready(g, UsesOf(x).regs, t) && Ready(g, UsesWhens(w).regs, t) && Fits(CodeCaseOf(x, w, t, g), p)
    ensures var a := CodeTemp(x, MakeLabel(g));
      var h := CodeWhens(a.reg, w, t, NewLabel(g), a.g);
      && Grows(g, MakeLabel(g)) && AllSafe(MakeLabel(g), UsesOf(x).regs)
      && Grows(g, a.g) && Fits(a.g, p) && Safe(a.g, a.reg) && a.reg != t && a.reg != 0
      && Fits(h, p) && Address(p, NewLabel(g)) == |h.code| && |CodeCaseOf(x, w, t, g).code| == |h.code|
  {
    LabelSafe(g, UsesOf(x).regs, UsesWhens(w).regs);
    var g1 := MakeLabel(g);
    TempShape(x, g1);
    var a := CodeTemp(x, g1);
    Chain(g, g1, a.g);
    StaysSafe(g1, a.g, UsesWhens(w).regs);
    TempNot(x, g1, t);
    WhensShape(a.reg, w, t, NewLabel(g), a.g);
    var h := CodeWhens(a.reg, w, t, NewLabel(g), a.g);
    LabelAfter(g, a.g, h);
    FitsPart(h, Resolve(h, NewLabel(g)), p);
    FitsPart(a.g, h, p);
    LabelAddress(h, NewLabel(g), p);
  }

  /** With the operand's value `v` in register `r`, the clauses compare against it. */
  lemma {:induction false} BaseCorrect(u: Uses, r: int, v: Value, w: Whens, t: int, end: int, g: Gen, h: Gen,
      p: Program, c: Context, m: Machine, m1: Machine) returns (m': Machine)
    requires Ran(u, {}, p, c, g, m, m1) && m1.pc == |h.code| && Grows(g, h) && Safe(h, r) && r != t && r != 0
    requires Get(m1, r) == v
    requires Safe(g, t) && DistinctWhens(w) && Live(UsesWhens(w), c, g, m) && Owned(u) && Apart(u, UsesWhens(w))
    requires t !in UsesWhens(w).regs && Fits(CodeWhens(r, w, t, end, h), p)
    requires Address(p, end) == |CodeWhens(r, w, t, end, h).code|
    ensures Ran(Join(u, UsesWhens(w)), {t}, p, c, g, m, m') && m'.pc == |CodeWhens(r, w, t, end, h).code|
    ensures Get(m', t) == ChooseEqual(v, w, c)
    decreases SizeWhens(w), 3
  {
    var z := UsesWhens(w);
    SitesWhensOwned(w);
    LiveAfter(z, c, g, h, {}, u.ids, m, m1);
    PinLive(z, r, v, c, h, m1);
    m' := WhensCorrect(r, w, t, end, h, p, Pin(c, r, v), m1);
    PinRan(z, {t}, p, Pin(c, r, v), c, h, m1, m');
    ChooseDepends(w, v, c, Pin(c, r, v));
    RanMore(u, {}, {t}, p, c, g, m, m1);
    RanTwice(u, z, {t}, {t}, p, c, g, h, m, m1, m');
  }

  /** The context in which register `r` stands for value `v`. */
  ghost function Pin(c: Context, r: int, v: Value): Context {
    c.(pins := c.pins[r := v])
  }

  /** Pinning the register that holds the value keeps other trees ready to run. */
  lemma PinLive(u: Uses, r: int, v: Value, c: Context, g: Gen, m: Machine)
    requires Live(u, c, g, m) && Owned(u) && Get(m, r) == v
    ensures Live(u, Pin(c, r, v), g, m) && Agree(c, Pin(c, r, v), u.regs, true)
  {
    PinCurrent(u, c, Pin(c, r, v), m);
  }

  /** The clauses from `w` on; with a base register the tests compare against it. */
  lemma {:induction false} WhensCorrect(base: int, w: Whens, t: int, end: int, g: Gen, p: Program, c: Context,
      m: Machine) returns (m': Machine)
    requires Inv(g) && Safe(g, t) && m.pc == |g.code| && DistinctWhens(w) && Live(UsesWhens(w), c, g, m)
    requires t !in UsesWhens(w).regs && (base != 0 ==> base != t && Live(Uses({base}, {}, {}), c, g, m))
    requires Fits(CodeWhens(base, w, t, end, g), p) && Address(p, end) == |CodeWhens(base, w, t, end, g).code|
    ensures Ran(UsesWhens(w), {t}, p, c, g, m, m') && m'.pc == |CodeWhens(base, w, t, end, g).code|
    ensures Get(m', t) == if base == 0 then Choose(w, c) else ChooseEqual(c.pins[base], w, c)
    decreases SizeWhens(w), 2
  {
    match w
    case Else(x) => m' := IntoCorrect(x, t, g, p, c, m);
    case When(test, x, more) =>
      var g1, g2, g3 := WhenStages(base, w, t, end, g);
      WhenFits(base, w, t, end, g, g1, g2, g3, p);
      var m1 := WhenTest(base, test, g, p, c, m);
      if Cond(CaseTest(base, test), c) == True {
        m' := ThenCorrect(test, x, more, t, end, g, g1, p, c, m, m1);
      } else {
        m' := NextCorrect(base, test, x, more, t, end, g, g3, p, c, m, m1);
      }
      TestCond(base, test, c);
  }

  /** The test of one clause, which jumps to the next one unless it is true. */
  lemma {:induction false} WhenTest(base: int, test: Expr, g: Gen, p: Program, c: Context, m: Machine)
      returns (m': Machine)
    requires Can(test, c, g, m) && (base != 0 ==> Live(Uses({base}, {}, {}), c, g, m))
    requires Fits(IfFalse(CaseTest(base, test), NewLabel(g), true, MakeLabel(g)), p)
    ensures Ran(UsesOf(test), {}, p, c, g, m, m')
    ensures m'.pc == Landing(p, Cond(CaseTest(base, test), c) != True, NewLabel(g),
      |IfFalse(CaseTest(base, test), NewLabel(g), true, MakeLabel(g)).code|)
    decreases Size(test) + 2, 6
  {
    var e := CaseTest(base, test);
    TestUses(base, test);
    LabelSafe(g, UsesOf(e).regs, {});
    m' := IfFalseCorrect(e, NewLabel(g), true, MakeLabel(g), p, c, m);
    RanEarlier(UsesOf(e), {}, p, c, g, MakeLabel(g), m, m');
  }

  lemma WhenFits(base: int, w: Whens, t: int, end: int, g: Gen, g1: Gen, g2: Gen, g3: Gen, p: Program)
    requires w.When? && Kept(g1, g2) && Kept(g2, g3) && g3 == Resolve(g2, NewLabel(g)) && Inv(g)
    requires Kept(g3, CodeWhens(base, w.more, t, end, g3)) && Fits(CodeWhens(base, w.more, t, end, g3), p)
    ensures Fits(g1, p) && Fits(g2, p) && Address(p, NewLabel(g)) == |g3.code|
  {
    FitsPart(g3, CodeWhens(base, w.more, t, end, g3), p);
    FitsPart(g2, g3, p);
    FitsPart(g1, g2, p);
    LabelAddress(g2, NewLabel(g), p);
  }

  lemma TestCond(base: int, test: Expr, c: Context)
    requires base != 0 ==> base in c.pins
    ensures Cond(CaseTest(base, test), c) ==
            if base == 0 then Cond(test, c) else Compare3(c.engine, Eq, c.pins[base], Eval(test, c))
  {
    assert Eval(Leaf(Register(base)), c) == AtomValue(Register(base), c);
  }

  /** The states while one WHEN clause is coded: after its test, after its jump to the end, after its label. */
  lemma {:induction false} WhenStages(base: int, w: Whens, t: int, end: int, g: Gen)
      returns (g1: Gen, g2: Gen, g3: Gen)
    requires w.When? && Ready(g, UsesWhens(w).regs, t) && (base != 0 ==> Safe(g, base) && base != t)
    ensures g1 == IfFalse(CaseTest(base, w.test), NewLabel(g), true, MakeLabel(g))
    ensures g2 == Emit(CodeInto(w.result, t, g1), OpGoto(end)) && g3 == Resolve(g2, NewLabel(g))
    ensures CodeWhens(base, w, t, end, g) == CodeWhens(base, w.more, t, end, g3)
    ensures Grows(g, g1) && Kept(g1, g2) && Kept(g2, g3) && Grows(g, g3) && Kept(CodeInto(w.result, t, g1), g2)
    ensures Kept(g3, CodeWhens(base, w.more, t, end, g3))
  {
    var g0 := MakeLabel(g);
    LabelGrows(g);
    TestUses(base, w.test);
    StaysSafe(g, g0, UsesWhens(w).regs);
    IfFalseShape(CaseTest(base, w.test), NewLabel(g), true, g0);
    g1 := IfFalse(CaseTest(base, w.test), NewLabel(g), true, g0);
    Chain(g, g0, g1);
    StaysSafe(g0, g1, UsesWhens(w).regs);
    IntoShape(w.result, t, g1);
    var g2a := CodeInto(w.result, t, g1);
    g2 := Emit(g2a, OpGoto(end));
    EmitGrows(g1, g2a, OpGoto(end));
    LabelAfter(g, g1, g2);
    g3 := Resolve(g2, NewLabel(g));
    StaysSafe(g, g3, UsesWhens(w).regs);
    WhensShape(base, w.more, t, end, g3);
  }

  /** The test held: code the result and leave. */
  lemma {:induction false} ThenCorrect(test: Expr, x: Expr, more: Whens, t: int, end: int, g: Gen, g1: Gen,
      p: Program, c: Context, m: Machine, m1: Machine) returns (m': Machine)
    requires Safe(g, t) && DistinctWhens(When(test, x, more)) && Live(UsesWhens(When(test, x, more)), c, g, m)
    requires t !in UsesWhens(When(test, x, more)).regs && Inv(g1) && Grows(g, g1) && m1.pc == |g1.code|
    requires Ran(UsesOf(test), {}, p, c, g, m, m1) && Fits(Emit(CodeInto(x, t, g1), OpGoto(end)), p)
    ensures Ran(UsesWhens(When(test, x, more)), {t}, p, c, g, m, m') && m'.pc == Address(p, end)
    ensures Get(m', t) == Eval(x, c)
    decreases Size(x), 3
  {
    var u := Join(UsesOf(test), UsesOf(x));
    LivePart(UsesWhens(When(test, x, more)), UsesOf(x), c, g, m);
    LivePart(UsesWhens(When(test, x, more)), UsesWhens(more), c, g, m);
    CanNext(x, UsesOf(test), {}, p, c, g, g1, m, m1);
    var g2 := CodeInto(x, t, g1);
    FitsPart(g2, Emit(g2, OpGoto(end)), p);
    var m2 := IntoCorrect(x, t, g1, p, c, m1);
    RanMore(UsesOf(test), {}, {t}, p, c, g, m, m1);
    SitesOwned(test);
    SitesOwned(x);
    RanTwice(UsesOf(test), UsesOf(x), {t}, {t}, p, c, g, g1, m, m1, m2);
    Fetch(g2, OpGoto(end), p, m2);
    DoGoto(end, p, c, m2);
    RanGo(u, {t}, Address(p, end), p, c, g, m, m2);
    m' := m2.(pc := Address(p, end));
    SitesWhensOwned(more);
    RanOthers(u, UsesWhens(more), {t}, p, c, g, m, m');
  }

  /** Sites that did not run stay current. */
  lemma RanOthers(u: Uses, v: Uses, own: set<int>, p: Program, c: Context, g: Gen, m: Machine, m': Machine)
    requires Ran(u, own, p, c, g, m, m') && Owned(v) && Apart(u, v) && Current(v.sites, c, m)
    ensures Ran(Join(u, v), own, p, c, g, m, m')
  {
  }

  /** The test failed: go on with the next clause. */
  lemma {:induction false} NextCorrect(base: int, test: Expr, x: Expr, more: Whens, t: int, end: int, g: Gen,
      g3: Gen, p: Program, c: Context, m: Machine, m1: Machine) returns (m': Machine)
    requires Safe(g, t) && DistinctWhens(When(test, x, more)) && Live(UsesWhens(When(test, x, more)), c, g, m)
    requires t !in UsesWhens(When(test, x, more)).regs
    requires base != 0 ==> base != t && Live(Uses({base}, {}, {}), c, g, m)
    requires Inv(g3) && Grows(g, g3) && m1.pc == |g3.code| && Ran(UsesOf(test), {}, p, c, g, m, m1)
    requires Fits(CodeWhens(base, more, t, end, g3), p) && Address(p, end) == |CodeWhens(base, more, t, end, g3).code|
    ensures Ran(UsesWhens(When(test, x, more)), {t}, p, c, g, m, m')
    ensures m'.pc == |CodeWhens(base, more, t, end, g3).code|
    ensures Get(m', t) == if base == 0 then Choose(more, c) else ChooseEqual(c.pins[base], more, c)
    decreases SizeWhens(more), 3
  {
    var u, v := UsesOf(test), UsesWhens(more);
    LivePart(UsesWhens(When(test, x, more)), v, c, g, m);
    LivePart(UsesWhens(When(test, x, more)), UsesOf(x), c, g, m);
    SitesOwned(test);
    SitesOwned(x);
    SitesWhensOwned(more);
    RanOthers(u, UsesOf(x), {}, p, c, g, m, m1);
    LiveAfter(v, c, g, g3, {}, u.ids, m, m1);
    if base != 0 {
      LiveAfter(Uses({base}, {}, {}), c, g, g3, {}, u.ids, m, m1);
    }
    m' := WhensCorrect(base, more, t, end, g3, p, c, m1);
    RanMore(Join(u, UsesOf(x)), {}, {t}, p, c, g, m, m1);
    RanTwice(Join(u, UsesOf(x)), v, {t}, {t}, p, c, g, g3, m, m1, m');
  }

  // ----- IN -----

  /** An IN operator alone, without its operands. */
  ghost function Site(l: Exprs, id: int): Uses {
    Uses({}, {id}, {(id, l)})
  }

  ghost predicate CanRhs(l: Exprs, id: int, c: Context, g: Gen, m: Machine) {
    && Inv(g) && m.pc == |g.code| && DistinctAll(l) && UsesAll(l).regs == {} && id !in UsesAll(l).ids
    && Current(UsesAll(l).sites, c, m)
  }

  /** The values of the list are added to the table. */
  lemma {:induction false} InsertsCorrect(l: Exprs, id: int, r1: int, r2: int, g: Gen, p: Program, c: Context,
      m: Machine) returns (m': Machine)
    requires CanRhs(l, id, c, g, m) && Safe(g, r1) && Safe(g, r2) && Fits(CodeInserts(l, id, r1, r2, g), p)
    ensures Reaches(p, c, m, m') && m'.pc == |CodeInserts(l, id, r1, r2, g).code|
    ensures Filled(UsesAll(l), id, Keys(l, c), {r1, r2}, c, g, m, m')
    decreases SizeAll(l), 2
  {
    match l
    case Nil => Stays(p, c, m); m' := m;
    case Cons(x, rest) =>
      var h := InsertCode(x, id, r1, r2, g);
      InsertShape(x, id, r1, r2, g);
      InsertsShape(rest, id, r1, r2, h);
      FitsPart(h, CodeInserts(rest, id, r1, r2, h), p);
      SitesAllOwned(rest);
      var m1 := InsertCorrect(x, UsesAll(rest), id, r1, r2, g, p, c, m);
      m' := InsertsCorrect(rest, id, r1, r2, h, p, c, m1);
      Transitive(p, c, m, m1, m');
      SitesOwned(x);
      FilledTwice(UsesOf(x), UsesAll(rest), id, {Eval(x, c)}, Keys(rest, c), {r1, r2}, c, g, h, m, m1, m');
  }

  /** What `CodeInserts` emits for one value. */
  function InsertCode(x: Expr, id: int, r1: int, r2: int, g: Gen): Gen {
    var o := CodeTarget(x, r1, g);
    Emit(Emit(o.g, OpMakeRecord(o.reg, r2)), OpIdxInsert(id, r2))
  }

  lemma InsertShape(x: Expr, id: int, r1: int, r2: int, g: Gen)
    requires Ready(g, UsesOf(x).regs, r1)
    ensures Grows(g, InsertCode(x, id, r1, r2, g)) && Kept(CodeTarget(x, r1, g).g, InsertCode(x, id, r1, r2, g))
  {
    TargetShape(x, r1, g);
    var o := CodeTarget(x, r1, g);
    InsertGrows(g, o.g, OpMakeRecord(o.reg, r2), OpIdxInsert(id, r2));
  }

  lemma {:induction false} InsertCorrect(x: Expr, v: Uses, id: int, r1: int, r2: int, g: Gen, p: Program,
      c: Context, m: Machine) returns (m': Machine)
    requires CanInto(x, r1, c, g, m) && Fits(InsertCode(x, id, r1, r2, g), p) && id !in UsesOf(x).ids
    requires Owned(v) && id !in v.ids && Apart(UsesOf(x), v) && Current(v.sites, c, m)
    ensures Reaches(p, c, m, m') && m'.pc == |InsertCode(x, id, r1, r2, g).code|
    ensures Filled(UsesOf(x), id, {Eval(x, c)}, {r1, r2}, c, g, m, m') && Current(v.sites, c, m')
    decreases Size(x), 1
  {
    var o := CodeTarget(x, r1, g);
    InsertShape(x, id, r1, r2, g);
    FitsPart(o.g, InsertCode(x, id, r1, r2, g), p);
    InsertFits(o.reg, r2, id, o.g, p);
    var m1 := TargetCorrect(x, r1, g, p, c, m);
    m' := DoInsert(id, o.reg, r2, p, c, m1);
    Transitive(p, c, m, m1, m');
    SitesOwned(x);
    InsertFilled(UsesOf(x), v, id, Eval(x, c), r1, r2, p, c, g, m, m1, m');
  }

  /** Keys were added to table `id`; nothing else changed except `own` and the tables of `u`. */
  ghost predicate Filled(u: Uses, id: int, keys: set<Value>, own: set<int>, c: Context, g: Gen, m: Machine,
      m': Machine) {
    && Keeps(g, own, {id} + u.ids, m, m') && Current(u.sites, c, m')
    && Table(m', id) == Table(m, id) + keys && (id in m'.once <==> id in m.once)
  }

  lemma InsertGrows(g: Gen, h: Gen, i: Instr, j: Instr)
    requires Grows(g, h)
    ensures Grows(g, Emit(Emit(h, i), j)) && Kept(h, Emit(Emit(h, i), j))
  {
    EmitGrows(g, h, i);
    EmitGrows(g, Emit(h, i), j);
  }

  lemma InsertFits(r: int, r2: int, id: int, h: Gen, p: Program)
    requires Fits(Emit(Emit(h, OpMakeRecord(r, r2)), OpIdxInsert(id, r2)), p)
    ensures |h.code| + 2 <= |p.code| && p.code[|h.code|] == OpMakeRecord(r, r2)
    ensures p.code[|h.code| + 1] == OpIdxInsert(id, r2)
  {
    var k := Emit(Emit(h, OpMakeRecord(r, r2)), OpIdxInsert(id, r2));
    assert k.code[|h.code|] == OpMakeRecord(r, r2) && k.code[|h.code| + 1] == OpIdxInsert(id, r2);
  }

  lemma InsertFilled(u: Uses, v: Uses, id: int, key: Value, r1: int, r2: int, p: Program, c: Context, g: Gen,
      m: Machine, m1: Machine, m2: Machine)
    requires Ran(u, {r1}, p, c, g, m, m1) && Owned(u) && Owned(v) && id !in u.ids && id !in v.ids && Apart(u, v)
    requires Current(v.sites, c, m)
    requires m2.once == m1.once && Table(m2, id) == Table(m1, id) + {key}
    requires forall i :: i != id ==> Table(m2, i) == Table(m1, i)
    requires forall x :: x != r2 ==> Get(m2, x) == Get(m1, x)
    ensures Filled(u, id, {key}, {r1, r2}, c, g, m, m2) && Current(v.sites, c, m2)
  {
  }

  lemma FilledTwice(u: Uses, v: Uses, id: int, a: set<Value>, b: set<Value>, own: set<int>, c: Context, g: Gen,
      h: Gen, m: Machine, m1: Machine, m2: Machine)
    requires Filled(u, id, a, own, c, g, m, m1) && Filled(v, id, b, own, c, h, m1, m2)
    requires Grows(g, h) && Owned(u) && Apart(u, v) && id !in u.ids
    ensures Filled(Join(u, v), id, a + b, own, c, g, m, m2)
  {
  }

  /** After the right-hand side is coded its table holds the list's values. */
  lemma {:induction false} RhsCorrect(l: Exprs, id: int, q: int, g: Gen, p: Program, c: Context,
      m: Machine) returns (m': Machine)
    requires CanRhs(l, id, c, g, m) && Current({(id, l)}, c, m) && Safe(g, q) && Get(m, q).Null?
    requires Fits(CodeRhs(l, id, q, g), p)
    ensures Ran(Join(Site(l, id), UsesAll(l)), {q}, p, c, g, m, m') && m'.pc == |CodeRhs(l, id, q, g).code|
    ensures Table(m', id) == Keys(l, c) && Get(m', q).Null?
    decreases SizeAll(l), 4
  {
    var u := Join(Site(l, id), UsesAll(l));
    var g1 := Emit(MakeLabel(g), OnceInstr(l, id, g));
    var h := CodeFill(l, id, q, g1);
    RhsStages(l, id, q, g, p);
    if ConstantAll(l) && id in m.once {
      DoOnce(id, NewLabel(g), p, c, m);
      Begin(u, {q}, p, c, g, m);
      RanGo(u, {q}, |h.code|, p, c, g, m, m);
      m' := m.(pc := |h.code|);
    } else {
      var m1 := OnceTail(l, id, g, p, c, m);
      SitesAllOwned(l);
      m' := FillCorrect(l, id, q, g1, p, c, m1);
      FillRan(l, id, q, p, c, g, g1, m, m1, m');
    }
  }

  function OnceInstr(l: Exprs, id: int, g: Gen): Instr {
    if ConstantAll(l) then OpOnce(id, NewLabel(g)) else OpNoop
  }

  lemma RhsStages(l: Exprs, id: int, q: int, g: Gen, p: Program)
    requires Inv(g) && AllSafe(g, UsesAll(l).regs) && Fits(CodeRhs(l, id, q, g), p)
    ensures var g1 := Emit(MakeLabel(g), OnceInstr(l, id, g));
      var h := CodeFill(l, id, q, g1);
      && Grows(g, g1) && AllSafe(g1, UsesAll(l).regs) && (forall x :: Safe(g, x) <==> Safe(g1, x)) && Fits(h, p)
      && |g.code| < |p.code| && p.code[|g.code|] == OnceInstr(l, id, g) && |g1.code| == |g.code| + 1
      && Address(p, NewLabel(g)) == |h.code| && |CodeRhs(l, id, q, g).code| == |h.code|
  {
    var i := OnceInstr(l, id, g);
    var g1 := Emit(MakeLabel(g), i);
    OnceShape(l, i, g);
    FillShape(l, id, q, g1);
    LabelStages(g, g1, CodeFill(l, id, q, g1), p);
    assert g1.code[|g.code|] == i;
  }

  /** The table must be filled; a constant list is marked so that this happens once. */
  lemma OnceTail(l: Exprs, id: int, g: Gen, p: Program, c: Context, m: Machine) returns (m1: Machine)
    requires At(OnceInstr(l, id, g), p, m) && !(ConstantAll(l) && id in m.once)
    ensures Reaches(p, c, m, m1) && m1 == m.(pc := m.pc + 1, once := m1.once)
    ensures forall i :: i != id ==> (i in m1.once <==> i in m.once)
  {
    if ConstantAll(l) {
      DoOnce(id, NewLabel(g), p, c, m);
      m1 := m.(pc := m.pc + 1, once := m.once + {id});
    } else {
      DoNoop(p, c, m);
      m1 := m.(pc := m.pc + 1);
    }
  }

  lemma FillRan(l: Exprs, id: int, q: int, p: Program, c: Context, g: Gen, h: Gen, m: Machine, m1: Machine,
      m2: Machine)
    requires Reaches(p, c, m, m1) && m1 == m.(pc := m1.pc, once := m1.once) && Reaches(p, c, m1, m2)
    requires forall i :: i != id ==> (i in m1.once <==> i in m.once)
    requires forall x :: Safe(g, x) ==> Safe(h, x)
    requires Keeps(h, {q}, {id} + UsesAll(l).ids, m1, m2) && Current({(id, l)} + UsesAll(l).sites, c, m2)
    ensures Ran(Join(Site(l, id), UsesAll(l)), {q}, p, c, g, m, m2)
  {
    Transitive(p, c, m, m1, m2);
  }

  /** Clear the table and fill it. */
  lemma {:induction false} FillCorrect(l: Exprs, id: int, q: int, g: Gen, p: Program, c: Context,
      m: Machine) returns (m': Machine)
    requires CanRhs(l, id, c, g, m) && Safe(g, q) && Fits(CodeFill(l, id, q, g), p)
    ensures Reaches(p, c, m, m') && m'.pc == |CodeFill(l, id, q, g).code|
    ensures Keeps(g, {q}, {id} + UsesAll(l).ids, m, m') && Current({(id, l)} + UsesAll(l).sites, c, m')
    ensures Table(m', id) == Keys(l, c) && Get(m', q).Null?
    decreases SizeAll(l), 3
  {
    var g2 := Emit(Emit(g, OpLoad(Null, q)), OpOpenEphemeral(id));
    var r1 := GetTemp(g2);
    var r2 := GetTemp(r1.g);
    var g3 := Emit(r2.g, OpLoad(Null, r2.reg));
    FillTemps(g, id, q, UsesAll(l).regs);
    InsertsShape(l, id, r1.reg, r2.reg, g3);
    var g4 := CodeInserts(l, id, r1.reg, r2.reg, g3);
    ReleaseCode(g4, r1.reg, p);
    ReleaseCode(Release(g4, r1.reg), r2.reg, p);
    FitsPart(g3, g4, p);
    OpenFits(id, q, r2.reg, g, r2.g, p);
    var m1 := DoOpen(id, q, r2.reg, p, c, m);
    SitesAllOwned(l);
    OpenCurrent(UsesAll(l), id, c, m, m1);
    m' := InsertsCorrect(l, id, r1.reg, r2.reg, g3, p, c, m1);
    Transitive(p, c, m, m1, m');
    OpenFilled(l, id, q, r1.reg, r2.reg, c, g, g3, m, m1, m');
  }

  lemma OpenCurrent(u: Uses, id: int, c: Context, m: Machine, m1: Machine)
    requires Current(u.sites, c, m) && Owned(u) && id !in u.ids && m1.once == m.once
    requires forall i :: i != id ==> Table(m1, i) == Table(m, i)
    ensures Current(u.sites, c, m1)
  {
  }

  lemma OpenFilled(l: Exprs, id: int, q: int, r1: int, r2: int, c: Context, g: Gen, h: Gen, m: Machine,
      m1: Machine, m2: Machine)
    requires Filled(UsesAll(l), id, Keys(l, c), {r1, r2}, c, h, m1, m2) && Grows(g, h)
    requires m1.once == m.once && Table(m1, id) == {} && forall i :: i != id ==> Table(m1, i) == Table(m, i)
    requires forall x :: x != q && x != r2 ==> Get(m1, x) == Get(m, x)
    requires !Safe(g, r1) && !Safe(g, r2) && Safe(g, q) && Get(m1, q).Null?
    ensures Keeps(g, {q}, {id} + UsesAll(l).ids, m, m2) && Current({(id, l)} + UsesAll(l).sites, c, m2)
    ensures Table(m2, id) == Keys(l, c) && Get(m2, q).Null?
  {
  }

  lemma OpenFits(id: int, q: int, r2: int, g: Gen, h: Gen, p: Program)
    requires h.code == Emit(Emit(g, OpLoad(Null, q)), OpOpenEphemeral(id)).code && Fits(Emit(h, OpLoad(Null, r2)), p)
    ensures |g.code| + 3 <= |p.code| && |h.code| == |g.code| + 2
    ensures p.code[|g.code|] == OpLoad(Null, q) && p.code[|g.code| + 1] == OpOpenEphemeral(id)
    ensures p.code[|g.code| + 2] == OpLoad(Null, r2)
  {
    var k := Emit(h, OpLoad(Null, r2));
    assert k.code[|g.code|] == OpLoad(Null, q) && k.code[|g.code| + 1] == OpOpenEphemeral(id);
    assert k.code[|g.code| + 2] == OpLoad(Null, r2);
  }

  /** x IN (...) falls through on true and otherwise leaves through its two exits. */
  lemma {:induction false} InCorrect(x: Expr, l: Exprs, id: int, ifFalse: int, ifNull: int, g: Gen, p: Program,
      c: Context, m: Machine) returns (m': Machine)
    requires Can(In(x, l, id), c, g, m) && Fits(CodeIn(x, l, id, ifFalse, ifNull, g), p)
    ensures Ran(UsesOf(In(x, l, id)), {}, p, c, g, m, m')
    ensures m'.pc == Goes(In3(c.engine, Eval(x, c), Keys(l, c)), p, ifFalse, ifNull,
      |CodeIn(x, l, id, ifFalse, ifNull, g).code|)
    decreases Size(x) + SizeAll(l), 5
  {
    var q := NewReg(g);
    NewRegGrows(g);
    var g0 := Emit(q.g, OpLoad(Null, q.reg));
    EmitGrows(g, q.g, OpLoad(Null, q.reg));
    RhsShape(l, id, q.reg, g0);
    var g1 := CodeRhs(l, id, q.reg, g0);
    Chain(g, g0, g1);
    StaysSafe(g, g1, UsesOf(x).regs);
    InLhsShape(x, id, q.reg, ifFalse, ifNull, g1);
    FitsPart(g1, CodeInLhs(x, id, q.reg, ifFalse, ifNull, g1), p);
    FitsPart(g0, g1, p);
    LoadThen(In(x, l, id), q.reg, Null, p, c, g, q.g, m);
    var m0 := Put(m, q.reg, Null);
    var m1 := RhsCorrect(l, id, q.reg, g0, p, c, m0);
    InJoin(x, l, id, q.reg, p, c, g, g0, g1, m, m0, m1);
    m' := InLhsCorrect(x, id, q.reg, ifFalse, ifNull, g1, p, c, m1);
    InRan(x, l, id, q.reg, p, c, g, g1, m, m1, m');
  }

  lemma InRan(x: Expr, l: Exprs, id: int, q: int, p: Program, c: Context, g: Gen, g1: Gen, m: Machine,
      m1: Machine, m2: Machine)
    requires Distinct(In(x, l, id)) && Grows(g, g1) && !Safe(g, q)
    requires Ran(Join(Site(l, id), UsesAll(l)), {}, p, c, g, m, m1) && Ran(UsesOf(x), {q}, p, c, g1, m1, m2)
    ensures Ran(UsesOf(In(x, l, id)), {}, p, c, g, m, m2)
  {
    var v := Join(Site(l, id), UsesAll(l));
    SitesAllOwned(l);
    RanTwice(v, UsesOf(x), {}, {q}, p, c, g, g1, m, m1, m2);
    assert Join(v, UsesOf(x)).ids == UsesOf(In(x, l, id)).ids;
    assert Join(v, UsesOf(x)).sites == UsesOf(In(x, l, id)).sites;
  }

  /** After the right-hand side, the left operand may run. */
  lemma InJoin(x: Expr, l: Exprs, id: int, q: int, p: Program, c: Context, g: Gen, g0: Gen, g1: Gen, m: Machine,
      m0: Machine, m1: Machine)
    requires Can(In(x, l, id), c, g, m) && m0 == Put(m, q, Null) && Reaches(p, c, m, m0) && !Safe(g, q)
    requires Ran(Join(Site(l, id), UsesAll(l)), {q}, p, c, g0, m0, m1) && Grows(g, g0) && Grows(g, g1)
    requires m1.pc == |g1.code|
    ensures Ran(Join(Site(l, id), UsesAll(l)), {}, p, c, g, m, m1) && Can(x, c, g1, m1)
  {
    var v := Join(Site(l, id), UsesAll(l));
    Reflexive(g);
    RanAfterLoad(v, {q}, q, Null, p, c, g, g0, m, m0, m1);
    RanLess(v, q, p, c, g, g, m, m1);
    SitesOwned(x);
    LivePart(UsesOf(In(x, l, id)), UsesOf(x), c, g, m);
    LiveAfter(UsesOf(x), c, g, g1, {}, v.ids, m, m1);
  }

  lemma {:induction false} InLhsCorrect(x: Expr, id: int, q: int, ifFalse: int, ifNull: int, g: Gen, p: Program,
      c: Context, m: Machine) returns (m': Machine)
    requires Can(x, c, g, m) && Safe(g, q) && Get(m, q).Null? && id !in UsesOf(x).ids
    requires Fits(CodeInLhs(x, id, q, ifFalse, ifNull, g), p)
    ensures Ran(UsesOf(x), {q}, p, c, g, m, m')
    ensures m'.pc == Goes(In3(c.engine, Eval(x, c), Table(m, id)), p, ifFalse, ifNull,
      |CodeInLhs(x, id, q, ifFalse, ifNull, g).code|)
    decreases Size(x), 2
  {
    var r1 := GetTemp(g);
    TempGrows(g);
    StaysSafe(g, r1.g, UsesOf(x).regs);
    IntoShape(x, r1.reg, r1.g);
    var g2 := CodeInto(x, r1.reg, r1.g);
    Chain(g, r1.g, g2);
    NullLhsShape(id, r1.reg, ifFalse, ifNull, g2);
    var g3 := CodeNullLhs(id, r1.reg, ifFalse, ifNull, g2);
    MemberShape(id, r1.reg, q, ifFalse, ifNull, g3);
    var g4 := CodeMember(id, r1.reg, q, ifFalse, ifNull, g3);
    ReleaseCode(g4, r1.reg, p);
    FitsPart(g3, g4, p);
    FitsPart(g2, g3, p);
    var m1 := IntoCorrect(x, r1.reg, r1.g, p, c, m);
    RanLess(UsesOf(x), r1.reg, p, c, g, r1.g, m, m1);
    RanMore(UsesOf(x), {}, {q}, p, c, g, m, m1);
    m' := InTail(UsesOf(x), id, r1.reg, q, ifFalse, ifNull, g2, p, c, g, m, m1);
  }

  lemma InTail(u: Uses, id: int, r1: int, q: int, ifFalse: int, ifNull: int, h: Gen, p: Program, c: Context,
      g: Gen, m: Machine, m1: Machine) returns (m': Machine)
    requires Ran(u, {q}, p, c, g, m, m1) && m1.pc == |h.code| && Get(m1, q).Null?
    requires Fits(CodeNullLhs(id, r1, ifFalse, ifNull, h), p)
    requires Fits(CodeMember(id, r1, q, ifFalse, ifNull, CodeNullLhs(id, r1, ifFalse, ifNull, h)), p)
    ensures Ran(u, {q}, p, c, g, m, m')
    ensures m'.pc == Goes(In3(c.engine, Get(m1, r1), Table(m1, id)), p, ifFalse, ifNull,
                          |CodeMember(id, r1, q, ifFalse, ifNull, CodeNullLhs(id, r1, ifFalse, ifNull, h)).code|)
  {
    if ifNull == ifFalse {
      m' := InShortTail(u, id, r1, q, ifFalse, h, p, c, g, m, m1);
    } else {
      NullLhsFits(id, r1, ifFalse, ifNull, h, p);
      MemberFits(id, r1, q, ifFalse, ifNull, CodeNullLhs(id, r1, ifFalse, ifNull, h), p);
      m' := InLongTail(u, id, r1, q, ifFalse, ifNull, |h.code|, p, c, g, m, m1);
    }
  }

  lemma InLongTail(u: Uses, id: int, r1: int, q: int, ifFalse: int, ifNull: int, a: nat, p: Program, c: Context,
      g: Gen, m: Machine, m1: Machine) returns (m': Machine)
    requires Ran(u, {q}, p, c, g, m, m1) && m1.pc == a && Get(m1, q).Null? && a + 3 <= |p.code|
    requires p.code[a] == OpNotNull(r1, a + 3) && p.code[a + 1] == OpRewind(id, ifFalse)
    requires p.code[a + 2] == OpGoto(ifNull)
    requires HasMember(id, r1, q, ifFalse, ifNull, a + 3, p)
    ensures Ran(u, {q}, p, c, g, m, m')
    ensures m'.pc == Goes(In3(c.engine, Get(m1, r1), Table(m1, id)), p, ifFalse, ifNull, a + 10)
  {
    var m2 := DoNullLhs(id, r1, ifFalse, ifNull, p, c, m1);
    RanGo(u, {q}, m2.pc, p, c, g, m, m1);
    m' := m2;
    if !Get(m1, r1).Null? {
      m' := DoMember(id, r1, q, ifFalse, ifNull, p, c, m2);
      RanBlock(u, {q}, q, p, c, g, m, m2, m');
    }
  }

  lemma InShortTail(u: Uses, id: int, r1: int, q: int, exit: int, h: Gen, p: Program, c: Context, g: Gen,
      m: Machine, m1: Machine) returns (m': Machine)
    requires Ran(u, {q}, p, c, g, m, m1) && m1.pc == |h.code|
    requires Fits(Emit(Emit(h, OpIsNull(r1, exit)), OpNotFound(id, exit, r1)), p)
    ensures Ran(u, {q}, p, c, g, m, m')
    ensures m'.pc == Goes(In3(c.engine, Get(m1, r1), Table(m1, id)), p, exit, exit, |h.code| + 2)
  {
    var k := Emit(h, OpIsNull(r1, exit));
    FitsPart(k, Emit(k, OpNotFound(id, exit, r1)), p);
    Fetch(h, OpIsNull(r1, exit), p, m1);
    DoNullTest(false, r1, exit, p, c, m1);
    m' := Branch(p, m1, Get(m1, r1).Null?, exit);
    RanGo(u, {q}, m'.pc, p, c, g, m, m1);
    if !Get(m1, r1).Null? {
      var m2 := m';
      Fetch(k, OpNotFound(id, exit, r1), p, m2);
      DoNotFound(id, exit, r1, p, c, m2);
      m' := Branch(p, m2, !Contains(c.engine, Table(m2, id), Get(m2, r1)), exit);
      RanGo(u, {q}, m'.pc, p, c, g, m, m2);
    }
  }

  lemma NullLhsFits(id: int, r1: int, ifFalse: int, ifNull: int, h: Gen, p: Program)
    requires Fits(CodeNullLhs(id, r1, ifFalse, ifNull, h), p) && ifFalse != ifNull
    ensures |h.code| + 3 <= |p.code| && |CodeNullLhs(id, r1, ifFalse, ifNull, h).code| == |h.code| + 3
    ensures var a := |h.code|;
      p.code[a] == OpNotNull(r1, a + 3) && p.code[a + 1] == OpRewind(id, ifFalse) && p.code[a + 2] == OpGoto(ifNull)
  {
    var a, k := |h.code|, CodeNullLhs(id, r1, ifFalse, ifNull, h);
    assert k.code[a] == OpNotNull(r1, a + 3) && k.code[a + 1] == OpRewind(id, ifFalse) &&
      k.code[a + 2] == OpGoto(ifNull);
  }

  lemma MemberFits(id: int, r1: int, q: int, ifFalse: int, ifNull: int, h: Gen, p: Program)
    requires Fits(CodeMember(id, r1, q, ifFalse, ifNull, h), p) && ifFalse != ifNull
    ensures HasMember(id, r1, q, ifFalse, ifNull, |h.code|, p)
    ensures |CodeMember(id, r1, q, ifFalse, ifNull, h).code| == |h.code| + 7
  {
    var k := CodeMember(id, r1, q, ifFalse, ifNull, h);
    assert forall j :: 0 <= j < |k.code| ==> p.code[j] == k.code[j];
  }

  /** IN as a value: 1, 0 or NULL. */
  lemma {:induction false} InValueCorrect(x: Expr, l: Exprs, id: int, t: int, g: Gen, p: Program, c: Context,
      m: Machine) returns (m': Machine)
    requires CanInto(In(x, l, id), t, c, g, m) && Fits(CodeInValue(x, l, id, t, g), p)
    ensures Ran(UsesOf(In(x, l, id)), {t}, p, c, g, m, m') && m'.pc == |CodeInValue(x, l, id, t, g).code|
    ensures Get(m', t) == TriValue(In3(c.engine, Eval(x, c), Keys(l, c)))
    decreases Size(x) + SizeAll(l), 6
  {
    var e := In(x, l, id);
    var ifFalse := NewLabel(g);
    var ifNull := NewLabel(MakeLabel(g));
    var g1b := MakeLabel(MakeLabel(g));
    InValueHead(UsesOf(e).regs, t, g);
    var g2 := Emit(g1b, OpLoad(Null, t));
    InShape(x, l, id, ifFalse, ifNull, g2);
    var g3 := CodeIn(x, l, id, ifFalse, ifNull, g2);
    Chain(g1b, g2, g3);
    InValueFits(t, g, g3, p);
    FitsPart(g2, g3, p);
    LoadThen(e, t, Null, p, c, g, g1b, m);
    var m0 := Put(m, t, Null);
    var m1 := InCorrect(x, l, id, ifFalse, ifNull, g2, p, c, m0);
    RanMore(UsesOf(e), {}, {t}, p, c, g2, m0, m1);
    RanAfterLoad(UsesOf(e), {t}, t, Null, p, c, g, g2, m, m0, m1);
    m' := DoInValue(In3(c.engine, Eval(x, c), Keys(l, c)), ifFalse, ifNull, t, |g3.code|, p, c, m1);
    RanBlock(UsesOf(e), {t}, t, p, c, g, m, m1, m');
  }

  lemma InValueHead(regs: set<int>, t: int, g: Gen)
    requires Inv(g) && AllSafe(g, regs) && Safe(g, t)
    ensures var g1b := MakeLabel(MakeLabel(g));
      var g2 := Emit(g1b, OpLoad(Null, t));
      && Grows(g1b, g2) && Grows(g, g2) && AllSafe(g2, regs) && Safe(g2, t) && g1b.code == g.code
  {
    LabelGrows(g);
    LabelGrows(MakeLabel(g));
    var g1b := MakeLabel(MakeLabel(g));
    Chain(g, MakeLabel(g), g1b);
    Reflexive(g1b);
    EmitGrows(g1b, g1b, OpLoad(Null, t));
    Chain(g, g1b, Emit(g1b, OpLoad(Null, t)));
    StaysSafe(g, Emit(g1b, OpLoad(Null, t)), regs);
  }

  lemma InValueFits(t: int, g: Gen, h: Gen, p: Program)
    requires Inv(g) && Grows(MakeLabel(MakeLabel(g)), h)
    requires var k := Emit(Resolve(Emit(h, OpLoad(Int(1), t)), NewLabel(g)), OpAddImm(t, 0));
      Fits(Resolve(k, NewLabel(MakeLabel(g))), p)
    ensures Fits(h, p) && |h.code| + 2 <= |p.code|
    ensures p.code[|h.code|] == OpLoad(Int(1), t) && p.code[|h.code| + 1] == OpAddImm(t, 0)
    ensures Address(p, NewLabel(g)) == |h.code| + 1 && Address(p, NewLabel(MakeLabel(g))) == |h.code| + 2
  {
    EmitGrows(MakeLabel(MakeLabel(g)), h, OpLoad(Int(1), t));
    var h1 := Emit(h, OpLoad(Int(1), t));
    TwoLabels(g, h1, OpAddImm(t, 0));
    var k := Emit(Resolve(h1, NewLabel(g)), OpAddImm(t, 0));
    FitsPart(k, Resolve(k, NewLabel(MakeLabel(g))), p);
    LabelAddress(k, NewLabel(MakeLabel(g)), p);
    FitsPart(h1, k, p);
    assert Fits(Resolve(h1, NewLabel(g)), p);
    LabelAddress(h1, NewLabel(g), p);
    FitsPart(h, h1, p);
    assert k.code[|h.code|] == OpLoad(Int(1), t) && k.code[|h.code| + 1] == OpAddImm(t, 0);
  }

  // ----- conditions -----

  function Landing(p: Program, taken: bool, dest: int, fall: int): int {
    if taken then Address(p, dest) else fall
  }

  /** sqlite3ExprIfTrue jumps exactly when the condition is true, or unknown with jumpIfNull. */
  lemma {:induction false} IfTrueCorrect(e: Expr, dest: int, jumpIfNull: bool, g: Gen, p: Program, c: Context,
      m: Machine) returns (m': Machine)
    requires Can(e, c, g, m) && Fits(IfTrue(e, dest, jumpIfNull, g), p)
    ensures Ran(UsesOf(e), {}, p, c, g, m, m')
    ensures m'.pc == Landing(p, Takes(Cond(e, c), True, jumpIfNull), dest, |IfTrue(e, dest, jumpIfNull, g).code|)
    decreases Size(e), 5
  {
    match e
    case Unary(u, x) => m' := IfTrueUnary(u, x, dest, jumpIfNull, g, p, c, m);
    case Binary(b, x, y) => m' := IfTrueBinary(b, x, y, dest, jumpIfNull, g, p, c, m);
    case Between(x, y, z) => m' := BetweenJumpCorrect(x, y, z, dest, true, jumpIfNull, g, p, c, m);
    case In(x, l, id) => m' := InJumpCorrect(x, l, id, dest, true, jumpIfNull, g, p, c, m);
    case _ => m' := JumpTestCorrect(e, dest, true, jumpIfNull, g, p, c, m);
  }

  lemma {:induction false} IfTrueUnary(u: UnaryOp, x: Expr, dest: int, jumpIfNull: bool, g: Gen, p: Program,
      c: Context, m: Machine) returns (m': Machine)
    requires Can(Unary(u, x), c, g, m) && Fits(IfTrue(Unary(u, x), dest, jumpIfNull, g), p)
    ensures Ran(UsesOf(Unary(u, x)), {}, p, c, g, m, m')
    ensures m'.pc == Landing(p, Takes(Cond(Unary(u, x), c), True, jumpIfNull), dest,
      |IfTrue(Unary(u, x), dest, jumpIfNull, g).code|)
    decreases Size(Unary(u, x)), 4
  {
    if u.Not? {
      m' := IfFalseCorrect(x, dest, jumpIfNull, g, p, c, m);
    } else if u.IsNull? {
      m' := JumpNullCorrect(u.negated, x, dest, g, p, c, m);
    } else {
      m' := JumpTestCorrect(Unary(u, x), dest, true, jumpIfNull, g, p, c, m);
    }
  }

  lemma {:induction false} IfTrueBinary(b: BinaryOp, x: Expr, y: Expr, dest: int, jumpIfNull: bool, g: Gen,
      p: Program, c: Context, m: Machine) returns (m': Machine)
    requires Can(Binary(b, x, y), c, g, m) && Fits(IfTrue(Binary(b, x, y), dest, jumpIfNull, g), p)
    ensures Ran(UsesOf(Binary(b, x, y)), {}, p, c, g, m, m')
    ensures m'.pc == Landing(p, Takes(Cond(Binary(b, x, y), c), True, jumpIfNull), dest,
      |IfTrue(Binary(b, x, y), dest, jumpIfNull, g).code|)
    decreases Size(Binary(b, x, y)), 4
  {
    match b
    case And => m' := IfTrueAndCorrect(x, y, dest, jumpIfNull, g, p, c, m);
    case Or => m' := IfTrueOrCorrect(x, y, dest, jumpIfNull, g, p, c, m);
    case Compare(op) =>
      Alike(c.engine, op, Eval(x, c), Eval(y, c));
      m' := JumpCompareCorrect(op, x, y, dest, false, jumpIfNull, g, p, c, m);
    case Is(n) =>
      AlikeIs(c.engine, n, Eval(x, c), Eval(y, c), jumpIfNull);
      m' := JumpCompareCorrect(if n then Ne else Eq, x, y, dest, true, false, g, p, c, m);
    case Arith(_) => m' := JumpTestCorrect(Binary(b, x, y), dest, true, jumpIfNull, g, p, c, m);
  }

  /** The opcode reads its operands in the other order. */
  lemma Alike(k: Engine, op: CompareOp, v: Value, w: Value)
    ensures CompareTruth(k, op, w, v, false) == Compare3(k, op, v, w)
  {
  }

  lemma AlikeIs(k: Engine, n: bool, v: Value, w: Value, jumpIfNull: bool)
    ensures Takes(CompareTruth(k, if n then Ne else Eq, w, v, true), True, false) ==
      Takes(OfBool(Same(k, v, w) != n), True, jumpIfNull)
  {
  }

  /** The jump of the second operand, after the first has fallen through. */
  lemma {:induction false} SecondCorrect(ifTrue: bool, x: Expr, y: Expr, dest: int, jumpIfNull: bool, g: Gen,
      g1: Gen, p: Program, c: Context, m: Machine, m1: Machine) returns (m': Machine)
    requires Distinct(x) && Can(y, c, g, m) && Apart(UsesOf(x), UsesOf(y)) && Grows(g, g1)
    requires Ran(UsesOf(x), {}, p, c, g, m, m1) && m1.pc == |g1.code|
    requires Fits(if ifTrue then IfTrue(y, dest, jumpIfNull, g1) else IfFalse(y, dest, jumpIfNull, g1), p)
    ensures Ran(Join(UsesOf(x), UsesOf(y)), {}, p, c, g, m, m')
    ensures m'.pc == Landing(p, Takes(Cond(y, c), OfBool(ifTrue), jumpIfNull), dest,
      |(if ifTrue then IfTrue(y, dest, jumpIfNull, g1) else IfFalse(y, dest, jumpIfNull, g1)).code|)
    decreases Size(y), 6
  {
    CanNext(y, UsesOf(x), {}, p, c, g, g1, m, m1);
    if ifTrue {
      m' := IfTrueCorrect(y, dest, jumpIfNull, g1, p, c, m1);
    } else {
      m' := IfFalseCorrect(y, dest, jumpIfNull, g1, p, c, m1);
    }
    SitesOwned(x);
    RanTwice(UsesOf(x), UsesOf(y), {}, {}, p, c, g, g1, m, m1, m');
  }

  /** The second operand is jumped over. */
  lemma SecondSkipped(x: Expr, y: Expr, g: Gen, p: Program, c: Context, m: Machine, m1: Machine)
    requires Distinct(x) && Can(y, c, g, m) && Apart(UsesOf(x), UsesOf(y)) && Ran(UsesOf(x), {}, p, c, g, m, m1)
    ensures Ran(Join(UsesOf(x), UsesOf(y)), {}, p, c, g, m, m1)
  {
    SitesOwned(y);
    RanOthers(UsesOf(x), UsesOf(y), {}, p, c, g, m, m1);
  }

  lemma {:induction false} IfTrueAndCorrect(x: Expr, y: Expr, dest: int, jumpIfNull: bool, g: Gen, p: Program,
      c: Context, m: Machine) returns (m': Machine)
    requires Can(x, c, g, m) && Can(y, c, g, m) && Apart(UsesOf(x), UsesOf(y))
    requires Fits(IfTrue(Binary(And, x, y), dest, jumpIfNull, g), p)
    ensures Ran(Join(UsesOf(x), UsesOf(y)), {}, p, c, g, m, m')
    ensures m'.pc == Landing(p, Takes(And3(Cond(x, c), Cond(y, c)), True, jumpIfNull), dest,
      |IfTrue(Binary(And, x, y), dest, jumpIfNull, g).code|)
    decreases Size(x) + Size(y), 5
  {
    var d2, g0 := NewLabel(g), MakeLabel(g);
    var g1 := IfFalse(x, d2, !jumpIfNull, g0);
    IfTrueAndStages(x, y, dest, jumpIfNull, g, p);
    var m1 := IfFalseCorrect(x, d2, !jumpIfNull, g0, p, c, m);
    RanEarlier(UsesOf(x), {}, p, c, g, g0, m, m1);
    if Takes(Cond(x, c), False, !jumpIfNull) {
      SecondSkipped(x, y, g, p, c, m, m1);
      m' := m1;
    } else {
      m' := SecondCorrect(true, x, y, dest, jumpIfNull, g, g1, p, c, m, m1);
    }
  }

  lemma IfTrueAndStages(x: Expr, y: Expr, dest: int, jumpIfNull: bool, g: Gen, p: Program)
    requires Inv(g) && AllSafe(g, UsesOf(x).regs) && AllSafe(g, UsesOf(y).regs)
    requires Fits(IfTrue(Binary(And, x, y), dest, jumpIfNull, g), p)
    ensures var g1 := IfFalse(x, NewLabel(g), !jumpIfNull, MakeLabel(g));
      var g2 := IfTrue(y, dest, jumpIfNull, g1);
      && Grows(g, MakeLabel(g)) && AllSafe(MakeLabel(g), UsesOf(x).regs) && Grows(g, g1) && Fits(g1, p) && Fits(g2, p)
      && Address(p, NewLabel(g)) == |g2.code| && |IfTrue(Binary(And, x, y), dest, jumpIfNull, g).code| == |g2.code|
  {
    var d2, g0 := NewLabel(g), MakeLabel(g);
    LabelSafe(g, UsesOf(x).regs, UsesOf(y).regs);
    IfFalseShape(x, d2, !jumpIfNull, g0);
    var g1 := IfFalse(x, d2, !jumpIfNull, g0);
    StaysSafe(g0, g1, UsesOf(y).regs);
    IfTrueShape(y, dest, jumpIfNull, g1);
    var g2 := IfTrue(y, dest, jumpIfNull, g1);
    assert IfTrue(Binary(And, x, y), dest, jumpIfNull, g) == Resolve(g2, d2);
    LabelStages(g, g1, g2, p);
  }

  lemma {:induction false} IfTrueOrCorrect(x: Expr, y: Expr, dest: int, jumpIfNull: bool, g: Gen, p: Program,
      c: Context, m: Machine) returns (m': Machine)
    requires Can(x, c, g, m) && Can(y, c, g, m) && Apart(UsesOf(x), UsesOf(y))
    requires Fits(IfTrue(Binary(Or, x, y), dest, jumpIfNull, g), p)
    ensures Ran(Join(UsesOf(x), UsesOf(y)), {}, p, c, g, m, m')
    ensures m'.pc == Landing(p, Takes(Or3(Cond(x, c), Cond(y, c)), True, jumpIfNull), dest,
      |IfTrue(Binary(Or, x, y), dest, jumpIfNull, g).code|)
    decreases Size(x) + Size(y), 5
  {
    IfTrueShape(x, dest, jumpIfNull, g);
    var g1 := IfTrue(x, dest, jumpIfNull, g);
    StaysSafe(g, g1, UsesOf(y).regs);
    IfTrueShape(y, dest, jumpIfNull, g1);
    var g2 := IfTrue(y, dest, jumpIfNull, g1);
    assert IfTrue(Binary(Or, x, y), dest, jumpIfNull, g) == g2;
    FitsPart(g1, g2, p);
    var m1 := IfTrueCorrect(x, dest, jumpIfNull, g, p, c, m);
    if Takes(Cond(x, c), True, jumpIfNull) {
      SecondSkipped(x, y, g, p, c, m, m1);
      m' := m1;
    } else {
      m' := SecondCorrect(true, x, y, dest, jumpIfNull, g, g1, p, c, m, m1);
    }
  }

  /** sqlite3ExprIfFalse jumps exactly when the condition is false, or unknown with jumpIfNull. */
  lemma {:induction false} IfFalseCorrect(e: Expr, dest: int, jumpIfNull: bool, g: Gen, p: Program, c: Context,
      m: Machine) returns (m': Machine)
    requires Can(e, c, g, m) && Fits(IfFalse(e, dest, jumpIfNull, g), p)
    ensures Ran(UsesOf(e), {}, p, c, g, m, m')
    ensures m'.pc == Landing(p, Takes(Cond(e, c), False, jumpIfNull), dest, |IfFalse(e, dest, jumpIfNull, g).code|)
    decreases Size(e), 5
  {
    match e
    case Unary(u, x) => m' := IfFalseUnary(u, x, dest, jumpIfNull, g, p, c, m);
    case Binary(b, x, y) => m' := IfFalseBinary(b, x, y, dest, jumpIfNull, g, p, c, m);
    case Between(x, y, z) => m' := BetweenJumpCorrect(x, y, z, dest, false, jumpIfNull, g, p, c, m);
    case In(x, l, id) => m' := InJumpCorrect(x, l, id, dest, false, jumpIfNull, g, p, c, m);
    case _ => m' := JumpTestCorrect(e, dest, false, jumpIfNull, g, p, c, m);
  }

  lemma {:induction false} IfFalseUnary(u: UnaryOp, x: Expr, dest: int, jumpIfNull: bool, g: Gen, p: Program,
      c: Context, m: Machine) returns (m': Machine)
    requires Can(Unary(u, x), c, g, m) && Fits(IfFalse(Unary(u, x), dest, jumpIfNull, g), p)
    ensures Ran(UsesOf(Unary(u, x)), {}, p, c, g, m, m')
    ensures m'.pc == Landing(p, Takes(Cond(Unary(u, x), c), False, jumpIfNull), dest,
      |IfFalse(Unary(u, x), dest, jumpIfNull, g).code|)
    decreases Size(Unary(u, x)), 4
  {
    if u.Not? {
      m' := IfTrueCorrect(x, dest, jumpIfNull, g, p, c, m);
    } else if u.IsNull? {
      m' := JumpNullCorrect(!u.negated, x, dest, g, p, c, m);
    } else {
      m' := JumpTestCorrect(Unary(u, x), dest, false, jumpIfNull, g, p, c, m);
    }
  }

  lemma {:induction false} IfFalseBinary(b: BinaryOp, x: Expr, y: Expr, dest: int, jumpIfNull: bool, g: Gen,
      p: Program, c: Context, m: Machine) returns (m': Machine)
    requires Can(Binary(b, x, y), c, g, m) && Fits(IfFalse(Binary(b, x, y), dest, jumpIfNull, g), p)
    ensures Ran(UsesOf(Binary(b, x, y)), {}, p, c, g, m, m')
    ensures m'.pc == Landing(p, Takes(Cond(Binary(b, x, y), c), False, jumpIfNull), dest,
      |IfFalse(Binary(b, x, y), dest, jumpIfNull, g).code|)
    decreases Size(Binary(b, x, y)), 4
  {
    match b
    case And => m' := IfFalseAndCorrect(x, y, dest, jumpIfNull, g, p, c, m);
    case Or => m' := IfFalseOrCorrect(x, y, dest, jumpIfNull, g, p, c, m);
    case Compare(op) =>
      Opposite(c.engine, op, Eval(x, c), Eval(y, c), jumpIfNull);
      m' := JumpCompareCorrect(Complement(op), x, y, dest, false, jumpIfNull, g, p, c, m);
    case Is(n) =>
      OppositeIs(c.engine, n, Eval(x, c), Eval(y, c), jumpIfNull);
      m' := JumpCompareCorrect(if n then Eq else Ne, x, y, dest, true, false, g, p, c, m);
    case Arith(_) => m' := JumpTestCorrect(Binary(b, x, y), dest, false, jumpIfNull, g, p, c, m);
  }

  lemma {:induction false} IfFalseOrCorrect(x: Expr, y: Expr, dest: int, jumpIfNull: bool, g: Gen, p: Program,
      c: Context, m: Machine) returns (m': Machine)
    requires Can(x, c, g, m) && Can(y, c, g, m) && Apart(UsesOf(x), UsesOf(y))
    requires Fits(IfFalse(Binary(Or, x, y), dest, jumpIfNull, g), p)
    ensures Ran(Join(UsesOf(x), UsesOf(y)), {}, p, c, g, m, m')
    ensures m'.pc == Landing(p, Takes(Or3(Cond(x, c), Cond(y, c)), False, jumpIfNull), dest,
      |IfFalse(Binary(Or, x, y), dest, jumpIfNull, g).code|)
    decreases Size(x) + Size(y), 5
  {
    var d2, g0 := NewLabel(g), MakeLabel(g);
    var g1 := IfTrue(x, d2, !jumpIfNull, g0);
    IfFalseOrStages(x, y, dest, jumpIfNull, g, p);
    var m1 := IfTrueCorrect(x, d2, !jumpIfNull, g0, p, c, m);
    RanEarlier(UsesOf(x), {}, p, c, g, g0, m, m1);
    if Takes(Cond(x, c), True, !jumpIfNull) {
      SecondSkipped(x, y, g, p, c, m, m1);
      m' := m1;
    } else {
      m' := SecondCorrect(false, x, y, dest, jumpIfNull, g, g1, p, c, m, m1);
    }
  }

  lemma IfFalseOrStages(x: Expr, y: Expr, dest: int, jumpIfNull: bool, g: Gen, p: Program)
    requires Inv(g) && AllSafe(g, UsesOf(x).regs) && AllSafe(g, UsesOf(y).regs)
    requires Fits(IfFalse(Binary(Or, x, y), dest, jumpIfNull, g), p)
    ensures var g1 := IfTrue(x, NewLabel(g), !jumpIfNull, MakeLabel(g));
      var g2 := IfFalse(y, dest, jumpIfNull, g1);
      && Grows(g, MakeLabel(g)) && AllSafe(MakeLabel(g), UsesOf(x).regs) && Grows(g, g1) && Fits(g1, p) && Fits(g2, p)
      && Address(p, NewLabel(g)) == |g2.code| && |IfFalse(Binary(Or, x, y), dest, jumpIfNull, g).code| == |g2.code|
  {
    var d2, g0 := NewLabel(g), MakeLabel(g);
    LabelSafe(g, UsesOf(x).regs, UsesOf(y).regs);
    IfTrueShape(x, d2, !jumpIfNull, g0);
    var g1 := IfTrue(x, d2, !jumpIfNull, g0);
    StaysSafe(g0, g1, UsesOf(y).regs);
    IfFalseShape(y, dest, jumpIfNull, g1);
    var g2 := IfFalse(y, dest, jumpIfNull, g1);
    assert IfFalse(Binary(Or, x, y), dest, jumpIfNull, g) == Resolve(g2, d2);
    LabelStages(g, g1, g2, p);
  }

  lemma {:induction false} IfFalseAndCorrect(x: Expr, y: Expr, dest: int, jumpIfNull: bool, g: Gen, p: Program,
      c: Context, m: Machine) returns (m': Machine)
    requires Can(x, c, g, m) && Can(y, c, g, m) && Apart(UsesOf(x), UsesOf(y))
    requires Fits(IfFalse(Binary(And, x, y), dest, jumpIfNull, g), p)
    ensures Ran(Join(UsesOf(x), UsesOf(y)), {}, p, c, g, m, m')
    ensures m'.pc == Landing(p, Takes(And3(Cond(x, c), Cond(y, c)), False, jumpIfNull), dest,
      |IfFalse(Binary(And, x, y), dest, jumpIfNull, g).code|)
    decreases Size(x) + Size(y), 5
  {
    IfFalseShape(x, dest, jumpIfNull, g);
    var g1 := IfFalse(x, dest, jumpIfNull, g);
    StaysSafe(g, g1, UsesOf(y).regs);
    IfFalseShape(y, dest, jumpIfNull, g1);
    var g2 := IfFalse(y, dest, jumpIfNull, g1);
    assert IfFalse(Binary(And, x, y), dest, jumpIfNull, g) == g2;
    FitsPart(g1, g2, p);
    var m1 := IfFalseCorrect(x, dest, jumpIfNull, g, p, c, m);
    if Takes(Cond(x, c), False, jumpIfNull) {
      SecondSkipped(x, y, g, p, c, m, m1);
      m' := m1;
    } else {
      m' := SecondCorrect(false, x, y, dest, jumpIfNull, g, g1, p, c, m, m1);
    }
  }

  /** A jump on the complementary comparison is a jump on the comparison being false. */
  lemma Opposite(k: Engine, op: CompareOp, v: Value, w: Value, jumpIfNull: bool)
    ensures Takes(CompareTruth(k, Complement(op), w, v, false), True, jumpIfNull) ==
      Takes(Compare3(k, op, v, w), False, jumpIfNull)
  {
  }

  lemma OppositeIs(k: Engine, n: bool, v: Value, w: Value, jumpIfNull: bool)
    ensures Takes(CompareTruth(k, if n then Eq else Ne, w, v, true), True, false) ==
      Takes(OfBool(Same(k, v, w) != n), False, jumpIfNull)
  {
  }

  lemma {:induction false} JumpTestCorrect(e: Expr, dest: int, ifTrue: bool, jumpIfNull: bool, g: Gen,
      p: Program, c: Context, m: Machine) returns (m': Machine)
    requires Can(e, c, g, m) && Fits(JumpTest(e, dest, ifTrue, jumpIfNull, g), p)
    ensures Ran(UsesOf(e), {}, p, c, g, m, m')
    ensures m'.pc == Landing(p, Takes(RealTruth(c.engine, Eval(e, c)), OfBool(ifTrue), jumpIfNull), dest,
      |JumpTest(e, dest, ifTrue, jumpIfNull, g).code|)
    decreases Size(e), 3
  {
    var a := CodeTemp(e, g);
    var i := if ifTrue then OpIf(a.reg, dest, jumpIfNull) else OpIfNot(a.reg, dest, jumpIfNull);
    ReleaseCode(Emit(a.g, i), a.free, p);
    var m1 := TempCorrect(e, g, p, c, m);
    Fetch(a.g, i, p, m1);
    DoTest(ifTrue, a.reg, dest, jumpIfNull, p, c, m1);
    m' := Branch(p, m1, Takes(RealTruth(c.engine, Eval(e, c)), OfBool(ifTrue), jumpIfNull), dest);
    RanGo(UsesOf(e), {}, m'.pc, p, c, g, m, m1);
  }

  lemma {:induction false} JumpNullCorrect(n: bool, x: Expr, dest: int, g: Gen, p: Program, c: Context,
      m: Machine) returns (m': Machine)
    requires Can(x, c, g, m) && Fits(JumpNull(n, x, dest, g), p)
    ensures Ran(UsesOf(x), {}, p, c, g, m, m')
    ensures m'.pc == Landing(p, Eval(x, c).Null? != n, dest, |JumpNull(n, x, dest, g).code|)
    decreases Size(x), 3
  {
    var a := CodeTemp(x, g);
    var i := NullTest(n, a.reg, dest);
    ReleaseCode(Emit(a.g, i), a.free, p);
    var m1 := TempCorrect(x, g, p, c, m);
    Fetch(a.g, i, p, m1);
    DoNullTest(n, a.reg, dest, p, c, m1);
    m' := Branch(p, m1, Eval(x, c).Null? != n, dest);
    RanGo(UsesOf(x), {}, m'.pc, p, c, g, m, m1);
  }

  lemma {:induction false} JumpCompareCorrect(op: CompareOp, x: Expr, y: Expr, dest: int, nullEq: bool,
      jumpIfNull: bool, g: Gen, p: Program, c: Context, m: Machine) returns (m': Machine)
    requires Can(x, c, g, m) && Can(y, c, g, m) && Apart(UsesOf(x), UsesOf(y))
    requires Fits(JumpCompare(op, x, y, dest, nullEq, jumpIfNull, g), p)
    ensures Ran(Join(UsesOf(x), UsesOf(y)), {}, p, c, g, m, m')
    ensures var truth := CompareTruth(c.engine, op, Eval(y, c), Eval(x, c), nullEq);
      m'.pc == Landing(p, Takes(truth, True, jumpIfNull), dest,
        |JumpCompare(op, x, y, dest, nullEq, jumpIfNull, g).code|)
    decreases Size(x) + Size(y), 3
  {
    var q := CodePair(x, y, g);
    var i := OpJumpCompare(op, q.right, dest, q.left, nullEq, jumpIfNull);
    FreePairCode(q, Emit(q.g, i), p);
    var m1 := PairCorrect(x, y, g, p, c, m);
    Fetch(q.g, i, p, m1);
    DoCompareJump(op, q.left, q.right, dest, nullEq, jumpIfNull, p, c, m1);
    m' := Branch(p, m1, Takes(CompareTruth(c.engine, op, Eval(y, c), Eval(x, c), nullEq), True, jumpIfNull), dest);
    RanGo(Join(UsesOf(x), UsesOf(y)), {}, m'.pc, p, c, g, m, m1);
  }

  lemma {:induction false} BetweenJumpCorrect(x: Expr, y: Expr, z: Expr, dest: int, ifTrue: bool,
      jumpIfNull: bool, g: Gen, p: Program, c: Context, m: Machine) returns (m': Machine)
    requires Can(x, c, g, m) && Can(y, c, g, m) && Can(z, c, g, m)
    requires Apart(UsesOf(x), UsesOf(y)) && Apart(Join(UsesOf(x), UsesOf(y)), UsesOf(z))
    requires Fits(CodeBetweenJump(x, y, z, dest, ifTrue, jumpIfNull, g), p)
    ensures Ran(Join(Join(UsesOf(x), UsesOf(y)), UsesOf(z)), {}, p, c, g, m, m')
    ensures var truth := Between3(c.engine, Eval(x, c), Eval(y, c), Eval(z, c));
      m'.pc == Landing(p, Takes(truth, OfBool(ifTrue), jumpIfNull), dest,
        |CodeBetweenJump(x, y, z, dest, ifTrue, jumpIfNull, g).code|)
    decreases Size(x) + Size(y) + Size(z) + 5, 3
  {
    var u, v := UsesOf(x), Join(UsesOf(y), UsesOf(z));
    TempShape(x, g);
    var a := CodeTemp(x, g);
    var both := Bounds(a.reg, y, z);
    BoundsUses(a.reg, y, z);
    StaysSafe(g, a.g, v.regs);
    if ifTrue {
      IfTrueShape(both, dest, jumpIfNull, a.g);
    } else {
      IfFalseShape(both, dest, jumpIfNull, a.g);
    }
    var h := if ifTrue then IfTrue(both, dest, jumpIfNull, a.g) else IfFalse(both, dest, jumpIfNull, a.g);
    ReleaseCode(h, a.free, p);
    FitsPart(a.g, h, p);
    var m1 := TempCorrect(x, g, p, c, m);
    var d := Pin(c, a.reg, Eval(x, c));
    BoundsReady(y, z, a.reg, Eval(x, c), u, p, c, g, a.g, m, m1);
    BoundsMeaning(y, z, a.reg, Eval(x, c), c);
    if ifTrue {
      m' := IfTrueCorrect(both, dest, jumpIfNull, a.g, p, d, m1);
    } else {
      m' := IfFalseCorrect(both, dest, jumpIfNull, a.g, p, d, m1);
    }
    BoundsRan(x, y, z, a.reg, p, c, g, a.g, m, m1, m');
  }

  /** With X pinned to its register, the tree  X>=Y AND X<=Z  may run and means BETWEEN. */
  lemma BoundsReady(y: Expr, z: Expr, r: int, v: Value, u: Uses, p: Program, c: Context, g: Gen, h: Gen,
      m: Machine, m1: Machine)
    requires Distinct(y) && Distinct(z) && Live(UsesOf(y), c, g, m) && Live(UsesOf(z), c, g, m)
    requires Apart(UsesOf(y), UsesOf(z)) && Apart(u, UsesOf(y)) && Apart(u, UsesOf(z))
    requires Ran(u, {}, p, c, g, m, m1) && Grows(g, h) && m1.pc == |h.code| && Safe(h, r) && Get(m1, r) == v
    ensures Can(Bounds(r, y, z), Pin(c, r, v), h, m1)
    ensures Agree(c, Pin(c, r, v), UsesOf(y).regs, true) && Agree(c, Pin(c, r, v), UsesOf(z).regs, true)
  {
    BoundReady(y, r, v, u, p, c, g, h, m, m1);
    BoundReady(z, r, v, u, p, c, g, h, m, m1);
    BoundsUses(r, y, z);
    BoundsLive(y, z, r, Pin(c, r, v), h, m1);
  }

  lemma BoundsLive(y: Expr, z: Expr, r: int, c: Context, g: Gen, m: Machine)
    requires Live(UsesOf(y), c, g, m) && Live(UsesOf(z), c, g, m)
    requires Safe(g, r) && r in c.pins && Get(m, r) == c.pins[r]
    ensures Live(UsesOf(Bounds(r, y, z)), c, g, m)
  {
    BoundsUses(r, y, z);
  }

  lemma BoundReady(y: Expr, r: int, v: Value, u: Uses, p: Program, c: Context, g: Gen, h: Gen, m: Machine,
      m1: Machine)
    requires Distinct(y) && Live(UsesOf(y), c, g, m) && Apart(u, UsesOf(y))
    requires Ran(u, {}, p, c, g, m, m1) && Grows(g, h) && m1.pc == |h.code| && Safe(h, r) && Get(m1, r) == v
    ensures Can(y, Pin(c, r, v), h, m1) && Agree(c, Pin(c, r, v), UsesOf(y).regs, true)
  {
    CanNext(y, u, {}, p, c, g, h, m, m1);
    SitesOwned(y);
    PinLive(UsesOf(y), r, v, c, h, m1);
  }

  lemma BoundsMeaning(y: Expr, z: Expr, r: int, v: Value, c: Context)
    requires Agree(c, Pin(c, r, v), UsesOf(y).regs, true) && Agree(c, Pin(c, r, v), UsesOf(z).regs, true)
    ensures Cond(Bounds(r, y, z), Pin(c, r, v)) == Between3(c.engine, v, Eval(y, c), Eval(z, c))
  {
    EvalDepends(y, c, Pin(c, r, v));
    EvalDepends(z, c, Pin(c, r, v));
    BoundsCond(r, y, z, Pin(c, r, v));
  }

  lemma BoundsCond(r: int, y: Expr, z: Expr, d: Context)
    requires r in d.pins
    ensures Cond(Bounds(r, y, z), d) == Between3(d.engine, d.pins[r], Eval(y, d), Eval(z, d))
  {
    var x := Leaf(Register(r));
    assert Eval(x, d) == d.pins[r];
    assert Cond(Binary(Compare(Ge), x, y), d) == Compare3(d.engine, Ge, d.pins[r], Eval(y, d));
    assert Cond(Binary(Compare(Le), x, z), d) == Compare3(d.engine, Le, d.pins[r], Eval(z, d));
  }

  lemma BoundsRan(x: Expr, y: Expr, z: Expr, r: int, p: Program, c: Context, g: Gen, h: Gen, m: Machine,
      m1: Machine, m2: Machine)
    requires Distinct(x) && Distinct(y) && Distinct(z) && Apart(UsesOf(y), UsesOf(z))
    requires Apart(UsesOf(x), UsesOf(y)) && Apart(Join(UsesOf(x), UsesOf(y)), UsesOf(z))
    requires Ran(UsesOf(x), {}, p, c, g, m, m1) && Grows(g, h)
    requires Ran(UsesOf(Bounds(r, y, z)), {}, p, Pin(c, r, Eval(x, c)), h, m1, m2)
    ensures Ran(Join(Join(UsesOf(x), UsesOf(y)), UsesOf(z)), {}, p, c, g, m, m2)
  {
    var v := Join(UsesOf(y), UsesOf(z));
    BoundsUses(r, y, z);
    SitesOwned(x);
    SitesOwned(y);
    SitesOwned(z);
    var d := Pin(c, r, Eval(x, c));
    assert Ran(v, {}, p, d, h, m1, m2);
    PinRan(v, {}, p, d, c, h, m1, m2);
    RanTwice(UsesOf(x), v, {}, {}, p, c, g, h, m, m1, m2);
    var a, b := Join(UsesOf(x), v), Join(Join(UsesOf(x), UsesOf(y)), UsesOf(z));
    assert a.ids == b.ids && a.sites == b.sites;
  }

  lemma {:induction false} InJumpCorrect(x: Expr, l: Exprs, id: int, dest: int, ifTrue: bool, jumpIfNull: bool,
      g: Gen, p: Program, c: Context, m: Machine) returns (m': Machine)
    requires Can(In(x, l, id), c, g, m) && Fits(CodeInJump(x, l, id, dest, ifTrue, jumpIfNull, g), p)
    ensures Ran(UsesOf(In(x, l, id)), {}, p, c, g, m, m')
    ensures m'.pc == Landing(p, Takes(In3(c.engine, Eval(x, c), Keys(l, c)), OfBool(ifTrue), jumpIfNull), dest,
                             |CodeInJump(x, l, id, dest, ifTrue, jumpIfNull, g).code|)
    decreases Size(x) + SizeAll(l), 6
  {
    var e := In(x, l, id);
    var own := NewLabel(g);
    if !ifTrue && jumpIfNull {
      m' := InCorrect(x, l, id, dest, dest, g, p, c, m);
    } else {
      var g0 := MakeLabel(g);
      LabelSafe(g, UsesOf(e).regs, {});
      var ifFalse := if ifTrue then own else dest;
      var ifNull := if ifTrue && jumpIfNull then dest else own;
      InShape(x, l, id, ifFalse, ifNull, g0);
      var g1 := CodeIn(x, l, id, ifFalse, ifNull, g0);
      Reflexive(g1);
      EmitGrows(g1, g1, OpGoto(dest));
      var g2 := if ifTrue then Emit(g1, OpGoto(dest)) else g1;
      LabelAfter(g, g1, g2);
      FitsPart(g2, Resolve(g2, own), p);
      LabelAddress(g2, own, p);
      FitsPart(g1, g2, p);
      m' := InCorrect(x, l, id, ifFalse, ifNull, g0, p, c, m);
      RanEarlier(UsesOf(e), {}, p, c, g, g0, m, m');
      if ifTrue && In3(c.engine, Eval(x, c), Keys(l, c)) == True {
        Fetch(g1, OpGoto(dest), p, m');
        DoGoto(dest, p, c, m');
        RanGo(UsesOf(e), {}, Address(p, dest), p, c, g, m, m');
        m' := m'.(pc := Address(p, dest));
      }
    }
  }
}
