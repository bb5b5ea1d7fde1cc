/** What the generators do to the allocation state, whatever code they emit. */
module CodeGenShape {
  import opened ExprTree
  import opened Vdbe
  import opened CodeGen

  /** A register in use: allocated, and in neither free pool. */
  ghost predicate Safe(g: Gen, x: int) {
    1 <= x <= g.nMem && x !in g.temps && !(g.iRange <= x < g.iRange + g.nRange)
  }

  ghost predicate Inv(g: Gen) {
    && (forall i :: 0 <= i < |g.temps| ==>
          1 <= g.temps[i] <= g.nMem && !(g.iRange <= g.temps[i] < g.iRange + g.nRange))
    && (forall i, j :: 0 <= i < j < |g.temps| ==> g.temps[i] != g.temps[j])
    && (g.nRange > 0 ==> 1 <= g.iRange && g.iRange + g.nRange <= g.nMem + 1)
    && (forall l :: l in g.labels ==> 0 - g.nLabel <= l < 0)
  }

  /** Emitted code and resolved labels stay. */
  ghost predicate Kept(g: Gen, h: Gen) {
    && g.code <= h.code
    && (forall l :: l in g.labels ==> l in h.labels && h.labels[l] == g.labels[l])
  }

  /** What every generator does to the allocation state: it appends code, resolves
      only labels it made itself and gives no register in use back to a pool. */
  ghost predicate Grows(g: Gen, h: Gen) {
    && Inv(h)
    && Kept(g, h)
    && g.nMem <= h.nMem && g.nLabel <= h.nLabel
    && (forall x :: Safe(g, x) ==> Safe(h, x))
    && (forall l :: l in h.labels && l !in g.labels ==> 0 - h.nLabel <= l < 0 - g.nLabel)
  }

  ghost predicate AllSafe(g: Gen, regs: set<int>) {
    forall x :: x in regs ==> Safe(g, x)
  }

  ghost predicate Usable(g: Gen, h: Gen, reg: int, free: int) {
    Safe(h, reg) && if free == 0 then Safe(g, reg) else free == reg && !Safe(g, free)
  }

  ghost predicate PairUsable(g: Gen, h: Gen, p: Pair) {
    && Usable(g, h, p.left, p.freeLeft) && Usable(g, h, p.right, p.freeRight)
    && (p.freeLeft != 0 ==> p.freeLeft != p.freeRight)
  }

  ghost predicate Ready(g: Gen, regs: set<int>, t: int) {
    Inv(g) && Safe(g, t) && AllSafe(g, regs) && t !in regs
  }

  // ----- one allocation step -----

  lemma Chain(a: Gen, b: Gen, c: Gen)
    requires Grows(a, b) && Grows(b, c)
    ensures Grows(a, c)
  {
  }

  lemma EmitGrows(g: Gen, h: Gen, i: Instr)
    requires Grows(g, h)
    ensures Grows(g, Emit(h, i)) && Grows(h, Emit(h, i))
    ensures forall x :: Safe(Emit(h, i), x) <==> Safe(h, x)
  {
  }

  lemma Reflexive(g: Gen)
    requires Inv(g)
    ensures Grows(g, g)
  {
  }

  lemma LabelGrows(g: Gen)
    requires Inv(g)
    ensures Grows(g, MakeLabel(g))
    ensures forall x :: Safe(MakeLabel(g), x) <==> Safe(g, x)
  {
  }

  /** A label is still unresolved after code generated since it was made. */
  lemma LabelFree(g: Gen, h: Gen)
    requires Inv(g) && Grows(MakeLabel(g), h)
    ensures Grows(g, h)
    ensures NewLabel(g) !in h.labels && 0 - h.nLabel <= NewLabel(g) < 0 - g.nLabel
  {
    LabelGrows(g);
    Chain(g, MakeLabel(g), h);
  }

  lemma ResolveGrows(g: Gen, h: Gen, at: int)
    requires Grows(g, h) && at !in h.labels && 0 - h.nLabel <= at < 0 - g.nLabel
    ensures Grows(g, Resolve(h, at)) && Kept(h, Resolve(h, at))
    ensures forall x :: Safe(Resolve(h, at), x) <==> Safe(h, x)
  {
  }

  lemma NewRegGrows(g: Gen)
    requires Inv(g)
    ensures Grows(g, NewReg(g).g) && Safe(NewReg(g).g, NewReg(g).reg) && !Safe(g, NewReg(g).reg)
  {
    var r := NewReg(g);
    assert r.reg !in g.temps;
  }

  lemma TempGrows(g: Gen)
    requires Inv(g)
    ensures Grows(g, GetTemp(g).g) && Safe(GetTemp(g).g, GetTemp(g).reg) && !Safe(g, GetTemp(g).reg)
    ensures GetTemp(g).g.code == g.code
  {
    NewRegGrows(g);
  }

  /** Releasing a register that was not in use at `g` keeps every register that was. */
  lemma ReleaseGrows(g: Gen, h: Gen, r: int)
    requires Grows(g, h)
    requires r == 0 || (Safe(h, r) && !Safe(g, r))
    ensures Grows(g, Release(h, r))
    ensures forall x :: Safe(h, x) && x != r ==> Safe(Release(h, r), x)
    ensures Release(h, r).code == h.code && Release(h, r).labels == h.labels
  {
  }

  lemma RangeGrows(g: Gen, n: nat)
    requires Inv(g)
    ensures Grows(g, GetRange(g, n).g)
    ensures forall x :: GetRange(g, n).reg <= x < GetRange(g, n).reg + n ==> Safe(GetRange(g, n).g, x) && !Safe(g, x)
  {
    assert forall i :: 0 <= i < |g.temps| ==> g.temps[i] <= g.nMem;
  }

  lemma ReleaseRangeGrows(g: Gen, h: Gen, first: int, n: nat)
    requires Grows(g, h)
    requires forall x :: first <= x < first + n ==> Safe(h, x) && !Safe(g, x)
    ensures Grows(g, ReleaseRange(h, first, n))
    ensures ReleaseRange(h, first, n).code == h.code && ReleaseRange(h, first, n).labels == h.labels
  {
    assert forall i :: 0 <= i < |h.temps| ==> !Safe(h, h.temps[i]);
    if n > 0 {
      assert Safe(h, first) && Safe(h, first + n - 1);
    }
  }

  lemma StaysSafe(g: Gen, h: Gen, regs: set<int>)
    requires Grows(g, h) && AllSafe(g, regs)
    ensures AllSafe(h, regs)
  {
  }

  // ----- trees built by the generators -----

  lemma TestUses(base: int, test: Expr)
    ensures var u, v := UsesOf(CaseTest(base, test)), UsesOf(test);
      u.ids == v.ids && u.sites == v.sites && u.regs == v.regs + (if base == 0 then {} else {base})
    ensures Distinct(test) ==> Distinct(CaseTest(base, test))
  {
    assert UsesOf(Leaf(Register(base))) == Uses({base}, {}, {});
  }

  lemma BoundsUses(reg: int, y: Expr, z: Expr)
    ensures var u, v := UsesOf(Bounds(reg, y, z)), Join(UsesOf(y), UsesOf(z));
      u.ids == v.ids && u.sites == v.sites && u.regs == v.regs + {reg}
    ensures Distinct(y) && Distinct(z) && Apart(UsesOf(y), UsesOf(z)) ==> Distinct(Bounds(reg, y, z))
  {
    var r := Leaf(Register(reg));
    BoundUses(Ge, reg, y);
    BoundUses(Le, reg, z);
    var lo := Binary(Compare(Ge), r, y);
    var hi := Binary(Compare(Le), r, z);
    assert Bounds(reg, y, z) == Binary(And, lo, hi);
    assert UsesOf(Bounds(reg, y, z)) == Join(UsesOf(lo), UsesOf(hi));
  }

  lemma BoundUses(op: CompareOp, reg: int, y: Expr)
    ensures var e, v := Binary(Compare(op), Leaf(Register(reg)), y), UsesOf(y);
      UsesOf(e) == Uses(v.regs + {reg}, v.ids, v.sites) && (Distinct(y) ==> Distinct(e))
  {
    assert UsesOf(Leaf(Register(reg))) == Uses({reg}, {}, {});
  }

  // ----- the generators -----

  lemma {:induction false} TempShape(e: Expr, g: Gen)
    requires Inv(g) && AllSafe(g, UsesOf(e).regs)
    ensures Grows(g, CodeTemp(e, g).g)
    ensures Usable(g, CodeTemp(e, g).g, CodeTemp(e, g).reg, CodeTemp(e, g).free)
    ensures CodeTemp(e, g).free == 0 ==> CodeTemp(e, g).reg in UsesOf(e).regs
    decreases Size(e), 1
  {
    var t := GetTemp(g);
    TempGrows(g);
    StaysSafe(g, t.g, UsesOf(e).regs);
    TargetShape(e, t.reg, t.g);
    var o := CodeTarget(e, t.reg, t.g);
    Chain(g, t.g, o.g);
    if o.reg != t.reg {
      ReleaseGrows(g, o.g, t.reg);
    }
  }

  lemma {:induction false} PairShape(x: Expr, y: Expr, g: Gen)
    requires Inv(g) && AllSafe(g, UsesOf(x).regs) && AllSafe(g, UsesOf(y).regs)
    ensures Grows(g, CodePair(x, y, g).g) && PairUsable(g, CodePair(x, y, g).g, CodePair(x, y, g))
    decreases Size(x) + Size(y), 2
  {
    TempShape(x, g);
    var a := CodeTemp(x, g);
    StaysSafe(g, a.g, UsesOf(y).regs);
    TempShape(y, a.g);
    Chain(g, a.g, CodeTemp(y, a.g).g);
  }

  lemma FreePairGrows(g: Gen, h: Gen, p: Pair)
    requires Grows(g, h) && PairUsable(g, h, p)
    ensures Grows(g, FreePair(p, h))
    ensures FreePair(p, h).code == h.code && FreePair(p, h).labels == h.labels
  {
    ReleaseGrows(g, h, p.freeLeft);
    ReleaseGrows(g, Release(h, p.freeLeft), p.freeRight);
  }

  lemma {:induction false} PairThen(x: Expr, y: Expr, g: Gen, i: Instr)
    requires Inv(g) && AllSafe(g, UsesOf(x).regs) && AllSafe(g, UsesOf(y).regs)
    ensures Grows(g, FreePair(CodePair(x, y, g), Emit(CodePair(x, y, g).g, i)))
    decreases Size(x) + Size(y), 3
  {
    var p := CodePair(x, y, g);
    PairShape(x, y, g);
    EmitGrows(g, p.g, i);
    FreePairGrows(g, Emit(p.g, i), p);
  }

  lemma {:induction false} TempThen(e: Expr, g: Gen, i: Instr)
    requires Inv(g) && AllSafe(g, UsesOf(e).regs)
    ensures Grows(g, Release(Emit(CodeTemp(e, g).g, i), CodeTemp(e, g).free))
    decreases Size(e), 2
  {
    var a := CodeTemp(e, g);
    TempShape(e, g);
    EmitGrows(g, a.g, i);
    ReleaseGrows(g, Emit(a.g, i), a.free);
  }

  lemma {:induction false} IntoShape(e: Expr, t: int, g: Gen)
    requires Ready(g, UsesOf(e).regs, t)
    ensures Grows(g, CodeInto(e, t, g))
    decreases Size(e), 1
  {
    Reflexive(g);
    if e.Leaf? && e.atom.Register? {
      EmitGrows(g, g, OpCopy(e.atom.reg, t));
    } else {
      TargetShape(e, t, g);
      var o := CodeTarget(e, t, g);
      EmitGrows(g, o.g, OpSCopy(o.reg, t));
    }
  }

  lemma {:induction false} TargetShape(e: Expr, t: int, g: Gen)
    requires Ready(g, UsesOf(e).regs, t)
    ensures Grows(g, CodeTarget(e, t, g).g)
    ensures CodeTarget(e, t, g).reg == t || CodeTarget(e, t, g).reg in UsesOf(e).regs
    decreases Size(e), 0
  {
    Reflexive(g);
    match e
    case Leaf(a) => EmitGrows(g, g, AtomInstr(a, t));
    case Unary(u, x) =>
      if u.Plain? {
        TargetShape(x, t, g);
      } else {
        UnaryShape(u, x, t, g);
      }
    case Binary(b, x, y) =>
      var p := CodePair(x, y, g);
      PairThen(x, y, g, BinaryInstr(b, p.left, p.right, t));
    case Between(x, y, z) => BetweenShape(x, y, z, t, g);
    case In(x, l, id) => InValueShape(x, l, id, t, g);
    case Coalesce(x, l) => CoalesceShape(x, l, t, g);
    case Call(f, l) => CallShape(f, l, t, g);
    case Case(w) => CaseShape(w, t, g);
    case CaseOf(x, w) => CaseOfShape(x, w, t, g);
  }

  lemma {:induction false} UnaryShape(u: UnaryOp, x: Expr, t: int, g: Gen)
    requires !u.Plain? && Ready(g, UsesOf(x).regs, t)
    ensures Grows(g, CodeUnary(u, x, t, g))
    decreases Size(x), 4
  {
    match u
    case Cast(a) => CastShape(a, x, t, g);
    case Negate => NegateShape(x, t, g);
    case Not => TempThen(x, g, OpNot(CodeTemp(x, g).reg, t));
    case BitNot => TempThen(x, g, OpBitNot(CodeTemp(x, g).reg, t));
    case IsNull(n) => IsNullShape(n, x, t, g);
  }

  lemma {:induction false} CastShape(a: Affinity, x: Expr, t: int, g: Gen)
    requires Ready(g, UsesOf(x).regs, t)
    ensures Grows(g, CodeCast(a, x, t, g))
    decreases Size(x), 1
  {
    TargetShape(x, t, g);
    var o := CodeTarget(x, t, g);
    EmitGrows(g, o.g, OpSCopy(o.reg, t));
    EmitGrows(g, if o.reg != t then Emit(o.g, OpSCopy(o.reg, t)) else o.g, OpConvert(a, t));
  }

  lemma {:induction false} NegateShape(x: Expr, t: int, g: Gen)
    requires Ready(g, UsesOf(x).regs, t)
    ensures Grows(g, CodeNegate(x, t, g))
    decreases Size(x), 3
  {
    Reflexive(g);
    if IsLiteral(x) && x.atom.v.Int? {
      EmitGrows(g, g, OpLoad(Int(-x.atom.v.n), t));
    } else if IsLiteral(x) && x.atom.v.Real? {
      EmitGrows(g, g, OpLoad(Real(-x.atom.v.r), t));
    } else {
      MinusShape(x, t, g);
    }
  }

  lemma {:induction false} MinusShape(x: Expr, t: int, g: Gen)
    requires Ready(g, UsesOf(x).regs, t)
    ensures Grows(g, CodeMinus(x, t, g))
    decreases Size(x), 2
  {
    var z := GetTemp(g);
    TempGrows(g);
    var g1 := Emit(z.g, OpLoad(Int(0), z.reg));
    EmitGrows(g, z.g, OpLoad(Int(0), z.reg));
    StaysSafe(g, g1, UsesOf(x).regs);
    TempShape(x, g1);
    var a := CodeTemp(x, g1);
    Chain(g, g1, a.g);
    var g2 := Emit(a.g, OpArith(Subtract, a.reg, z.reg, t));
    EmitGrows(g, a.g, OpArith(Subtract, a.reg, z.reg, t));
    ReleaseGrows(g, g2, z.reg);
    ReleaseGrows(g, Release(g2, z.reg), a.free);
  }

  lemma {:induction false} IsNullShape(negated: bool, x: Expr, t: int, g: Gen)
    requires Ready(g, UsesOf(x).regs, t)
    ensures Grows(g, CodeIsNull(negated, x, t, g))
    decreases Size(x), 3
  {
    Reflexive(g);
    var g1 := Emit(g, OpLoad(Int(1), t));
    EmitGrows(g, g, OpLoad(Int(1), t));
    StaysSafe(g, g1, UsesOf(x).regs);
    TempShape(x, g1);
    var a := CodeTemp(x, g1);
    Chain(g, g1, a.g);
    var test := NullTest(negated, a.reg, |a.g.code| + 2);
    EmitGrows(g, a.g, test);
    EmitGrows(g, Emit(a.g, test), OpAddImm(t, -1));
    ReleaseGrows(g, Emit(Emit(a.g, test), OpAddImm(t, -1)), a.free);
  }

  ghost predicate HalfUsable(g: Gen, h: Gen, f: Half) {
    && Safe(h, f.r3) && Safe(h, f.r4) && f.r3 != f.r4 && !Safe(g, f.r3) && !Safe(g, f.r4)
    && Usable(g, h, f.left, f.freeLeft) && f.left != f.r3 && f.left != f.r4
  }

  lemma {:induction false} BetweenLowShape(x: Expr, y: Expr, g: Gen)
    requires Inv(g) && AllSafe(g, UsesOf(x).regs) && AllSafe(g, UsesOf(y).regs)
    ensures Grows(g, CodeBetweenLow(x, y, g).g)
    ensures HalfUsable(g, CodeBetweenLow(x, y, g).g, CodeBetweenLow(x, y, g))
    decreases Size(x) + Size(y), 3
  {
    var p := CodePair(x, y, g);
    PairShape(x, y, g);
    var r3 := GetTemp(p.g);
    TempGrows(p.g);
    Chain(g, p.g, r3.g);
    var r4 := GetTemp(r3.g);
    TempGrows(r3.g);
    Chain(g, r3.g, r4.g);
    var i1 := OpStoreCompare(Ge, p.right, r3.reg, p.left, false);
    EmitGrows(g, r4.g, i1);
    ReleaseGrows(g, Emit(r4.g, i1), p.freeRight);
  }

  lemma {:induction false} BetweenShape(x: Expr, y: Expr, z: Expr, t: int, g: Gen)
    requires Inv(g) && AllSafe(g, UsesOf(x).regs) && AllSafe(g, UsesOf(y).regs) && AllSafe(g, UsesOf(z).regs)
    ensures Grows(g, CodeBetween(x, y, z, t, g))
    decreases Size(x) + Size(y) + Size(z), 4
  {
    var f := CodeBetweenLow(x, y, g);
    BetweenLowShape(x, y, g);
    StaysSafe(g, f.g, UsesOf(z).regs);
    TempShape(z, f.g);
    var b := CodeTemp(z, f.g);
    Chain(g, f.g, b.g);
    var i2 := OpStoreCompare(Le, b.reg, f.r4, f.left, false);
    EmitGrows(g, b.g, i2);
    var i3 := OpLogic(true, f.r3, f.r4, t);
    EmitGrows(g, Emit(b.g, i2), i3);
    FreeBetweenGrows(g, f, b, Emit(Emit(b.g, i2), i3));
  }

  lemma FreeBetweenGrows(g: Gen, f: Half, b: Operand, h: Gen)
    requires Grows(g, f.g) && Grows(g, h) && Grows(f.g, b.g)
    requires HalfUsable(g, f.g, f) && Usable(f.g, b.g, b.reg, b.free)
    requires forall x :: Safe(h, x) <==> Safe(b.g, x)
    ensures Grows(g, FreeBetween(f, b.free, h))
    ensures FreeBetween(f, b.free, h).code == h.code && FreeBetween(f, b.free, h).labels == h.labels
  {
    ReleaseGrows(g, h, f.r3);
    var h1 := Release(h, f.r3);
    ReleaseGrows(g, h1, f.r4);
    var h2 := Release(h1, f.r4);
    ReleaseGrows(g, h2, f.freeLeft);
    var h3 := Release(h2, f.freeLeft);
    ReleaseGrows(g, h3, b.free);
  }

  lemma {:induction false} InValueShape(x: Expr, l: Exprs, id: int, t: int, g: Gen)
    requires Inv(g) && AllSafe(g, UsesOf(x).regs) && AllSafe(g, UsesAll(l).regs)
    ensures Grows(g, CodeInValue(x, l, id, t, g))
    decreases Size(x) + SizeAll(l), 5
  {
    var g1 := MakeLabel(g);
    LabelGrows(g);
    var g1b := MakeLabel(g1);
    LabelGrows(g1);
    var g2 := Emit(g1b, OpLoad(Null, t));
    Reflexive(g1b);
    EmitGrows(g1b, g1b, OpLoad(Null, t));
    Chain(g, g1, g1b);
    Chain(g, g1b, g2);
    StaysSafe(g, g2, UsesOf(x).regs);
    StaysSafe(g, g2, UsesAll(l).regs);
    InShape(x, l, id, NewLabel(g), NewLabel(g1), g2);
    var g3 := CodeIn(x, l, id, NewLabel(g), NewLabel(g1), g2);
    Chain(g1b, g2, g3);
    var g3b := Emit(g3, OpLoad(Int(1), t));
    EmitGrows(g1b, g3, OpLoad(Int(1), t));
    TwoLabels(g, g3b, OpAddImm(t, 0));
  }

  /** Resolving two labels, the first before and the second after one more instruction. */
  lemma TwoLabels(g: Gen, h: Gen, i: Instr)
    requires Inv(g) && Grows(MakeLabel(MakeLabel(g)), h)
    ensures var k := Emit(Resolve(h, NewLabel(g)), i);
      Grows(g, Resolve(k, NewLabel(MakeLabel(g)))) && Kept(h, k) && Kept(k, Resolve(k, NewLabel(MakeLabel(g))))
  {
    var g1 := MakeLabel(g);
    LabelGrows(g);
    LabelFree(g1, h);
    LabelFree(g, h);
    ResolveGrows(g, h, NewLabel(g));
    var h1 := Resolve(h, NewLabel(g));
    EmitGrows(g, h1, i);
    ResolveGrows(g, Emit(h1, i), NewLabel(g1));
  }

  lemma {:induction false} CoalesceShape(x: Expr, l: Exprs, t: int, g: Gen)
    requires Ready(g, UsesOf(x).regs + UsesAll(l).regs, t)
    ensures Grows(g, CodeCoalesce(x, l, t, g))
    decreases Size(x) + SizeAll(l), 4
  {
    var g1 := MakeLabel(g);
    LabelGrows(g);
    var g2 := CodeInto(x, t, g1);
    IntoShape(x, t, g1);
    StaysSafe(g1, g2, UsesAll(l).regs);
    AlternativesShape(l, t, NewLabel(g), g2);
    var g3 := CodeAlternatives(l, t, NewLabel(g), g2);
    Chain(g1, g2, g3);
    LabelFree(g, g3);
    ResolveGrows(g, g3, NewLabel(g));
  }

  lemma {:induction false} AlternativesShape(l: Exprs, t: int, end: int, g: Gen)
    requires Ready(g, UsesAll(l).regs, t)
    ensures Grows(g, CodeAlternatives(l, t, end, g))
    decreases SizeAll(l), 0
  {
    Reflexive(g);
    match l
    case Nil =>
    case Cons(x, rest) =>
      var g1 := Emit(g, OpNotNull(t, end));
      EmitGrows(g, g, OpNotNull(t, end));
      StaysSafe(g, g1, UsesAll(l).regs);
      IntoShape(x, t, g1);
      var g2 := CodeInto(x, t, g1);
      Chain(g, g1, g2);
      StaysSafe(g, g2, UsesAll(l).regs);
      AlternativesShape(rest, t, end, g2);
      Chain(g, g2, CodeAlternatives(rest, t, end, g2));
  }

  lemma {:induction false} CallShape(f: string, l: Exprs, t: int, g: Gen)
    requires Ready(g, UsesAll(l).regs, t)
    ensures Grows(g, CodeCall(f, l, t, g))
    decreases SizeAll(l), 1
  {
    Reflexive(g);
    if l.Nil? {
      EmitGrows(g, g, OpFunction(f, 0, 0, t));
    } else {
      var n := Length(l);
      var r := GetRange(g, n);
      RangeGrows(g, n);
      StaysSafe(g, r.g, UsesAll(l).regs);
      ArgsShape(l, r.reg, r.g);
      var g1 := CodeArgs(l, r.reg, r.g);
      Chain(g, r.g, g1);
      EmitGrows(g, g1, OpFunction(f, r.reg, n, t));
      ReleaseRangeGrows(g, Emit(g1, OpFunction(f, r.reg, n, t)), r.reg, n);
    }
  }

  lemma {:induction false} ArgsShape(l: Exprs, first: int, g: Gen)
    requires Inv(g) && AllSafe(g, UsesAll(l).regs)
    requires forall x :: first <= x < first + Length(l) ==> Safe(g, x) && x !in UsesAll(l).regs
    ensures Grows(g, CodeArgs(l, first, g))
    decreases SizeAll(l), 0
  {
    Reflexive(g);
    match l
    case Nil =>
    case Cons(x, rest) =>
      assert Safe(g, first);
      ArgShape(x, first, g);
      var h := ArgTarget(x, first, g);
      StaysSafe(g, h, UsesAll(l).regs);
      ArgsShape(rest, first + 1, h);
      Chain(g, h, CodeArgs(rest, first + 1, h));
  }

  lemma {:induction false} ArgShape(x: Expr, first: int, g: Gen)
    requires Ready(g, UsesOf(x).regs, first)
    ensures Grows(g, ArgTarget(x, first, g))
    decreases Size(x), 1
  {
    TargetShape(x, first, g);
    var o := CodeTarget(x, first, g);
    EmitGrows(g, o.g, OpCopy(o.reg, first));
  }

  lemma {:induction false} CaseShape(w: Whens, t: int, g: Gen)
    requires Ready(g, UsesWhens(w).regs, t)
    ensures Grows(g, CodeCase(w, t, g))
    decreases SizeWhens(w), 3
  {
    var g1 := MakeLabel(g);
    LabelGrows(g);
    StaysSafe(g, g1, UsesWhens(w).regs);
    WhensShape(0, w, t, NewLabel(g), g1);
    var g2 := CodeWhens(0, w, t, NewLabel(g), g1);
    LabelFree(g, g2);
    ResolveGrows(g, g2, NewLabel(g));
  }

  lemma {:induction false} CaseOfShape(x: Expr, w: Whens, t: int, g: Gen)
    requires Ready(g, UsesOf(x).regs, t) && Ready(g, UsesWhens(w).regs, t)
    ensures Grows(g, CodeCaseOf(x, w, t, g))
    decreases Size(x) + SizeWhens(w), 3
  {
    var g1 := MakeLabel(g);
    LabelGrows(g);
    StaysSafe(g, g1, UsesOf(x).regs);
    StaysSafe(g, g1, UsesWhens(w).regs);
    TempShape(x, g1);
    var a := CodeTemp(x, g1);
    StaysSafe(g1, a.g, UsesWhens(w).regs);
    TempNot(x, g1, t);
    WhensShape(a.reg, w, t, NewLabel(g), a.g);
    var g2 := CodeWhens(a.reg, w, t, NewLabel(g), a.g);
    Chain(g1, a.g, g2);
    LabelFree(g, g2);
    ResolveGrows(g, g2, NewLabel(g));
  }

  /** An operand is never in a register in use that its tree does not name. */
  lemma {:induction false} TempNot(e: Expr, g: Gen, t: int)
    requires Ready(g, UsesOf(e).regs, t)
    ensures CodeTemp(e, g).reg != t
    decreases Size(e), 2
  {
    var r := GetTemp(g);
    TempGrows(g);
    StaysSafe(g, r.g, UsesOf(e).regs);
    TargetShape(e, r.reg, r.g);
  }

  lemma {:induction false} WhensShape(base: int, w: Whens, t: int, end: int, g: Gen)
    requires Ready(g, UsesWhens(w).regs, t) && (base != 0 ==> Safe(g, base) && base != t)
    ensures Grows(g, CodeWhens(base, w, t, end, g))
    decreases SizeWhens(w), 2
  {
    match w
    case Else(x) => IntoShape(x, t, g);
    case When(test, x, more) =>
      var g0 := MakeLabel(g);
      LabelGrows(g);
      var all := UsesWhens(w).regs;
      StaysSafe(g, g0, all);
      TestUses(base, test);
      IfFalseShape(CaseTest(base, test), NewLabel(g), true, g0);
      var g1 := IfFalse(CaseTest(base, test), NewLabel(g), true, g0);
      StaysSafe(g0, g1, all);
      IntoShape(x, t, g1);
      var g2a := CodeInto(x, t, g1);
      Chain(g0, g1, g2a);
      var g2 := Emit(g2a, OpGoto(end));
      EmitGrows(g0, g2a, OpGoto(end));
      LabelFree(g, g2);
      ResolveGrows(g, g2, NewLabel(g));
      var g3 := Resolve(g2, NewLabel(g));
      StaysSafe(g, g3, all);
      WhensShape(base, more, t, end, g3);
      Chain(g, g3, CodeWhens(base, more, t, end, g3));
  }

  lemma {:induction false} RhsShape(l: Exprs, id: int, hasNull: int, g: Gen)
    requires Ready(g, UsesAll(l).regs, hasNull)
    ensures Grows(g, CodeRhs(l, id, hasNull, g))
    decreases SizeAll(l), 3
  {
    var i := if ConstantAll(l) then OpOnce(id, NewLabel(g)) else OpNoop;
    OnceShape(l, i, g);
    var g1 := Emit(MakeLabel(g), i);
    FillShape(l, id, hasNull, g1);
    LabelAfter(g, g1, CodeFill(l, id, hasNull, g1));
  }

  lemma OnceShape(l: Exprs, i: Instr, g: Gen)
    requires Inv(g) && AllSafe(g, UsesAll(l).regs)
    ensures Grows(MakeLabel(g), Emit(MakeLabel(g), i)) && Grows(g, Emit(MakeLabel(g), i))
    ensures AllSafe(Emit(MakeLabel(g), i), UsesAll(l).regs)
    ensures forall x :: Safe(g, x) <==> Safe(Emit(MakeLabel(g), i), x)
  {
    LabelGrows(g);
    Reflexive(MakeLabel(g));
    EmitGrows(MakeLabel(g), MakeLabel(g), i);
    Chain(g, MakeLabel(g), Emit(MakeLabel(g), i));
    StaysSafe(g, Emit(MakeLabel(g), i), UsesAll(l).regs);
  }

  lemma {:induction false} FillShape(l: Exprs, id: int, hasNull: int, g: Gen)
    requires Inv(g) && AllSafe(g, UsesAll(l).regs)
    ensures Grows(g, CodeFill(l, id, hasNull, g))
    decreases SizeAll(l), 2
  {
    var g2 := Emit(Emit(g, OpLoad(Null, hasNull)), OpOpenEphemeral(id));
    var r1 := GetTemp(g2);
    var r2 := GetTemp(r1.g);
    var g3 := Emit(r2.g, OpLoad(Null, r2.reg));
    FillTemps(g, id, hasNull, UsesAll(l).regs);
    InsertsShape(l, id, r1.reg, r2.reg, g3);
    var g4 := CodeInserts(l, id, r1.reg, r2.reg, g3);
    Chain(g, g3, g4);
    ReleaseGrows(g, g4, r1.reg);
    ReleaseGrows(g, Release(g4, r1.reg), r2.reg);
  }

  /** The allocation steps at the head of `CodeFill`. */
  lemma FillTemps(g: Gen, id: int, hasNull: int, regs: set<int>)
    requires Inv(g) && AllSafe(g, regs)
    ensures var g2 := Emit(Emit(g, OpLoad(Null, hasNull)), OpOpenEphemeral(id));
      var r1 := GetTemp(g2);
      var r2 := GetTemp(r1.g);
      var g3 := Emit(r2.g, OpLoad(Null, r2.reg));
      && Grows(g, g3) && Ready(g3, regs, r1.reg) && Ready(g3, regs, r2.reg)
      && r1.reg != r2.reg && !Safe(g, r1.reg) && !Safe(g, r2.reg) && r2.g.code == g2.code
  {
    Reflexive(g);
    EmitGrows(g, g, OpLoad(Null, hasNull));
    var g1 := Emit(g, OpLoad(Null, hasNull));
    EmitGrows(g, g1, OpOpenEphemeral(id));
    var g2 := Emit(g1, OpOpenEphemeral(id));
    var r1 := GetTemp(g2);
    TempGrows(g2);
    Chain(g, g2, r1.g);
    var r2 := GetTemp(r1.g);
    TempGrows(r1.g);
    Chain(g, r1.g, r2.g);
    EmitGrows(g, r2.g, OpLoad(Null, r2.reg));
    StaysSafe(g, Emit(r2.g, OpLoad(Null, r2.reg)), regs);
  }

  lemma {:induction false} InsertsShape(l: Exprs, id: int, r1: int, r2: int, g: Gen)
    requires Ready(g, UsesAll(l).regs, r1) && Ready(g, UsesAll(l).regs, r2)
    ensures Grows(g, CodeInserts(l, id, r1, r2, g))
    decreases SizeAll(l), 1
  {
    Reflexive(g);
    match l
    case Nil =>
    case Cons(x, rest) =>
      TargetShape(x, r1, g);
      var o := CodeTarget(x, r1, g);
      EmitGrows(g, o.g, OpMakeRecord(o.reg, r2));
      var g1 := Emit(o.g, OpMakeRecord(o.reg, r2));
      EmitGrows(g, g1, OpIdxInsert(id, r2));
      var g2 := Emit(g1, OpIdxInsert(id, r2));
      StaysSafe(g, g2, UsesAll(l).regs);
      InsertsShape(rest, id, r1, r2, g2);
      Chain(g, g2, CodeInserts(rest, id, r1, r2, g2));
  }

  lemma {:induction false} InShape(x: Expr, l: Exprs, id: int, ifFalse: int, ifNull: int, g: Gen)
    requires Inv(g) && AllSafe(g, UsesOf(x).regs) && AllSafe(g, UsesAll(l).regs)
    ensures Grows(g, CodeIn(x, l, id, ifFalse, ifNull, g))
    decreases Size(x) + SizeAll(l), 4
  {
    var q := NewReg(g);
    NewRegGrows(g);
    var g0 := Emit(q.g, OpLoad(Null, q.reg));
    EmitGrows(g, q.g, OpLoad(Null, q.reg));
    StaysSafe(g, g0, UsesAll(l).regs);
    RhsShape(l, id, q.reg, g0);
    var g1 := CodeRhs(l, id, q.reg, g0);
    Chain(g, g0, g1);
    StaysSafe(g, g1, UsesOf(x).regs);
    InLhsShape(x, id, q.reg, ifFalse, ifNull, g1);
    Chain(g, g1, CodeInLhs(x, id, q.reg, ifFalse, ifNull, g1));
  }

  lemma {:induction false} InLhsShape(x: Expr, id: int, hasNull: int, ifFalse: int, ifNull: int, g: Gen)
    requires Inv(g) && AllSafe(g, UsesOf(x).regs)
    ensures Grows(g, CodeInLhs(x, id, hasNull, ifFalse, ifNull, g))
    decreases Size(x), 2
  {
    var r1 := GetTemp(g);
    TempGrows(g);
    StaysSafe(g, r1.g, UsesOf(x).regs);
    IntoShape(x, r1.reg, r1.g);
    var g2 := CodeInto(x, r1.reg, r1.g);
    Chain(g, r1.g, g2);
    NullLhsShape(id, r1.reg, ifFalse, ifNull, g2);
    var g3 := CodeNullLhs(id, r1.reg, ifFalse, ifNull, g2);
    Chain(g, g2, g3);
    MemberShape(id, r1.reg, hasNull, ifFalse, ifNull, g3);
    var g4 := CodeMember(id, r1.reg, hasNull, ifFalse, ifNull, g3);
    Chain(g, g3, g4);
    ReleaseGrows(g, g4, r1.reg);
  }

  lemma NullLhsShape(id: int, r1: int, ifFalse: int, ifNull: int, g: Gen)
    requires Inv(g)
    ensures Grows(g, CodeNullLhs(id, r1, ifFalse, ifNull, g))
    ensures forall x :: Safe(g, x) <==> Safe(CodeNullLhs(id, r1, ifFalse, ifNull, g), x)
  {
  }

  lemma MemberShape(id: int, r1: int, hasNull: int, ifFalse: int, ifNull: int, g: Gen)
    requires Inv(g)
    ensures Grows(g, CodeMember(id, r1, hasNull, ifFalse, ifNull, g))
    ensures forall x :: Safe(g, x) <==> Safe(CodeMember(id, r1, hasNull, ifFalse, ifNull, g), x)
  {
  }

  lemma {:induction false} BetweenJumpShape(x: Expr, y: Expr, z: Expr, dest: int, ifTrue: bool, jumpIfNull: bool,
      g: Gen)
    requires Inv(g) && AllSafe(g, UsesOf(x).regs) && AllSafe(g, UsesOf(y).regs) && AllSafe(g, UsesOf(z).regs)
    ensures Grows(g, CodeBetweenJump(x, y, z, dest, ifTrue, jumpIfNull, g))
    decreases Size(x) + Size(y) + Size(z) + 5, 3
  {
    var a := CodeTemp(x, g);
    TempShape(x, g);
    var both := Bounds(a.reg, y, z);
    BoundsSafe(a.reg, y, z, g, a.g);
    if ifTrue {
      IfTrueShape(both, dest, jumpIfNull, a.g);
    } else {
      IfFalseShape(both, dest, jumpIfNull, a.g);
    }
    var h := if ifTrue then IfTrue(both, dest, jumpIfNull, a.g) else IfFalse(both, dest, jumpIfNull, a.g);
    Chain(g, a.g, h);
    ReleaseOperand(g, a, h);
  }

  lemma BoundsSafe(reg: int, y: Expr, z: Expr, g: Gen, h: Gen)
    requires Grows(g, h) && AllSafe(g, UsesOf(y).regs) && AllSafe(g, UsesOf(z).regs) && Safe(h, reg)
    ensures AllSafe(h, UsesOf(Bounds(reg, y, z)).regs)
  {
    StaysSafe(g, h, UsesOf(y).regs);
    StaysSafe(g, h, UsesOf(z).regs);
    BoundsUses(reg, y, z);
  }

  lemma ReleaseOperand(g: Gen, a: Operand, h: Gen)
    requires Grows(g, h) && Grows(a.g, h) && Usable(g, a.g, a.reg, a.free)
    ensures Grows(g, Release(h, a.free))
  {
    ReleaseGrows(g, h, a.free);
  }

  lemma {:induction false} IfTrueShape(e: Expr, dest: int, jumpIfNull: bool, g: Gen)
    requires Inv(g) && AllSafe(g, UsesOf(e).regs)
    ensures Grows(g, IfTrue(e, dest, jumpIfNull, g))
    decreases Size(e), 4
  {
    match e
    case Unary(u, x) =>
      if u.Not? {
        IfFalseShape(x, dest, jumpIfNull, g);
      } else if u.IsNull? {
        var r := CodeTemp(x, g).reg;
        TempThen(x, g, NullTest(u.negated, r, dest));
      } else {
        TestShape(e, dest, true, jumpIfNull, g);
      }
    case Binary(b, x, y) =>
      var p := CodePair(x, y, g);
      match b {
        case And => IfTrueAndShape(x, y, dest, jumpIfNull, g);
        case Or => IfTrueOrShape(x, y, dest, jumpIfNull, g);
        case Compare(op) => PairThen(x, y, g, OpJumpCompare(op, p.right, dest, p.left, false, jumpIfNull));
        case Is(n) => PairThen(x, y, g, OpJumpCompare(if n then Ne else Eq, p.right, dest, p.left, true, false));
        case Arith(_) => TestShape(e, dest, true, jumpIfNull, g);
      }
    case Between(x, y, z) => BetweenJumpShape(x, y, z, dest, true, jumpIfNull, g);
    case In(x, l, id) => InJumpShape(x, l, id, dest, true, jumpIfNull, g);
    case _ => TestShape(e, dest, true, jumpIfNull, g);
  }

  lemma {:induction false} IfFalseShape(e: Expr, dest: int, jumpIfNull: bool, g: Gen)
    requires Inv(g) && AllSafe(g, UsesOf(e).regs)
    ensures Grows(g, IfFalse(e, dest, jumpIfNull, g))
    decreases Size(e), 4
  {
    match e
    case Unary(u, x) =>
      if u.Not? {
        IfTrueShape(x, dest, jumpIfNull, g);
      } else if u.IsNull? {
        var r := CodeTemp(x, g).reg;
        TempThen(x, g, NullTest(!u.negated, r, dest));
      } else {
        TestShape(e, dest, false, jumpIfNull, g);
      }
    case Binary(b, x, y) =>
      var p := CodePair(x, y, g);
      match b {
        case And => IfFalseAndShape(x, y, dest, jumpIfNull, g);
        case Or => IfFalseOrShape(x, y, dest, jumpIfNull, g);
        case Compare(op) => PairThen(x, y, g, OpJumpCompare(Complement(op), p.right, dest, p.left, false, jumpIfNull));
        case Is(n) => PairThen(x, y, g, OpJumpCompare(if n then Eq else Ne, p.right, dest, p.left, true, false));
        case Arith(_) => TestShape(e, dest, false, jumpIfNull, g);
      }
    case Between(x, y, z) => BetweenJumpShape(x, y, z, dest, false, jumpIfNull, g);
    case In(x, l, id) => InJumpShape(x, l, id, dest, false, jumpIfNull, g);
    case _ => TestShape(e, dest, false, jumpIfNull, g);
  }

  lemma {:induction false} TestShape(e: Expr, dest: int, ifTrue: bool, jumpIfNull: bool, g: Gen)
    requires Inv(g) && AllSafe(g, UsesOf(e).regs)
    ensures Grows(g, JumpTest(e, dest, ifTrue, jumpIfNull, g))
    decreases Size(e), 3
  {
    var r := CodeTemp(e, g).reg;
    TempThen(e, g, if ifTrue then OpIf(r, dest, jumpIfNull) else OpIfNot(r, dest, jumpIfNull));
  }

  lemma LabelSafe(g: Gen, a: set<int>, b: set<int>)
    requires Inv(g) && AllSafe(g, a) && AllSafe(g, b)
    ensures Grows(g, MakeLabel(g)) && AllSafe(MakeLabel(g), a) && AllSafe(MakeLabel(g), b)
  {
    LabelGrows(g);
  }

  /** A label made at `g` and resolved after two more pieces of code. */
  lemma LabelAfter(g: Gen, g1: Gen, g2: Gen)
    requires Inv(g) && Grows(MakeLabel(g), g1) && Grows(g1, g2)
    ensures Grows(g, Resolve(g2, NewLabel(g))) && Kept(g2, Resolve(g2, NewLabel(g)))
  {
    Chain(MakeLabel(g), g1, g2);
    LabelFree(g, g2);
    ResolveGrows(g, g2, NewLabel(g));
  }

  lemma {:induction false} InJumpShape(x: Expr, l: Exprs, id: int, dest: int, ifTrue: bool, jumpIfNull: bool, g: Gen)
    requires Inv(g) && AllSafe(g, UsesOf(x).regs) && AllSafe(g, UsesAll(l).regs)
    ensures Grows(g, CodeInJump(x, l, id, dest, ifTrue, jumpIfNull, g))
    decreases Size(x) + SizeAll(l), 5
  {
    if !ifTrue && jumpIfNull {
      InShape(x, l, id, dest, dest, g);
    } else {
      var g0 := MakeLabel(g);
      LabelSafe(g, UsesOf(x).regs, UsesAll(l).regs);
      var ifFalse := if ifTrue then NewLabel(g) else dest;
      var ifNull := if ifTrue && jumpIfNull then dest else NewLabel(g);
      InShape(x, l, id, ifFalse, ifNull, g0);
      var g1 := CodeIn(x, l, id, ifFalse, ifNull, g0);
      Reflexive(g1);
      EmitGrows(g1, g1, OpGoto(dest));
      LabelAfter(g, g1, if ifTrue then Emit(g1, OpGoto(dest)) else g1);
    }
  }

  lemma {:induction false} IfTrueAndShape(x: Expr, y: Expr, dest: int, jumpIfNull: bool, g: Gen)
    requires Inv(g) && AllSafe(g, UsesOf(x).regs) && AllSafe(g, UsesOf(y).regs)
    ensures Grows(g, IfTrue(Binary(And, x, y), dest, jumpIfNull, g))
    decreases Size(x) + Size(y), 5
  {
    LabelSafe(g, UsesOf(x).regs, UsesOf(y).regs);
    IfFalseShape(x, NewLabel(g), !jumpIfNull, MakeLabel(g));
    var g1 := IfFalse(x, NewLabel(g), !jumpIfNull, MakeLabel(g));
    StaysSafe(MakeLabel(g), g1, UsesOf(y).regs);
    IfTrueShape(y, dest, jumpIfNull, g1);
    LabelAfter(g, g1, IfTrue(y, dest, jumpIfNull, g1));
  }

  lemma {:induction false} IfTrueOrShape(x: Expr, y: Expr, dest: int, jumpIfNull: bool, g: Gen)
    requires Inv(g) && AllSafe(g, UsesOf(x).regs) && AllSafe(g, UsesOf(y).regs)
    ensures Grows(g, IfTrue(Binary(Or, x, y), dest, jumpIfNull, g))
    decreases Size(x) + Size(y), 5
  {
    IfTrueShape(x, dest, jumpIfNull, g);
    var g1 := IfTrue(x, dest, jumpIfNull, g);
    StaysSafe(g, g1, UsesOf(y).regs);
    IfTrueShape(y, dest, jumpIfNull, g1);
    Chain(g, g1, IfTrue(y, dest, jumpIfNull, g1));
  }

  lemma {:induction false} IfFalseAndShape(x: Expr, y: Expr, dest: int, jumpIfNull: bool, g: Gen)
    requires Inv(g) && AllSafe(g, UsesOf(x).regs) && AllSafe(g, UsesOf(y).regs)
    ensures Grows(g, IfFalse(Binary(And, x, y), dest, jumpIfNull, g))
    decreases Size(x) + Size(y), 5
  {
    IfFalseShape(x, dest, jumpIfNull, g);
    var g1 := IfFalse(x, dest, jumpIfNull, g);
    StaysSafe(g, g1, UsesOf(y).regs);
    IfFalseShape(y, dest, jumpIfNull, g1);
    Chain(g, g1, IfFalse(y, dest, jumpIfNull, g1));
  }

  lemma {:induction false} IfFalseOrShape(x: Expr, y: Expr, dest: int, jumpIfNull: bool, g: Gen)
    requires Inv(g) && AllSafe(g, UsesOf(x).regs) && AllSafe(g, UsesOf(y).regs)
    ensures Grows(g, IfFalse(Binary(Or, x, y), dest, jumpIfNull, g))
    decreases Size(x) + Size(y), 5
  {
    LabelSafe(g, UsesOf(x).regs, UsesOf(y).regs);
    IfTrueShape(x, NewLabel(g), !jumpIfNull, MakeLabel(g));
    var g1 := IfTrue(x, NewLabel(g), !jumpIfNull, MakeLabel(g));
    StaysSafe(MakeLabel(g), g1, UsesOf(y).regs);
    IfFalseShape(y, dest, jumpIfNull, g1);
    LabelAfter(g, g1, IfFalse(y, dest, jumpIfNull, g1));
  }
}
