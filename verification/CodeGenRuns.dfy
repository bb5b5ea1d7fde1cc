/** Framing of a run of generated code. */
module CodeGenRuns {
  import opened ExprTree
  import opened Vdbe
  import opened VdbeBlocks
  import opened CodeGen
  import opened CodeGenShape

  ghost predicate Fits(g: Gen, p: Program) {
    && g.code <= p.code
    && (forall l :: l in g.labels ==> l in p.labels && p.labels[l] == g.labels[l])
  }

  /** Registers in use at `g`, except `own`, and tables other than `ids` are unchanged. */
  ghost predicate Keeps(g: Gen, own: set<int>, ids: set<int>, m: Machine, m': Machine) {
    && (forall x :: Safe(g, x) && x !in own ==> Get(m', x) == Get(m, x))
    && (forall i :: i !in ids ==> Table(m', i) == Table(m, i) && (i in m'.once <==> i in m.once))
  }

  /** A right-hand table that is marked as filled holds the list's values. */
  ghost predicate Current(sites: set<(int, Exprs)>, c: Context, m: Machine) {
    forall s :: s in sites && ConstantAll(s.1) && s.0 in m.once ==> Table(m, s.0) == Keys(s.1, c)
  }

  ghost predicate Holds(regs: set<int>, c: Context, m: Machine) {
    forall r :: r in regs ==> r in c.pins && Get(m, r) == c.pins[r]
  }

  /** Code for a tree with these uses may run from here. */
  ghost predicate Live(u: Uses, c: Context, g: Gen, m: Machine) {
    AllSafe(g, u.regs) && Holds(u.regs, c, m) && Current(u.sites, c, m)
  }

  /** Code for a tree with these uses has run; it wrote `own` and its own tables. */
  ghost predicate Ran(u: Uses, own: set<int>, p: Program, c: Context, g: Gen, m: Machine, m': Machine) {
    Reaches(p, c, m, m') && Keeps(g, own, u.ids, m, m') && Current(u.sites, c, m')
  }

  lemma LivePart(u: Uses, v: Uses, c: Context, g: Gen, m: Machine)
    requires Live(u, c, g, m) && v.regs <= u.regs && v.sites <= u.sites
    ensures Live(v, c, g, m)
  {
  }

  /** Running other code leaves a tree ready to run. */
  lemma LiveAfter(u: Uses, c: Context, g: Gen, h: Gen, own: set<int>, ids: set<int>, m: Machine, m': Machine)
    requires Live(u, c, g, m) && Owned(u) && ids !! u.ids
    requires Grows(g, h) && Keeps(g, own, ids, m, m') && own !! u.regs
    ensures Live(u, c, h, m')
  {
    StaysSafe(g, h, u.regs);
  }

  /** Two runs in a row; what the second writes is either allowed or was not in use at `g`. */
  lemma RanTwice(u: Uses, v: Uses, own: set<int>, own': set<int>, p: Program, c: Context, g: Gen, h: Gen,
      m: Machine, m1: Machine, m2: Machine)
    requires Ran(u, own, p, c, g, m, m1) && Ran(v, own', p, c, h, m1, m2)
    requires Grows(g, h) && Owned(u) && Apart(u, v)
    requires forall x :: x in own' ==> x in own || !Safe(g, x)
    ensures Ran(Join(u, v), own, p, c, g, m, m2)
  {
    Transitive(p, c, m, m1, m2);
  }

  /** A register taken after `g` does not count at `g`. */
  lemma RanLess(u: Uses, t: int, p: Program, c: Context, g: Gen, h: Gen, m: Machine, m': Machine)
    requires Ran(u, {t}, p, c, h, m, m') && Grows(g, h) && !Safe(g, t)
    ensures Ran(u, {}, p, c, g, m, m')
  {
  }

  /** Moving the allocation state alone changes nothing at run time. */
  lemma RanEarlier(u: Uses, own: set<int>, p: Program, c: Context, g: Gen, h: Gen, m: Machine, m': Machine)
    requires Ran(u, own, p, c, h, m, m') && Grows(g, h)
    ensures Ran(u, own, p, c, g, m, m')
  {
  }

  lemma FitsPart(g: Gen, h: Gen, p: Program)
    requires Kept(g, h) && Fits(h, p)
    ensures Fits(g, p)
  {
  }

  lemma Begin(u: Uses, own: set<int>, p: Program, c: Context, g: Gen, m: Machine)
    requires Current(u.sites, c, m)
    ensures Ran(u, own, p, c, g, m, m)
  {
    Stays(p, c, m);
  }

  /** The instruction emitted at `g` is the next one. */
  lemma Fetch(g: Gen, i: Instr, p: Program, m: Machine)
    requires m.pc == |g.code| && Fits(Emit(g, i), p)
    ensures At(i, p, m)
  {
    assert Emit(g, i).code[|g.code|] == i;
  }

  /** One more instruction, which writes register `t`. */
  lemma RanPut(u: Uses, own: set<int>, t: int, v: Value, p: Program, c: Context, g: Gen, m: Machine, m1: Machine)
    requires Ran(u, own, p, c, g, m, m1) && Reaches(p, c, m1, Put(m1, t, v))
    requires t in own || !Safe(g, t)
    ensures Ran(u, own, p, c, g, m, Put(m1, t, v)) && Get(Put(m1, t, v), t) == v
  {
    Transitive(p, c, m, m1, Put(m1, t, v));
  }

  /** More instructions, which only move the program counter. */
  lemma RanGo(u: Uses, own: set<int>, pc: int, p: Program, c: Context, g: Gen, m: Machine, m1: Machine)
    requires Ran(u, own, p, c, g, m, m1) && Reaches(p, c, m1, m1.(pc := pc))
    ensures Ran(u, own, p, c, g, m, m1.(pc := pc))
  {
    Transitive(p, c, m, m1, m1.(pc := pc));
  }

  /** More instructions, which write only register `t`. */
  lemma RanBlock(u: Uses, own: set<int>, t: int, p: Program, c: Context, g: Gen, m: Machine, m1: Machine, m2: Machine)
    requires Ran(u, own, p, c, g, m, m1) && Reaches(p, c, m1, m2) && (t in own || !Safe(g, t))
    requires m2 == m1.(pc := m2.pc, regs := m2.regs) && forall x :: x != t ==> Get(m2, x) == Get(m1, x)
    ensures Ran(u, own, p, c, g, m, m2)
  {
    Transitive(p, c, m, m1, m2);
  }

  lemma RanMore(u: Uses, own: set<int>, own': set<int>, p: Program, c: Context, g: Gen, m: Machine, m': Machine)
    requires Ran(u, own, p, c, g, m, m') && own <= own'
    ensures Ran(u, own', p, c, g, m, m')
  {
  }

  /** A load into `r` first, then a run that may start after it. */
  lemma RanAfterLoad(u: Uses, own: set<int>, r: int, v: Value, p: Program, c: Context, g: Gen, h: Gen,
      m: Machine, m1: Machine, m2: Machine)
    requires Reaches(p, c, m, m1) && m1 == Put(m, r, v) && Ran(u, own, p, c, h, m1, m2)
    requires Grows(g, h) && (r in own || !Safe(g, r))
    ensures Ran(u, own, p, c, g, m, m2)
  {
    Transitive(p, c, m, m1, m2);
  }

  lemma FreePairCode(p: Pair, g: Gen, q: Program)
    ensures FreePair(p, g).code == g.code && FreePair(p, g).labels == g.labels
    ensures Fits(FreePair(p, g), q) ==> Fits(g, q)
  {
  }

  lemma ReleaseCode(g: Gen, r: int, q: Program)
    ensures Release(g, r).code == g.code && Release(g, r).labels == g.labels
    ensures Fits(Release(g, r), q) ==> Fits(g, q)
  {
  }

  lemma {:induction false} RunPins(p: Program, c: Context, d: Context, m: Machine, steps: nat)
    requires c.engine == d.engine && c.column == d.column && c.variable == d.variable
    ensures Run(p, c, m, steps) == Run(p, d, m, steps)
    decreases steps
  {
    if steps > 0 {
      assert Step(p, c, m) == Step(p, d, m);
      RunPins(p, c, d, Step(p, c, m), steps - 1);
    }
  }

  /** The machine does not see the pins. */
  lemma ReachesPins(p: Program, c: Context, d: Context, m: Machine, m': Machine)
    requires c.engine == d.engine && c.column == d.column && c.variable == d.variable
    requires Reaches(p, c, m, m')
    ensures Reaches(p, d, m, m')
  {
    var n: nat :| Run(p, c, m, n) == m';
    RunPins(p, c, d, m, n);
  }

  /** Where a resolved label leads. */
  lemma LabelAddress(g: Gen, at: int, p: Program)
    requires Fits(Resolve(g, at), p) && at < 0
    ensures Address(p, at) == |g.code| && Fits(g.(labels := g.labels - {at}), p)
  {
  }

  /** Pinning a register whose value the tree cannot see changes nothing for it. */
  lemma PinCurrent(u: Uses, c: Context, d: Context, m: Machine)
    requires Owned(u) && c.engine == d.engine && c.variable == d.variable && c.column == d.column
    ensures Current(u.sites, c, m) <==> Current(u.sites, d, m)
  {
    forall s | s in u.sites
      ensures Keys(s.1, c) == Keys(s.1, d)
    {
      EvalAllDepends(s.1, c, d);
    }
  }

  lemma PinRan(u: Uses, own: set<int>, p: Program, c: Context, d: Context, g: Gen, m: Machine, m': Machine)
    requires Ran(u, own, p, c, g, m, m')
    requires Owned(u) && c.engine == d.engine && c.variable == d.variable && c.column == d.column
    ensures Ran(u, own, p, d, g, m, m')
  {
    ReachesPins(p, c, d, m, m');
    PinCurrent(u, c, d, m');
  }
}
