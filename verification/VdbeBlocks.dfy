/** The effect of single instructions and of the short straight-line blocks that
    the expression generators emit. */
module VdbeBlocks {
  import opened ExprTree
  import opened Vdbe

  ghost predicate At(i: Instr, p: Program, m: Machine) {
    0 <= m.pc < |p.code| && p.code[m.pc] == i
  }

  // ----- one instruction -----

  lemma DoLoad(v: Value, t: int, p: Program, c: Context, m: Machine)
    requires At(OpLoad(v, t), p, m)
    ensures Reaches(p, c, m, Put(m, t, v))
  {
    Steps(p, c, m);
  }

  lemma DoAtom(a: Atom, t: int, p: Program, c: Context, m: Machine)
    requires At(AtomInstr(a, t), p, m) && !a.Register?
    ensures Reaches(p, c, m, Put(m, t, AtomValue(a, c)))
  {
    Steps(p, c, m);
  }

  lemma DoCopy(i: Instr, src: int, t: int, p: Program, c: Context, m: Machine)
    requires At(i, p, m) && (i == OpCopy(src, t) || i == OpSCopy(src, t))
    ensures Reaches(p, c, m, Put(m, t, Get(m, src)))
  {
    Steps(p, c, m);
  }

  lemma DoConvert(a: Affinity, t: int, p: Program, c: Context, m: Machine)
    requires At(OpConvert(a, t), p, m)
    ensures Reaches(p, c, m, Put(m, t, c.engine.convert(a, Get(m, t))))
  {
    Steps(p, c, m);
  }

  lemma DoBinary(b: BinaryOp, left: int, right: int, t: int, p: Program, c: Context, m: Machine)
    requires At(BinaryInstr(b, left, right, t), p, m)
    ensures Reaches(p, c, m, Put(m, t, BinaryValue(c.engine, b, Get(m, left), Get(m, right))))
  {
    Steps(p, c, m);
  }

  lemma DoComplement(bitwise: bool, src: int, t: int, p: Program, c: Context, m: Machine)
    requires At(if bitwise then OpBitNot(src, t) else OpNot(src, t), p, m)
    ensures Reaches(p, c, m, Put(m, t, UnaryValue(c.engine, if bitwise then BitNot else Not, false, Get(m, src))))
  {
    Steps(p, c, m);
  }

  lemma DoCall(f: string, first: int, n: nat, t: int, p: Program, c: Context, m: Machine)
    requires At(OpFunction(f, first, n, t), p, m)
    ensures Reaches(p, c, m, Put(m, t, c.engine.call(f, Span(m, first, n))))
  {
    Steps(p, c, m);
  }

  lemma DoGoto(dest: int, p: Program, c: Context, m: Machine)
    requires At(OpGoto(dest), p, m)
    ensures Reaches(p, c, m, m.(pc := Address(p, dest)))
  {
    Steps(p, c, m);
  }

  lemma DoNullTest(negated: bool, r: int, dest: int, p: Program, c: Context, m: Machine)
    requires At(NullTest(negated, r, dest), p, m)
    ensures Reaches(p, c, m, Branch(p, m, Get(m, r).Null? != negated, dest))
  {
    Steps(p, c, m);
  }

  /** Whether a jump on `on` is taken for truth value `t`. */
  predicate Takes(t: Tri, on: Tri, jumpIfNull: bool) {
    t == on || (t == Unknown && jumpIfNull)
  }

  lemma DoTest(ifTrue: bool, r: int, dest: int, jumpIfNull: bool, p: Program, c: Context, m: Machine)
    requires At(if ifTrue then OpIf(r, dest, jumpIfNull) else OpIfNot(r, dest, jumpIfNull), p, m)
    ensures Reaches(p, c, m, Branch(p, m, Takes(RealTruth(c.engine, Get(m, r)), OfBool(ifTrue), jumpIfNull), dest))
  {
    Steps(p, c, m);
  }

  lemma DoCompareJump(op: CompareOp, left: int, right: int, dest: int, nullEq: bool, jumpIfNull: bool,
      p: Program, c: Context, m: Machine)
    requires At(OpJumpCompare(op, right, dest, left, nullEq, jumpIfNull), p, m)
    ensures Reaches(p, c, m,
      Branch(p, m, Takes(CompareTruth(c.engine, op, Get(m, right), Get(m, left), nullEq), True, jumpIfNull), dest))
  {
    Steps(p, c, m);
  }

  lemma DoOnce(flag: int, dest: int, p: Program, c: Context, m: Machine)
    requires At(OpOnce(flag, dest), p, m)
    ensures flag in m.once ==> Reaches(p, c, m, m.(pc := Address(p, dest)))
    ensures flag !in m.once ==> Reaches(p, c, m, m.(pc := m.pc + 1, once := m.once + {flag}))
  {
    Steps(p, c, m);
  }

  lemma DoNoop(p: Program, c: Context, m: Machine)
    requires At(OpNoop, p, m)
    ensures Reaches(p, c, m, m.(pc := m.pc + 1))
  {
    Steps(p, c, m);
  }

  lemma DoFound(id: int, dest: int, key: int, p: Program, c: Context, m: Machine)
    requires At(OpFound(id, dest, key), p, m)
    ensures Reaches(p, c, m, Branch(p, m, Contains(c.engine, Table(m, id), Get(m, key)), dest))
  {
    Steps(p, c, m);
  }

  lemma DoNotFound(id: int, dest: int, key: int, p: Program, c: Context, m: Machine)
    requires At(OpNotFound(id, dest, key), p, m)
    ensures Reaches(p, c, m, Branch(p, m, !Contains(c.engine, Table(m, id), Get(m, key)), dest))
  {
    Steps(p, c, m);
  }

  lemma DoAddImm(t: int, k: int, p: Program, c: Context, m: Machine)
    requires At(OpAddImm(t, k), p, m)
    ensures Reaches(p, c, m, Put(m, t, Int(IntValue(c.engine, Get(m, t)) + k)))
  {
    Steps(p, c, m);
  }

  // ----- blocks -----

  /** ISNULL and NOTNULL as values: the test skips the decrement. */
  lemma DoIsNull(negated: bool, r: int, t: int, p: Program, c: Context, m: Machine) returns (m': Machine)
    requires 0 <= m.pc && m.pc + 2 <= |p.code| && Get(m, t) == Int(1)
    requires p.code[m.pc] == NullTest(negated, r, m.pc + 2) && p.code[m.pc + 1] == OpAddImm(t, -1)
    ensures Reaches(p, c, m, m') && m' == m.(pc := m.pc + 2, regs := m'.regs)
    ensures Get(m', t) == TriValue(OfBool(Get(m, r).Null? != negated))
    ensures forall x :: x != t ==> Get(m', x) == Get(m, x)
  {
    DoNullTest(negated, r, m.pc + 2, p, c, m);
    m' := Branch(p, m, Get(m, r).Null? != negated, m.pc + 2);
    if Get(m, r).Null? == negated {
      Then(p, c, m, m');
      m' := Step(p, c, m');
    }
  }

  /** MakeRecord and IdxInsert. */
  lemma DoInsert(id: int, r: int, r2: int, p: Program, c: Context, m: Machine) returns (m': Machine)
    requires 0 <= m.pc && m.pc + 2 <= |p.code|
    requires p.code[m.pc] == OpMakeRecord(r, r2) && p.code[m.pc + 1] == OpIdxInsert(id, r2)
    ensures Reaches(p, c, m, m') && m'.pc == m.pc + 2 && m'.once == m.once
    ensures Table(m', id) == Table(m, id) + {Get(m, r)}
    ensures forall i :: i != id ==> Table(m', i) == Table(m, i)
    ensures forall x :: x != r2 ==> Get(m', x) == Get(m, x)
  {
    Steps(p, c, m);
    var m1 := Step(p, c, m);
    Then(p, c, m, m1);
    m' := Step(p, c, m1);
  }

  /** Clear the RHS table and the two work registers. */
  lemma DoOpen(id: int, q: int, r2: int, p: Program, c: Context, m: Machine) returns (m': Machine)
    requires 0 <= m.pc && m.pc + 3 <= |p.code|
    requires p.code[m.pc] == OpLoad(Null, q) && p.code[m.pc + 1] == OpOpenEphemeral(id)
    requires p.code[m.pc + 2] == OpLoad(Null, r2)
    ensures Reaches(p, c, m, m') && m'.pc == m.pc + 3 && m'.once == m.once
    ensures Table(m', id) == {} && Get(m', q).Null?
    ensures forall i :: i != id ==> Table(m', i) == Table(m, i)
    ensures forall x :: x != q && x != r2 ==> Get(m', x) == Get(m, x)
  {
    DoLoad(Null, q, p, c, m);
    var m1 := Put(m, q, Null);
    Then(p, c, m, m1);
    var m2 := Step(p, c, m1);
    DoLoad(Null, r2, p, c, m2);
    m' := Put(m2, r2, Null);
    Transitive(p, c, m, m2, m');
  }

  /** A NULL left operand of IN leaves: false if the table is empty, else unknown. */
  lemma DoNullLhs(id: int, r1: int, ifFalse: int, ifNull: int, p: Program, c: Context, m: Machine)
      returns (m': Machine)
    requires 0 <= m.pc && m.pc + 3 <= |p.code|
    requires p.code[m.pc] == OpNotNull(r1, m.pc + 3) && p.code[m.pc + 1] == OpRewind(id, ifFalse)
    requires p.code[m.pc + 2] == OpGoto(ifNull)
    ensures Reaches(p, c, m, m') && m' == m.(pc := m'.pc)
    ensures m'.pc == if !Get(m, r1).Null? then m.pc + 3
                     else if Table(m, id) == {} then Address(p, ifFalse) else Address(p, ifNull)
  {
    Steps(p, c, m);
    m' := Step(p, c, m);
    if Get(m, r1).Null? {
      Then(p, c, m, m');
      m' := Step(p, c, m');
      if Table(m, id) != {} {
        Then(p, c, m, m');
        m' := Step(p, c, m');
      }
    }
  }

  ghost predicate HasMember(id: int, r1: int, q: int, ifFalse: int, ifNull: int, a: int, p: Program) {
    && 0 <= a && a + 7 <= |p.code|
    && p.code[a] == OpFound(id, a + 7, r1)
    && p.code[a + 1] == OpNotNull(q, a + 5)
    && p.code[a + 2] == OpFound(id, a + 4, q)
    && p.code[a + 3] == OpLoad(Int(-1), q)
    && p.code[a + 4] == OpAddImm(q, 1)
    && p.code[a + 5] == OpIf(q, ifNull, false)
    && p.code[a + 6] == OpGoto(ifFalse)
  }

  /** The membership test of a non-NULL left operand; a miss looks for NULL in the table. */
  lemma DoMember(id: int, r1: int, q: int, ifFalse: int, ifNull: int, p: Program, c: Context, m: Machine)
      returns (m': Machine)
    requires HasMember(id, r1, q, ifFalse, ifNull, m.pc, p) && Get(m, q).Null?
    ensures Reaches(p, c, m, m') && m' == m.(pc := m'.pc, regs := m'.regs)
    ensures forall x :: x != q ==> Get(m', x) == Get(m, x)
    ensures m'.pc == if Contains(c.engine, Table(m, id), Get(m, r1)) then m.pc + 7
                     else if Contains(c.engine, Table(m, id), Null) then Address(p, ifNull)
                     else Address(p, ifFalse)
  {
    DoFound(id, m.pc + 7, r1, p, c, m);
    m' := Branch(p, m, Contains(c.engine, Table(m, id), Get(m, r1)), m.pc + 7);
    if !Contains(c.engine, Table(m, id), Get(m, r1)) {
      var m2 := DoNullMember(id, r1, q, ifFalse, ifNull, m.pc, p, c, m');
      Transitive(p, c, m, m', m2);
      m' := m2;
    }
  }

  lemma DoNullMember(id: int, r1: int, q: int, ifFalse: int, ifNull: int, a: int, p: Program, c: Context,
      m: Machine) returns (m': Machine)
    requires HasMember(id, r1, q, ifFalse, ifNull, a, p) && Get(m, q).Null? && m.pc == a + 1
    ensures Reaches(p, c, m, m') && m' == m.(pc := m'.pc, regs := m'.regs)
    ensures forall x :: x != q ==> Get(m', x) == Get(m, x)
    ensures m'.pc == if Contains(c.engine, Table(m, id), Null) then Address(p, ifNull) else Address(p, ifFalse)
  {
    var has := Contains(c.engine, Table(m, id), Null);
    var m3 := DoNullFlag(id, r1, q, ifFalse, ifNull, a, p, c, m);
    m' := DoVerdict(q, has, ifFalse, ifNull, a, p, c, m3);
    Transitive(p, c, m, m3, m');
  }

  /** After the lookup of NULL the register is 1 if it is found, else 0. */
  lemma DoNullFlag(id: int, r1: int, q: int, ifFalse: int, ifNull: int, a: int, p: Program, c: Context,
      m: Machine) returns (m': Machine)
    requires HasMember(id, r1, q, ifFalse, ifNull, a, p) && Get(m, q).Null? && m.pc == a + 1
    ensures Reaches(p, c, m, m') && m' == m.(pc := a + 5, regs := m'.regs)
    ensures forall x :: x != q ==> Get(m', x) == Get(m, x)
    ensures Get(m', q) == Int(if Contains(c.engine, Table(m, id), Null) then 1 else 0)
  {
    var m2 := DoNullLookup(id, r1, q, ifFalse, ifNull, a, p, c, m);
    DoAddImm(q, 1, p, c, m2);
    m' := Put(m2, q, Int(IntValue(c.engine, Get(m2, q)) + 1));
    Transitive(p, c, m, m2, m');
  }

  /** The lookup of NULL: the register is left NULL if it is found, else set to -1. */
  lemma DoNullLookup(id: int, r1: int, q: int, ifFalse: int, ifNull: int, a: int, p: Program, c: Context,
      m: Machine) returns (m': Machine)
    requires HasMember(id, r1, q, ifFalse, ifNull, a, p) && Get(m, q).Null? && m.pc == a + 1
    ensures Reaches(p, c, m, m') && m' == m.(pc := a + 4, regs := m'.regs)
    ensures forall x :: x != q ==> Get(m', x) == Get(m, x)
    ensures Get(m', q) == if Contains(c.engine, Table(m, id), Null) then Null else Int(-1)
  {
    DoNullTest(true, q, a + 5, p, c, m);
    var m1 := m.(pc := a + 2);
    DoFound(id, a + 4, q, p, c, m1);
    if Contains(c.engine, Table(m, id), Null) {
      m' := m1.(pc := a + 4);
      Transitive(p, c, m, m1, m');
    } else {
      var m2 := m1.(pc := a + 3);
      Transitive(p, c, m, m1, m2);
      DoLoad(Int(-1), q, p, c, m2);
      m' := Put(m2, q, Int(-1));
      Transitive(p, c, m, m2, m');
    }
  }

  lemma DoVerdict(q: int, has: bool, ifFalse: int, ifNull: int, a: int, p: Program, c: Context,
      m: Machine) returns (m': Machine)
    requires 0 <= a && a + 7 <= |p.code| && m.pc == a + 5 && Get(m, q) == Int(if has then 1 else 0)
    requires p.code[a + 5] == OpIf(q, ifNull, false) && p.code[a + 6] == OpGoto(ifFalse)
    ensures Reaches(p, c, m, m') && m' == m.(pc := if has then Address(p, ifNull) else Address(p, ifFalse))
  {
    DoTest(true, q, ifNull, false, p, c, m);
    m' := Branch(p, m, has, ifNull);
    if !has {
      var m1 := m';
      DoGoto(ifFalse, p, c, m1);
      m' := m1.(pc := Address(p, ifFalse));
      Transitive(p, c, m, m1, m');
    }
  }

  /** Where IN leads: it falls through on true and otherwise takes one of its exits. */
  function Goes(t: Tri, p: Program, ifFalse: int, ifNull: int, fall: int): int {
    match t
    case True => fall
    case False => Address(p, ifFalse)
    case Unknown => Address(p, ifNull)
  }

  /** IN as a value: 1 is stored on a match, and adding 0 turns NULL into 0 on the false exit. */
  lemma DoInValue(in3: Tri, ifFalse: int, ifNull: int, t: int, a: int, p: Program, c: Context, m: Machine)
      returns (m': Machine)
    requires Get(m, t).Null? && m.pc == Goes(in3, p, ifFalse, ifNull, a)
    requires 0 <= a && a + 2 <= |p.code| && p.code[a] == OpLoad(Int(1), t) && p.code[a + 1] == OpAddImm(t, 0)
    requires Address(p, ifFalse) == a + 1 && Address(p, ifNull) == a + 2
    ensures Reaches(p, c, m, m') && m' == m.(pc := a + 2, regs := m'.regs) && Get(m', t) == TriValue(in3)
    ensures forall x :: x != t ==> Get(m', x) == Get(m, x)
  {
    match in3
    case True =>
      DoLoad(Int(1), t, p, c, m);
      var m1 := Put(m, t, Int(1));
      DoAddImm(t, 0, p, c, m1);
      m' := Put(m1, t, Int(1));
      Transitive(p, c, m, m1, m');
    case False =>
      DoAddImm(t, 0, p, c, m);
      m' := Put(m, t, Int(0));
    case Unknown =>
      Stays(p, c, m);
      m' := m;
  }
}
