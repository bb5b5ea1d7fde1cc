/** The opcodes of the virtual database engine that expression code uses. */
module Vdbe {
  import opened ExprTree

  /** A jump operand is an address when non-negative and a label when negative. */
  datatype Instr =
    | OpLoad(v: Value, out: int)                    // Integer, Int64, Real, String8, Blob, Null
    | OpColumn(table: int, column: int, out: int)
    | OpVariable(index: int, out: int)
    | OpSCopy(src: int, out: int)
    | OpCopy(src: int, out: int)
    | OpConvert(aff: Affinity, out: int)            // ToText ... ToReal, in place
    | OpLogic(isAnd: bool, in1: int, in2: int, out: int)
    | OpArith(op: ArithOp, in1: int, in2: int, out: int)
    | OpNot(src: int, out: int)
    | OpBitNot(src: int, out: int)
    | OpStoreCompare(cmp: CompareOp, in1: int, out: int, in3: int, nullEq: bool)
    | OpJumpCompare(cmp: CompareOp, in1: int, dest: int, in3: int, nullEq: bool, jumpIfNull: bool)
    | OpIsNull(src: int, dest: int)
    | OpNotNull(src: int, dest: int)
    | OpIf(src: int, dest: int, jumpIfNull: bool)
    | OpIfNot(src: int, dest: int, jumpIfNull: bool)
    | OpGoto(dest: int)
    | OpAddImm(out: int, k: int)
    | OpFunction(name: string, first: int, count: nat, out: int)
    | OpOnce(flag: int, dest: int)
    | OpNoop
    | OpOpenEphemeral(cursor: int)
    | OpMakeRecord(src: int, out: int)
    | OpIdxInsert(cursor: int, key: int)
    | OpRewind(cursor: int, dest: int)
    | OpFound(cursor: int, dest: int, key: int)
    | OpNotFound(cursor: int, dest: int, key: int)

  // ----- instruction selection -----

  function AtomInstr(a: Atom, t: int): Instr {
    match a
    case Column(tab, i) => OpColumn(tab, i, t)
    case Literal(v) => OpLoad(v, t)
    case Variable(i) => OpVariable(i, t)
    case Register(r) => OpCopy(r, t)
  }

  function BinaryInstr(b: BinaryOp, left: int, right: int, t: int): Instr {
    match b
    case Compare(op) => OpStoreCompare(op, right, t, left, false)
    case Is(n) => OpStoreCompare(if n then Ne else Eq, right, t, left, true)
    case And => OpLogic(true, right, left, t)
    case Or => OpLogic(false, right, left, t)
    case Arith(op) => OpArith(op, right, left, t)
  }

  function NullTest(negated: bool, r: int, dest: int): Instr {
    if negated then OpNotNull(r, dest) else OpIsNull(r, dest)
  }

  datatype Program = Program(code: seq<Instr>, labels: map<int, nat>)

  datatype Machine = Machine(pc: int, regs: map<int, Value>, tables: map<int, set<Value>>, once: set<int>)

  function Get(m: Machine, r: int): Value {
    if r in m.regs then m.regs[r] else Null
  }

  function Table(m: Machine, cursor: int): set<Value> {
    if cursor in m.tables then m.tables[cursor] else {}
  }

  function Address(p: Program, dest: int): int {
    if dest < 0 && dest in p.labels then p.labels[dest] else dest
  }

  function Next(m: Machine): Machine {
    m.(pc := m.pc + 1)
  }

  function Put(m: Machine, r: int, v: Value): Machine {
    m.(pc := m.pc + 1, regs := m.regs[r := v])
  }

  function Branch(p: Program, m: Machine, taken: bool, dest: int): Machine {
    m.(pc := if taken then Address(p, dest) else m.pc + 1)
  }

  /** Comparison opcodes compare register P3 with register P1. */
  function CompareTruth(k: Engine, cmp: CompareOp, in1: Value, in3: Value, nullEq: bool): Tri {
    if in1.Null? || in3.Null? then
      if nullEq then OfBool(Orders(cmp, if in1.Null? && in3.Null? then 0 else 1)) else Unknown
    else
      OfBool(Orders(cmp, k.compare(in3, in1)))
  }

  function Span(m: Machine, first: int, count: nat): (vs: seq<Value>)
    ensures |vs| == count
    decreases count
  {
    if count == 0 then [] else [Get(m, first)] + Span(m, first + 1, count - 1)
  }

  function IndexKey(v: Value): Value {
    if v.Record? then v.field else v
  }

  function Step(p: Program, c: Context, m: Machine): Machine {
    if !(0 <= m.pc < |p.code|) then m else
    var k := c.engine;
    match p.code[m.pc]
    case OpLoad(v, out) => Put(m, out, v)
    case OpColumn(t, i, out) => Put(m, out, c.column(t, i))
    case OpVariable(i, out) => Put(m, out, c.variable(i))
    case OpSCopy(src, out) => Put(m, out, Get(m, src))
    case OpCopy(src, out) => Put(m, out, Get(m, src))
    case OpConvert(a, out) => Put(m, out, k.convert(a, Get(m, out)))
    case OpLogic(a, in1, in2, out) =>
      var x, y := IntTruth(k, Get(m, in1)), IntTruth(k, Get(m, in2));
      Put(m, out, TriValue(if a then And3(x, y) else Or3(x, y)))
    case OpArith(op, in1, in2, out) => Put(m, out, k.arith(op, Get(m, in2), Get(m, in1)))
    case OpNot(src, out) => Put(m, out, TriValue(Not3(IntTruth(k, Get(m, src)))))
    case OpBitNot(src, out) => Put(m, out, k.bitNot(Get(m, src)))
    case OpStoreCompare(cmp, in1, out, in3, ne) =>
      Put(m, out, TriValue(CompareTruth(k, cmp, Get(m, in1), Get(m, in3), ne)))
    case OpJumpCompare(cmp, in1, dest, in3, ne, jn) =>
      var t := CompareTruth(k, cmp, Get(m, in1), Get(m, in3), ne);
      Branch(p, m, t == True || (t == Unknown && jn), dest)
    case OpIsNull(src, dest) => Branch(p, m, Get(m, src).Null?, dest)
    case OpNotNull(src, dest) => Branch(p, m, !Get(m, src).Null?, dest)
    case OpIf(src, dest, jn) =>
      var t := RealTruth(k, Get(m, src));
      Branch(p, m, t == True || (t == Unknown && jn), dest)
    case OpIfNot(src, dest, jn) =>
      var t := RealTruth(k, Get(m, src));
      Branch(p, m, t == False || (t == Unknown && jn), dest)
    case OpGoto(dest) => Branch(p, m, true, dest)
    case OpAddImm(out, n) => Put(m, out, Int(IntValue(k, Get(m, out)) + n))
    case OpFunction(f, first, count, out) => Put(m, out, k.call(f, Span(m, first, count)))
    case OpOnce(flag, dest) =>
      if flag in m.once then Branch(p, m, true, dest) else Next(m).(once := m.once + {flag})
    case OpNoop => Next(m)
    case OpOpenEphemeral(cur) => Next(m).(tables := m.tables[cur := {}])
    case OpMakeRecord(src, out) => Put(m, out, Record(Get(m, src)))
    case OpIdxInsert(cur, key) =>
      Next(m).(tables := m.tables[cur := Table(m, cur) + {IndexKey(Get(m, key))}])
    case OpRewind(cur, dest) => Branch(p, m, Table(m, cur) == {}, dest)
    case OpFound(cur, dest, key) => Branch(p, m, Contains(k, Table(m, cur), Get(m, key)), dest)
    case OpNotFound(cur, dest, key) => Branch(p, m, !Contains(k, Table(m, cur), Get(m, key)), dest)
  }

  function Run(p: Program, c: Context, m: Machine, steps: nat): Machine
    decreases steps
  {
    if steps == 0 then m else Run(p, c, Step(p, c, m), steps - 1)
  }

  ghost predicate Reaches(p: Program, c: Context, m: Machine, m': Machine) {
    exists steps: nat :: Run(p, c, m, steps) == m'
  }

  lemma {:induction false} RunTwice(p: Program, c: Context, m: Machine, a: nat, b: nat)
    ensures Run(p, c, Run(p, c, m, a), b) == Run(p, c, m, a + b)
    decreases a
  {
    if a > 0 {
      RunTwice(p, c, Step(p, c, m), a - 1, b);
    }
  }

  lemma Transitive(p: Program, c: Context, m: Machine, m1: Machine, m2: Machine)
    requires Reaches(p, c, m, m1) && Reaches(p, c, m1, m2)
    ensures Reaches(p, c, m, m2)
  {
    var a: nat :| Run(p, c, m, a) == m1;
    var b: nat :| Run(p, c, m1, b) == m2;
    RunTwice(p, c, m, a, b);
  }

  lemma Stays(p: Program, c: Context, m: Machine)
    ensures Reaches(p, c, m, m)
  {
    assert Run(p, c, m, 0) == m;
  }

  lemma Steps(p: Program, c: Context, m: Machine)
    ensures Reaches(p, c, m, Step(p, c, m))
  {
    assert Run(p, c, m, 1) == Run(p, c, Step(p, c, m), 0);
  }

  /** One instruction after a run. */
  lemma Then(p: Program, c: Context, m: Machine, m1: Machine)
    requires Reaches(p, c, m, m1)
    ensures Reaches(p, c, m, Step(p, c, m1))
  {
    Steps(p, c, m1);
    Transitive(p, c, m, m1, Step(p, c, m1));
  }
}
