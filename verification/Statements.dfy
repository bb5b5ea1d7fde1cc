/** The generated code inside a statement: a WHERE test and a result column that
    are run once per row, with the machine's tables and once-flags carried over. */
module Statements {
  import opened ExprTree
  import opened Vdbe
  import opened CodeGen
  import opened CodeGenShape
  import opened CodeGenRuns
  import opened CodeGenCorrect

  /** A tree as the parser leaves it: no register references, one table per IN operator. */
  ghost predicate Parsed(e: Expr) {
    Distinct(e) && UsesOf(e).regs == {}
  }

  /** Rows of one statement: the engine and the bound parameters stay the same. */
  ghost predicate Rows(rows: seq<Context>) {
    forall i, j :: 0 <= i < |rows| && 0 <= j < |rows| ==>
      rows[i].engine == rows[j].engine && rows[i].variable == rows[j].variable
  }

  /** A constant list has the same values in every row, so a filled table stays current. */
  lemma NextRow(u: Uses, c: Context, d: Context, m: Machine)
    requires Owned(u) && Current(u.sites, c, m) && c.engine == d.engine && c.variable == d.variable
    ensures Current(u.sites, d, m)
  {
    forall s | s in u.sites && ConstantAll(s.1)
      ensures Keys(s.1, c) == Keys(s.1, d)
    {
      EvalAllDepends(s.1, c, d);
    }
  }

  /** The rest of the statement, run between two rows: it may do anything except
      touch the tables and the once-flags of the expression. */
  ghost predicate Elsewhere(rest: (nat, Machine) -> Machine, ids: set<int>) {
    forall i: nat, m: Machine, t :: t in ids ==>
      Table(rest(i, m), t) == Table(m, t) && (t in rest(i, m).once <==> t in m.once)
  }

  /** The machine that starts row `i`, given those that ended the rows before it. */
  function Entry(m: Machine, rest: (nat, Machine) -> Machine, ends: seq<Machine>, i: nat, pc: int): Machine
    requires i <= |ends|
  {
    (if i == 0 then m else rest(i, ends[i - 1])).(pc := pc)
  }

  lemma EntryCurrent(u: Uses, rest: (nat, Machine) -> Machine, c: Context, d: Context, m: Machine, i: nat, pc: int)
    requires Owned(u) && Current(u.sites, c, m) && c.engine == d.engine && c.variable == d.variable
    requires Elsewhere(rest, u.ids)
    ensures Current(u.sites, d, rest(i, m).(pc := pc))
  {
    NextRow(u, c, d, m);
    forall s | s in u.sites
      ensures Table(rest(i, m), s.0) == Table(m, s.0) && (s.0 in rest(i, m).once <==> s.0 in m.once)
    {
    }
  }

  /** Row `i` was run from the start of the code and left the WHERE test where it should. */
  ghost predicate Filtered(e: Expr, dest: int, g: Gen, p: Program, rows: seq<Context>, m: Machine,
      rest: (nat, Machine) -> Machine, ends: seq<Machine>, i: nat)
    requires i < |rows| && i < |ends|
  {
    && Reaches(p, rows[i], Entry(m, rest, ends, i, |g.code|), ends[i])
    && ends[i].pc == if Cond(e, rows[i]) == True then |IfFalse(e, dest, true, g).code| else Address(p, dest)
  }

  lemma FilteredMore(e: Expr, dest: int, g: Gen, p: Program, rows: seq<Context>, c: Context, m: Machine,
      rest: (nat, Machine) -> Machine, ends: seq<Machine>, m': Machine, i: nat)
    requires i < |rows| && i < |ends| && Filtered(e, dest, g, p, rows, m, rest, ends, i)
    ensures Filtered(e, dest, g, p, rows + [c], m, rest, ends + [m'], i)
  {
    assert Entry(m, rest, ends + [m'], i, |g.code|) == Entry(m, rest, ends, i, |g.code|);
  }

  lemma FilteredAll(e: Expr, dest: int, g: Gen, p: Program, rows: seq<Context>, c: Context, m: Machine,
      rest: (nat, Machine) -> Machine, ends: seq<Machine>, m': Machine)
    requires |ends| == |rows| && forall i :: 0 <= i < |rows| ==> Filtered(e, dest, g, p, rows, m, rest, ends, i)
    ensures forall i :: 0 <= i < |rows| ==> Filtered(e, dest, g, p, rows + [c], m, rest, ends + [m'], i)
  {
    forall i | 0 <= i < |rows|
      ensures Filtered(e, dest, g, p, rows + [c], m, rest, ends + [m'], i)
    {
      FilteredMore(e, dest, g, p, rows, c, m, rest, ends, m', i);
    }
  }

  /** WHERE over any sequence of rows: the body is reached exactly for the rows on which
      the condition is true, although constant IN lists are evaluated only once. */
  lemma {:induction false} WhereRows(e: Expr, dest: int, g: Gen, p: Program, rows: seq<Context>, m: Machine,
      rest: (nat, Machine) -> Machine) returns (ends: seq<Machine>)
    requires Parsed(e) && Inv(g) && Fits(IfFalse(e, dest, true, g), p) && Rows(rows)
    requires UsesOf(e).ids !! m.once && Elsewhere(rest, UsesOf(e).ids)
    ensures |ends| == |rows| && forall i :: 0 <= i < |rows| ==> Filtered(e, dest, g, p, rows, m, rest, ends, i)
    ensures |rows| > 0 ==> Current(UsesOf(e).sites, rows[|rows| - 1], if |ends| == 0 then m else ends[|ends| - 1])
    decreases |rows|
  {
    ends := [];
    if |rows| > 0 {
      var k := |rows| - 1;
      var before := WhereRows(e, dest, g, p, rows[..k], m, rest);
      var m' := WhereRowLast(e, dest, g, p, rows, m, rest, before);
      ends := before + [m'];
      assert rows[..k] + [rows[k]] == rows;
      FilteredAll(e, dest, g, p, rows[..k], rows[k], m, rest, before, m');
    }
  }

  /** The last of the rows. */
  lemma WhereRowLast(e: Expr, dest: int, g: Gen, p: Program, rows: seq<Context>, m: Machine,
      rest: (nat, Machine) -> Machine, before: seq<Machine>) returns (m': Machine)
    requires Parsed(e) && Inv(g) && Fits(IfFalse(e, dest, true, g), p)
    requires |rows| > 0 && |before| == |rows| - 1 && Rows(rows)
    requires UsesOf(e).ids !! m.once && Elsewhere(rest, UsesOf(e).ids)
    requires |before| > 0 ==> Current(UsesOf(e).sites, rows[|before| - 1], before[|before| - 1])
    ensures Filtered(e, dest, g, p, rows, m, rest, before + [m'], |before|)
    ensures Current(UsesOf(e).sites, rows[|before|], m')
  {
    var k := |before|;
    var start := Entry(m, rest, before, k, |g.code|);
    SitesOwned(e);
    if k > 0 {
      EntryCurrent(UsesOf(e), rest, rows[k - 1], rows[k], before[k - 1], k, |g.code|);
    }
    m' := IfFalseCorrect(e, dest, true, g, p, rows[k], start);
    assert Entry(m, rest, before + [m'], k, |g.code|) == start;
  }

  /** Row `i` was run from the start of the code and left its value in the target. */
  ghost predicate Computed(e: Expr, t: int, g: Gen, p: Program, rows: seq<Context>, m: Machine,
      rest: (nat, Machine) -> Machine, ends: seq<Machine>, i: nat)
    requires i < |rows| && i < |ends|
  {
    && Reaches(p, rows[i], Entry(m, rest, ends, i, |g.code|), ends[i])
    && ends[i].pc == |CodeInto(e, t, g).code| && Get(ends[i], t) == Eval(e, rows[i])
    && forall x :: Safe(g, x) && x != t ==> Get(ends[i], x) == Get(Entry(m, rest, ends, i, |g.code|), x)
  }

  lemma ComputedMore(e: Expr, t: int, g: Gen, p: Program, rows: seq<Context>, c: Context, m: Machine,
      rest: (nat, Machine) -> Machine, ends: seq<Machine>, m': Machine, i: nat)
    requires i < |rows| && i < |ends| && Computed(e, t, g, p, rows, m, rest, ends, i)
    ensures Computed(e, t, g, p, rows + [c], m, rest, ends + [m'], i)
  {
    assert Entry(m, rest, ends + [m'], i, |g.code|) == Entry(m, rest, ends, i, |g.code|);
  }

  lemma ComputedAll(e: Expr, t: int, g: Gen, p: Program, rows: seq<Context>, c: Context, m: Machine,
      rest: (nat, Machine) -> Machine, ends: seq<Machine>, m': Machine)
    requires |ends| == |rows| && forall i :: 0 <= i < |rows| ==> Computed(e, t, g, p, rows, m, rest, ends, i)
    ensures forall i :: 0 <= i < |rows| ==> Computed(e, t, g, p, rows + [c], m, rest, ends + [m'], i)
  {
    forall i | 0 <= i < |rows|
      ensures Computed(e, t, g, p, rows + [c], m, rest, ends + [m'], i)
    {
      ComputedMore(e, t, g, p, rows, c, m, rest, ends, m', i);
    }
  }

  /** A result column over any sequence of rows: each row leaves its value in the target
      and no other register in use is disturbed. */
  lemma {:induction false} ColumnRows(e: Expr, t: int, g: Gen, p: Program, rows: seq<Context>, m: Machine,
      rest: (nat, Machine) -> Machine) returns (ends: seq<Machine>)
    requires Parsed(e) && Inv(g) && Safe(g, t) && Fits(CodeInto(e, t, g), p) && Rows(rows)
    requires UsesOf(e).ids !! m.once && Elsewhere(rest, UsesOf(e).ids)
    ensures |ends| == |rows| && forall i :: 0 <= i < |rows| ==> Computed(e, t, g, p, rows, m, rest, ends, i)
    ensures |rows| > 0 ==> Current(UsesOf(e).sites, rows[|rows| - 1], if |ends| == 0 then m else ends[|ends| - 1])
    decreases |rows|
  {
    ends := [];
    if |rows| > 0 {
      var k := |rows| - 1;
      var before := ColumnRows(e, t, g, p, rows[..k], m, rest);
      var m' := ColumnRowLast(e, t, g, p, rows, m, rest, before);
      ends := before + [m'];
      assert rows[..k] + [rows[k]] == rows;
      ComputedAll(e, t, g, p, rows[..k], rows[k], m, rest, before, m');
    }
  }

  /** The last of the rows. */
  lemma ColumnRowLast(e: Expr, t: int, g: Gen, p: Program, rows: seq<Context>, m: Machine,
      rest: (nat, Machine) -> Machine, before: seq<Machine>) returns (m': Machine)
    requires Parsed(e) && Inv(g) && Safe(g, t) && Fits(CodeInto(e, t, g), p)
    requires |rows| > 0 && |before| == |rows| - 1 && Rows(rows)
    requires UsesOf(e).ids !! m.once && Elsewhere(rest, UsesOf(e).ids)
    requires |before| > 0 ==> Current(UsesOf(e).sites, rows[|before| - 1], before[|before| - 1])
    ensures Computed(e, t, g, p, rows, m, rest, before + [m'], |before|)
    ensures Current(UsesOf(e).sites, rows[|before|], m')
  {
    var k := |before|;
    var start := Entry(m, rest, before, k, |g.code|);
    SitesOwned(e);
    if k > 0 {
      EntryCurrent(UsesOf(e), rest, rows[k - 1], rows[k], before[k - 1], k, |g.code|);
    }
    m' := IntoCorrect(e, t, g, p, rows[k], start);
    assert Entry(m, rest, before + [m'], k, |g.code|) == start;
  }
}
