/** The row loop that ANALYZE generates for one index, and the numbers it stores.
    A column value stands for its rank in the collating order of the column. */
module Analyze {
  import opened Arithmetic
  import opened Collections
  import opened Sampler

  type Entry = seq<int>

  /** Index order. */
  predicate Leq(a: Entry, b: Entry)
    requires |a| == |b|
  {
    |a| == 0 || a[0] < b[0] || (a[0] == b[0] && Leq(a[1..], b[1..]))
  }

  /** Index order is decided by the first column that differs. */
  lemma {:induction false} LeqFirst(a: Entry, b: Entry)
    requires |a| == |b|
    ensures Leq(a, b) <==> a == b || exists k :: 0 <= k < |a| && a[..k] == b[..k] && a[k] < b[k]
    decreases |a|
  {
    if |a| > 0 && a[0] == b[0] {
      var x, y := a[1..], b[1..];
      LeqFirst(x, y);
      assert a == [a[0]] + x && b == [b[0]] + y;
      if k :| 0 <= k < |x| && x[..k] == y[..k] && x[k] < y[k] {
        assert a[..k + 1] == [a[0]] + x[..k] && b[..k + 1] == [b[0]] + y[..k];
        assert a[k + 1] < b[k + 1];
      }
      if k :| 0 <= k < |a| && a[..k] == b[..k] && a[k] < b[k] {
        assert x[..k - 1] == a[..k][1..] && y[..k - 1] == b[..k][1..] && x[k - 1] < y[k - 1];
      }
    } else if |a| > 0 {
      assert a[0] < b[0] ==> a[..0] == b[..0];
      assert forall k :: 0 < k < |a| && a[..k] == b[..k] ==> a[..k][0] == b[..k][0];
    }
  }

  ghost predicate Sorted(rows: seq<Entry>, nCol: nat) {
    && (forall i :: 0 <= i < |rows| ==> |rows[i]| == nCol)
    && (forall i, j {:trigger Leq(rows[i], rows[j])} :: 0 <= i <= j < |rows| ==>
      |rows[i]| == |rows[j]| && Leq(rows[i], rows[j]))
  }

  // ----- distinct prefixes -----

  ghost function Prefixes(rows: seq<Entry>, nCol: nat, k: nat): set<Entry>
    requires k <= nCol && forall i :: 0 <= i < |rows| ==> |rows[i]| == nCol
  {
    set i | 0 <= i < |rows| :: rows[i][..k]
  }

  /** An entry between two with the same prefix has that prefix. */
  lemma {:induction false} Sandwich(a: Entry, b: Entry, c: Entry, k: nat)
    requires |a| == |b| == |c| && k <= |a| && Leq(a, b) && Leq(b, c) && a[..k] == c[..k]
    ensures b[..k] == a[..k]
    decreases k
  {
    if k > 0 {
      assert a[0] == a[..k][0] == c[..k][0] == c[0];
      assert a[1..][..k - 1] == a[..k][1..] && c[1..][..k - 1] == c[..k][1..];
      Sandwich(a[1..], b[1..], c[1..], k - 1);
      assert b[..k] == [b[0]] + b[1..][..k - 1] && a[..k] == [a[0]] + a[1..][..k - 1];
    }
  }

  /** In a sorted index a prefix is new exactly when it differs from the one before. */
  lemma NewPrefix(rows: seq<Entry>, nCol: nat, n: nat, k: nat)
    requires Sorted(rows, nCol) && n < |rows| && k <= nCol
    ensures |Prefixes(rows[..n + 1], nCol, k)| ==
      |Prefixes(rows[..n], nCol, k)| + if n == 0 || rows[n][..k] != rows[n - 1][..k] then 1 else 0
  {
    var a, x := Prefixes(rows[..n], nCol, k), rows[n][..k];
    PrefixesNext(rows, nCol, n, k);
    if n > 0 && x == rows[n - 1][..k] {
      assert rows[..n][n - 1][..k] == x;
      assert a + {x} == a;
    } else if x in a {
      var i :| 0 <= i < n && rows[..n][i][..k] == x;
      Sandwich(rows[i], rows[n - 1], rows[n], k);
    }
  }

  lemma PrefixesNext(rows: seq<Entry>, nCol: nat, n: nat, k: nat)
    requires (forall i :: 0 <= i < |rows| ==> |rows[i]| == nCol) && n < |rows| && k <= nCol
    ensures Prefixes(rows[..n + 1], nCol, k) == Prefixes(rows[..n], nCol, k) + {rows[n][..k]}
  {
    var a, b := Prefixes(rows[..n], nCol, k), Prefixes(rows[..n + 1], nCol, k);
    forall y | y in b
      ensures y in a + {rows[n][..k]}
    {
      var i :| 0 <= i < n + 1 && rows[..n + 1][i][..k] == y;
      assert i < n ==> rows[..n][i][..k] == y;
    }
    forall y | y in a
      ensures y in b
    {
      var i :| 0 <= i < n && rows[..n][i][..k] == y;
      assert rows[..n + 1][i][..k] == y;
    }
    assert rows[..n + 1][n][..k] == rows[n][..k];
  }

  // ----- groups of the first column -----

  function Equal(rows: seq<Entry>, v: int): nat {
    if rows == [] then 0
    else Equal(rows[..|rows| - 1], v) + if |rows[|rows| - 1]| > 0 && rows[|rows| - 1][0] == v then 1 else 0
  }

  function Fewer(rows: seq<Entry>, v: int): nat {
    if rows == [] then 0
    else Fewer(rows[..|rows| - 1], v) + if |rows[|rows| - 1]| > 0 && rows[|rows| - 1][0] < v then 1 else 0
  }

  /** The numbers of the rows whose first column is `v`, and of those where it is smaller. */
  ghost function RowsOf(rows: seq<Entry>, v: int): set<int> {
    set i | 0 <= i < |rows| && |rows[i]| > 0 && rows[i][0] == v
  }

  ghost function RowsUnder(rows: seq<Entry>, v: int): set<int> {
    set i | 0 <= i < |rows| && |rows[i]| > 0 && rows[i][0] < v
  }

  lemma RowsNext(rows: seq<Entry>, n: nat, v: int)
    requires n < |rows|
    ensures RowsOf(rows[..n + 1], v) == RowsOf(rows[..n], v) + if |rows[n]| > 0 && rows[n][0] == v then {n} else {}
    ensures RowsUnder(rows[..n + 1], v) == RowsUnder(rows[..n], v) + if |rows[n]| > 0 && rows[n][0] < v then {n} else {}
  {
  }

  /** The counts are numbers of rows. */
  lemma {:induction false} RowsCounted(rows: seq<Entry>, v: int)
    ensures Equal(rows, v) == |RowsOf(rows, v)| && Fewer(rows, v) == |RowsUnder(rows, v)|
    decreases |rows|
  {
    if rows != [] {
      RowsCounted(rows[..|rows| - 1], v);
      RowsNext(rows, |rows| - 1, v);
      assert rows[..|rows|] == rows;
    }
  }

  lemma {:induction false} FirstOrder(a: Entry, b: Entry)
    requires |a| == |b| > 0 && Leq(a, b)
    ensures a[0] <= b[0]
  {
  }

  /** One more row. */
  lemma CountsNext(rows: seq<Entry>, n: nat, v: int)
    requires n < |rows| && |rows[n]| > 0
    ensures Equal(rows[..n + 1], v) == Equal(rows[..n], v) + if rows[n][0] == v then 1 else 0
    ensures Fewer(rows[..n + 1], v) == Fewer(rows[..n], v) + if rows[n][0] < v then 1 else 0
  {
    assert rows[..n + 1][..n] == rows[..n];
  }

  /** Later rows of a sorted index do not touch a finished group. */
  lemma {:induction false} CountsDone(rows: seq<Entry>, n: nat, v: int)
    requires n <= |rows| && forall i :: n <= i < |rows| ==> |rows[i]| > 0 && rows[i][0] > v
    ensures Equal(rows, v) == Equal(rows[..n], v) && Fewer(rows, v) == Fewer(rows[..n], v)
    decreases |rows| - n
  {
    if n < |rows| {
      CountsNext(rows, n, v);
      CountsDone(rows, n + 1, v);
    } else {
      assert rows[..n] == rows;
    }
  }

  /** A value larger than all rows so far. */
  lemma {:induction false} CountsNew(rows: seq<Entry>, v: int)
    requires forall i :: 0 <= i < |rows| ==> |rows[i]| > 0 && rows[i][0] < v
    ensures Equal(rows, v) == 0 && Fewer(rows, v) == |rows|
    decreases |rows|
  {
    if |rows| > 0 {
      CountsNew(rows[..|rows| - 1], v);
    }
  }

  /** One call of stat3_push. */
  datatype Push = Push(value: int, nEq: nat, nLt: nat, nDLt: int, iRowid: int)

  /** Group number `k`: its rows, the rows and the distinct values before it, and its first row. */
  ghost predicate IsGroup(rows: seq<Entry>, rowids: seq<int>, g: Push, k: int) {
    && g.nEq == Equal(rows, g.value) > 0 && g.nLt == Fewer(rows, g.value) && g.nDLt == k
    && 0 <= g.nLt < |rows| == |rowids| && g.iRowid == rowids[g.nLt] && |rows[g.nLt]| > 0 && rows[g.nLt][0] == g.value
  }

  ghost predicate Groups(rows: seq<Entry>, rowids: seq<int>, gs: seq<Push>) {
    && (forall k :: 0 <= k < |gs| ==> IsGroup(rows, rowids, gs[k], k))
    && Rising(gs)
  }

  ghost predicate Rising(gs: seq<Push>) {
    forall j, k :: 0 <= j < k < |gs| ==> gs[j].value < gs[k].value
  }

  /** The groups follow each other without a gap, from the first row to `end`. */
  ghost predicate Adjacent(gs: seq<Push>, end: nat) {
    if |gs| == 0 then end == 0
    else
      var last := gs[|gs| - 1];
      last.nLt + last.nEq == end && Adjacent(gs[..|gs| - 1], last.nLt)
  }

  ghost predicate Covered(v: int, gs: seq<Push>) {
    exists k :: 0 <= k < |gs| && gs[k].value == v
  }

  lemma CoveredToo(v: int, gs: seq<Push>, g: Push)
    requires v == g.value || Covered(v, gs)
    ensures Covered(v, gs + [g])
  {
    if v == g.value {
      assert (gs + [g])[|gs|].value == v;
    } else {
      var k :| 0 <= k < |gs| && gs[k].value == v;
      assert (gs + [g])[k].value == v;
    }
  }

  /** The registers after `n` rows: `g` is the group under way. */
  ghost predicate Open(rows: seq<Entry>, rowids: seq<int>, n: nat, gs: seq<Push>, g: Push) {
    && n <= |rows| == |rowids| && Groups(rows, rowids, gs)
    && (n == 0 ==> gs == [] && g.nEq == 0 && g.nLt == 0 && g.nDLt == -1)
    && (n > 0 ==>
          && |rows[n - 1]| > 0 && g.value == rows[n - 1][0] && g.nEq == Equal(rows[..n], g.value) > 0
          && g.nLt == Fewer(rows[..n], g.value) && g.nLt + g.nEq == n && g.nDLt == |gs|
          && g.iRowid == rowids[g.nLt] && |rows[g.nLt]| > 0 && rows[g.nLt][0] == g.value
          && (forall k :: 0 <= k < |gs| ==> gs[k].value < g.value) && Adjacent(gs, g.nLt)
          && (forall i :: 0 <= i < n && |rows[i]| > 0 ==> rows[i][0] == g.value || Covered(rows[i][0], gs)))
  }

  lemma SameGroup(rows: seq<Entry>, rowids: seq<int>, nCol: nat, n: nat, gs: seq<Push>, g: Push)
    requires Sorted(rows, nCol) && nCol > 0 && Open(rows, rowids, n, gs, g) && 0 < n < |rows| && rows[n][0] == g.value
    ensures Open(rows, rowids, n + 1, gs, g.(nEq := g.nEq + 1))
  {
    CountsNext(rows, n, g.value);
  }

  /** The group under way is complete when the first column changes or the index ends. */
  lemma GroupDone(rows: seq<Entry>, rowids: seq<int>, nCol: nat, n: nat, gs: seq<Push>, g: Push)
    requires Sorted(rows, nCol) && nCol > 0 && Open(rows, rowids, n, gs, g) && 0 < n
    requires n < |rows| ==> rows[n][0] != g.value
    ensures Groups(rows, rowids, gs + [g]) && Adjacent(gs + [g], n)
    ensures forall i :: 0 <= i < n ==> Covered(rows[i][0], gs + [g])
  {
    forall i | 0 <= i < n
      ensures Covered(rows[i][0], gs + [g])
    {
      CoveredToo(rows[i][0], gs, g);
    }
    forall i | n <= i < |rows|
      ensures |rows[i]| > 0 && rows[i][0] > g.value
    {
      FirstOrder(rows[n - 1], rows[n]);
      FirstOrder(rows[n], rows[i]);
    }
    CountsDone(rows, n, g.value);
    assert (gs + [g])[..|gs|] == gs;
  }

  lemma NewGroup(rows: seq<Entry>, rowids: seq<int>, nCol: nat, n: nat, gs: seq<Push>, g: Push)
    requires Sorted(rows, nCol) && nCol > 0 && Open(rows, rowids, n, gs, g) && n < |rows|
    requires n > 0 ==> rows[n][0] != g.value
    ensures var done := if n == 0 then gs else gs + [g];
      Open(rows, rowids, n + 1, done, Push(rows[n][0], 1, g.nLt + g.nEq, g.nDLt + 1, rowids[n]))
  {
    if n > 0 {
      GroupDone(rows, rowids, nCol, n, gs, g);
      FirstOrder(rows[n - 1], rows[n]);
    }
    StartGroup(rows, rowids, nCol, n, if n == 0 then gs else gs + [g]);
  }

  lemma StartGroup(rows: seq<Entry>, rowids: seq<int>, nCol: nat, n: nat, gs: seq<Push>)
    requires Sorted(rows, nCol) && nCol > 0 && n < |rows| == |rowids| && (n > 0 ==> rows[n][0] != rows[n - 1][0])
    requires Groups(rows, rowids, gs) && Adjacent(gs, n) && forall k :: 0 <= k < |gs| ==> gs[k].value < rows[n][0]
    requires forall i :: 0 <= i < n ==> Covered(rows[i][0], gs)
    ensures Open(rows, rowids, n + 1, gs, Push(rows[n][0], 1, n, |gs|, rowids[n]))
  {
    NewValue(rows, nCol, n);
  }

  lemma NewValue(rows: seq<Entry>, nCol: nat, n: nat)
    requires Sorted(rows, nCol) && nCol > 0 && n < |rows| && (n > 0 ==> rows[n][0] != rows[n - 1][0])
    ensures Equal(rows[..n + 1], rows[n][0]) == 1 && Fewer(rows[..n + 1], rows[n][0]) == n
  {
    forall i | 0 <= i < n
      ensures |rows[..n][i]| > 0 && rows[..n][i][0] < rows[n][0]
    {
      FirstOrder(rows[i], rows[n - 1]);
      FirstOrder(rows[n - 1], rows[n]);
    }
    CountsNew(rows[..n], rows[n][0]);
    CountsNext(rows, n, rows[n][0]);
  }

  function Prn(prn: nat, k: nat): nat {
    if k == 0 then prn else NextPrn(Prn(prn, k - 1))
  }

  /** What push number `k` offers. */
  function SampleOf(g: Push, k: nat, prn: nat, period: nat): Sample
    requires period > 0
  {
    Sample(g.iRowid, g.nEq, g.nLt, g.nDLt, Bin(g.nLt, period) != Bin(g.nLt + g.nEq, period), Prn(prn, k + 1))
  }

  /** The samples that the pushes stand for. */
  ghost function Offered(gs: seq<Push>, prn: nat, period: nat): set<Sample>
    requires period > 0
  {
    if gs == [] then {}
    else
      var n := |gs| - 1;
      Offered(gs[..n], prn, period) + {SampleOf(gs[n], n, prn, period)}
  }

  // ----- the loop -----

  /** The chain of OP_Ne tests; the very first row counts as a change of column zero. */
  method FirstChange(row: Entry, prev: Entry, seen: bool) returns (i: nat)
    requires |row| == |prev|
    ensures i <= |row| && (!seen ==> i == 0)
    ensures seen ==> row[..i] == prev[..i] && (i < |row| ==> row[i] != prev[i])
  {
    i := 0;
    while i < |row|
      invariant i <= |row| && (seen ==> row[..i] == prev[..i]) && (!seen ==> i == 0)
    {
      if !seen || row[i] != prev[i] {
        return;
      }
      i := i + 1;
      assert row[..i] == row[..i - 1] + [row[i - 1]] && prev[..i] == prev[..i - 1] + [prev[i - 1]];
    }
  }

  /** The counters and the saved columns from the first changed column on. */
  method Bump(count: seq<nat>, prev: Entry, row: Entry, first: nat) returns (count': seq<nat>, prev': Entry)
    requires |count| == |prev| == |row| && first <= |row|
    ensures |count'| == |count| && forall j :: 0 <= j < |count| ==> count'[j] == count[j] + if j >= first then 1 else 0
    ensures prev' == prev[..first] + row[first..]
  {
    count', prev' := count, prev;
    for i := first to |row|
      invariant |count'| == |count| && |prev'| == |prev|
      invariant forall j :: 0 <= j < |count| ==> count'[j] == count[j] + if first <= j < i then 1 else 0
      invariant forall j :: 0 <= j < |row| ==> prev'[j] == if first <= j < i then row[j] else prev[j]
    {
      count', prev' := count'[i := count'[i] + 1], prev'[i := row[i]];
    }
  }

  ghost predicate Counted(rows: seq<Entry>, nCol: nat, n: nat, count: seq<nat>)
    requires n <= |rows| && forall i :: 0 <= i < |rows| ==> |rows[i]| == nCol
  {
    |count| == nCol && forall j :: 0 <= j < nCol ==> count[j] == |Prefixes(rows[..n], nCol, j + 1)|
  }

  /** Bumping from the first changed column keeps the counters exact. */
  lemma CountedNext(rows: seq<Entry>, nCol: nat, n: nat, count: seq<nat>, first: nat, count': seq<nat>)
    requires Sorted(rows, nCol) && n < |rows| && Counted(rows, nCol, n, count) && first <= nCol && |count'| == nCol
    requires n == 0 ==> first == 0
    requires n > 0 ==>
      rows[n][..first] == rows[n - 1][..first] && (first < nCol ==> rows[n][first] != rows[n - 1][first])
    requires forall j :: 0 <= j < nCol ==> count'[j] == count[j] + if j >= first then 1 else 0
    ensures Counted(rows, nCol, n + 1, count')
  {
    forall j | 0 <= j < nCol
      ensures count'[j] == |Prefixes(rows[..n + 1], nCol, j + 1)|
    {
      NewPrefix(rows, nCol, n, j + 1);
      if n > 0 {
        var a, b := rows[n], rows[n - 1];
        if j >= first {
          assert a[..j + 1][first] != b[..j + 1][first];
        } else {
          assert a[..j + 1] == a[..first][..j + 1] && b[..j + 1] == b[..first][..j + 1];
        }
      }
    }
  }

  method CountRow(rows: seq<Entry>, nCol: nat, n: nat, count: seq<nat>, prev: Entry)
      returns (count': seq<nat>, prev': Entry, fresh0: bool)
    requires Sorted(rows, nCol) && nCol > 0 && n < |rows| && Counted(rows, nCol, n, count) && |prev| == nCol
    requires (n > 0 ==> prev == rows[n - 1]) && (n > 0 <==> count[0] > 0)
    ensures Counted(rows, nCol, n + 1, count') && prev' == rows[n] && count'[0] > 0
    ensures fresh0 <==> n == 0 || rows[n][0] != rows[n - 1][0]
  {
    var row := rows[n];
    var first := FirstChange(row, prev, count[0] > 0);
    count', prev' := Bump(count, prev, row, first);
    CountedNext(rows, nCol, n, count, first, count');
    fresh0 := first == 0;
    assert first > 0 ==> row[0] == row[..first][0] == prev[0];
    assert prev' == row;
  }

  method GroupRow(rows: seq<Entry>, rowids: seq<int>, ghost nCol: nat, n: nat, gs: seq<Push>, g: Push, fresh0: bool)
    returns (gs': seq<Push>, g': Push)
    requires Sorted(rows, nCol) && nCol > 0 && n < |rows| && Open(rows, rowids, n, gs, g)
    requires fresh0 <==> n == 0 || rows[n][0] != rows[n - 1][0]
    ensures Open(rows, rowids, n + 1, gs', g')
  {
    if fresh0 {
      NewGroup(rows, rowids, nCol, n, gs, g);
      gs' := if g.nEq == 0 then gs else gs + [g];
      g' := Push(rows[n][0], 1, g.nLt + g.nEq, g.nDLt + 1, rowids[n]);
    } else {
      SameGroup(rows, rowids, nCol, n, gs, g);
      gs', g' := gs, g.(nEq := g.nEq + 1);
    }
  }

  /** The loop over the index: the row count, the distinct prefixes of every length and the
      calls of stat3_push, with exact counts for every group of the first column. */
  method ScanIndex(rows: seq<Entry>, rowids: seq<int>, nCol: nat) returns (nRow: nat, count: seq<nat>, gs: seq<Push>)
    requires Sorted(rows, nCol) && nCol > 0 && |rowids| == |rows|
    ensures nRow == |rows| && Counted(rows, nCol, |rows|, count)
    ensures Groups(rows, rowids, gs) && Adjacent(gs, |rows|) && forall i :: 0 <= i < |rows| ==> Covered(rows[i][0], gs)
  {
    var g := Push(0, 0, 0, -1, 0);
    var prev: Entry, fresh0 := seq(nCol, i => 0), false;
    nRow, count, gs := 0, seq(nCol, i => 0), [];
    while nRow < |rows|
      invariant nRow <= |rows| && Counted(rows, nCol, nRow, count) && |prev| == nCol
      invariant nRow > 0 ==> prev == rows[nRow - 1]
      invariant Open(rows, rowids, nRow, gs, g) && (nRow > 0 <==> count[0] > 0)
    {
      count, prev, fresh0 := CountRow(rows, nCol, nRow, count, prev);
      gs, g := GroupRow(rows, rowids, nCol, nRow, gs, g, fresh0);
      nRow := nRow + 1;
    }
    if nRow > 0 {
      GroupDone(rows, rowids, nCol, nRow, gs, g);
      gs := gs + [g];
    }
  }

  /** The sampler has been given exactly these groups. */
  ghost predicate Fed(p: Stat3Accum, gs: seq<Push>, prn: nat)
    reads p, p.a
  {
    p.Valid() && p.nPSample > 0 && p.pushed == Offered(gs, prn, p.nPSample) && p.iPrn == Prn(prn, |gs|)
  }

  /** A group that is still empty is not pushed. */
  method PushGroup(p: Stat3Accum, ghost gs: seq<Push>, g: Push, ghost prn: nat) returns (ghost gs': seq<Push>)
    requires Fed(p, gs, prn) && (g.nEq > 0 ==> g.nLt == p.pos && g.nLt + g.nEq <= p.nRow)
    modifies p, p.a
    ensures gs' == (if g.nEq == 0 then gs else gs + [g]) && Fed(p, gs', prn) && p.pos == old(p.pos) + g.nEq
  {
    gs' := if g.nEq == 0 then gs else gs + [g];
    assert (gs + [g])[..|gs|] == gs;
    p.Push(g.nEq, g.nLt, g.nDLt, g.iRowid);
  }

  /** The sampler run over the groups of a whole index. */
  method SampleIndex(gs: seq<Push>, nRow: nat, mxSample: nat, prn: nat)
      returns (samples: seq<Sample>, ghost dropped: set<Sample>)
    requires Adjacent(gs, nRow) && mxSample >= 1 && forall k :: 0 <= k < |gs| ==> gs[k].nEq > 0
    ensures |samples| <= mxSample && InOrder(samples, nRow) && Best(samples, dropped)
    ensures Members(samples) + dropped == Offered(gs, prn, Period(nRow, mxSample))
    ensures |samples| < mxSample ==> dropped == {}
  {
    var p := new Stat3Accum(nRow, mxSample, prn);
    for k := 0 to |gs|
      invariant Fed(p, gs[..k], prn) && fresh(p) && fresh(p.a) && Adjacent(gs[..k], p.pos)
    {
      SampleGroup(p, gs, nRow, k, prn);
    }
    assert gs[..|gs|] == gs;
    samples, dropped := p.a[..p.nSample], p.dropped;
  }

  /** Group number `k`, after those before it. */
  method SampleGroup(p: Stat3Accum, gs: seq<Push>, ghost nRow: nat, k: nat, ghost prn: nat)
    requires k < |gs| && gs[k].nEq > 0 && Adjacent(gs, nRow) && p.nRow == nRow
    requires Fed(p, gs[..k], prn) && Adjacent(gs[..k], p.pos)
    modifies p, p.a
    ensures Fed(p, gs[..k + 1], prn) && Adjacent(gs[..k + 1], p.pos)
  {
    Begins(gs, nRow, k);
    SameEnd(gs[..k], p.pos, gs[k].nLt);
    assert gs[..k + 1] == gs[..k] + [gs[k]] && gs[..k + 1][..k] == gs[..k];
    ghost var done := PushGroup(p, gs[..k], gs[k], prn);
  }

  /** Each group begins where the ones before it end, within the index. */
  lemma {:induction false} Begins(gs: seq<Push>, end: nat, k: nat)
    requires Adjacent(gs, end) && k < |gs|
    ensures Adjacent(gs[..k], gs[k].nLt) && gs[k].nLt + gs[k].nEq <= end
    decreases |gs|
  {
    var n := |gs| - 1;
    if k < n {
      Begins(gs[..n], gs[n].nLt, k);
      assert gs[..n][..k] == gs[..k];
    }
  }

  lemma {:induction false} SameEnd(gs: seq<Push>, a: nat, b: nat)
    requires Adjacent(gs, a) && Adjacent(gs, b)
    ensures a == b
  {
  }

  // ----- from the rows to the samples -----

  /** The distinct values of the first column below `v`. */
  ghost function Below(rows: seq<Entry>, v: int): set<int> {
    set i | 0 <= i < |rows| && |rows[i]| > 0 && rows[i][0] < v :: rows[i][0]
  }

  /** The rows of value `v` include one whose number is a multiple of the period. */
  ghost predicate Crosses(rows: seq<Entry>, period: nat, v: int)
    requires period > 0
  {
    exists m :: 0 < m && Fewer(rows, v) < period * m <= Fewer(rows, v) + Equal(rows, v)
  }

  /** The random number drawn for the group of value `v`. */
  ghost function HashFor(rows: seq<Entry>, prn: nat, v: int): nat {
    Prn(prn, |Below(rows, v)| + 1)
  }

  /** A sample tells the truth about the value of the row it names: how many rows have that value, how many
      rows and how many distinct values come before it, whether it is periodic, and its random number. */
  ghost predicate Truthful(rows: seq<Entry>, rowids: seq<int>, prn: nat, period: nat, s: Sample)
    requires period > 0
  {
    && s.nLt < |rows| == |rowids| && |rows[s.nLt]| > 0 && s.iRowid == rowids[s.nLt]
    && var v := rows[s.nLt][0];
       && s.nEq == Equal(rows, v) && s.nLt == Fewer(rows, v) && s.nDLt == |Below(rows, v)|
       && s.isPSample == Crosses(rows, period, v) && s.iHash == HashFor(rows, prn, v)
  }

  ghost predicate Stored(rows: seq<Entry>, samples: seq<Sample>, v: int) {
    exists k :: 0 <= k < |samples| && samples[k].nLt < |rows| && |rows[samples[k].nLt]| > 0
                && rows[samples[k].nLt][0] == v
  }

  /** Value `v` has fewer rows than `w`, or as many and no larger a random number. */
  ghost predicate Yields(rows: seq<Entry>, prn: nat, v: int, w: int) {
    || Equal(rows, v) < Equal(rows, w)
    || (Equal(rows, v) == Equal(rows, w) && HashFor(rows, prn, v) <= HashFor(rows, prn, w))
  }

  /** Value `v` is stored; or the sample is full, `v` is not periodic and yields to every stored
      value that is not. */
  ghost predicate Settled(rows: seq<Entry>, prn: nat, period: nat, samples: seq<Sample>, mx: nat, v: int)
    requires period > 0
  {
    || Stored(rows, samples, v)
    || (&& |samples| == mx && !Crosses(rows, period, v)
        && forall w :: Stored(rows, samples, w) && !Crosses(rows, period, w) ==> Yields(rows, prn, v, w))
  }

  ghost predicate Represents(rows: seq<Entry>, rowids: seq<int>, prn: nat, period: nat, samples: seq<Sample>,
      mx: nat)
    requires period > 0
  {
    && (forall k :: 0 <= k < |samples| ==> Truthful(rows, rowids, prn, period, samples[k]))
    && (forall i :: 0 <= i < |rows| && |rows[i]| > 0 ==> Settled(rows, prn, period, samples, mx, rows[i][0]))
  }

  /** The periods before two places differ exactly when a multiple of the period lies between them. */
  lemma BinCrosses(rows: seq<Entry>, period: nat, v: int)
    requires period > 0
    ensures Crosses(rows, period, v) <==>
      Bin(Fewer(rows, v), period) != Bin(Fewer(rows, v) + Equal(rows, v), period)
  {
    MultipleBetween(Fewer(rows, v), Fewer(rows, v) + Equal(rows, v), period);
  }

  lemma MultipleBetween(a: nat, b: nat, period: nat)
    requires period > 0 && a <= b
    ensures Bin(a, period) != Bin(b, period) <==> exists m :: 0 < m && a < period * m <= b
  {
    BinPlace(a, period);
    BinPlace(b, period);
    BinMonotone(a, b, period);
    if Bin(a, period) < Bin(b, period) {
      LastMultiple(a, b, period);
    }
    if m :| 0 < m && a < period * m <= b {
      BinsApart(a, b, period, m);
    }
  }

  lemma LastMultiple(a: nat, b: nat, period: nat)
    requires period > 0 && a / period < b / period
    ensures 0 < b / period && a < period * (b / period) <= b
  {
    Divided(a, period);
    Divided(b, period);
    MulStep(period, b / period, a / period);
  }

  lemma BinsApart(a: nat, b: nat, period: nat, m: int)
    requires period > 0 && a < period * m <= b
    ensures a / period != b / period
  {
    Divided(a, period);
    Divided(b, period);
    MulStep(period, a / period, m - 1);
    MulStep(period, m, b / period);
    assert period * (m - 1) + period == period * m;
  }

  lemma NotEmpty(rows: seq<Entry>, rowids: seq<int>, gs: seq<Push>)
    requires Groups(rows, rowids, gs)
    ensures forall k :: 0 <= k < |gs| ==> gs[k].nEq > 0
  {
    forall k | 0 <= k < |gs|
      ensures gs[k].nEq > 0
    {
      assert IsGroup(rows, rowids, gs[k], k);
    }
  }

  /** The values of the groups up to number `k`. */
  ghost function Firsts(gs: seq<Push>, k: nat): set<int>
    requires k <= |gs|
  {
    if k == 0 then {} else Firsts(gs, k - 1) + {gs[k - 1].value}
  }

  lemma {:induction false} FirstsAre(gs: seq<Push>, k: nat)
    requires k <= |gs| && Rising(gs)
    ensures |Firsts(gs, k)| == k && forall v :: v in Firsts(gs, k) <==> exists i :: 0 <= i < k && gs[i].value == v
    decreases k
  {
    if k > 0 {
      FirstsAre(gs, k - 1);
    }
  }

  /** The number of a group is the number of distinct values before it. */
  lemma GroupRank(rows: seq<Entry>, rowids: seq<int>, nCol: nat, gs: seq<Push>, k: nat)
    requires Sorted(rows, nCol) && nCol > 0 && Groups(rows, rowids, gs) && k < |gs|
    requires forall i :: 0 <= i < |rows| ==> Covered(rows[i][0], gs)
    ensures |Below(rows, gs[k].value)| == k
  {
    FirstsAre(gs, k);
    forall u: int
      ensures u in Firsts(gs, k) <==> u in Below(rows, gs[k].value)
    {
      if u in Firsts(gs, k) {
        FirstBelow(rows, rowids, gs, k, u);
      }
      if u in Below(rows, gs[k].value) {
        BelowFirst(rows, gs, k, u);
      }
    }
    assert Firsts(gs, k) == Below(rows, gs[k].value);
  }

  lemma FirstBelow(rows: seq<Entry>, rowids: seq<int>, gs: seq<Push>, k: nat, u: int)
    requires Groups(rows, rowids, gs) && k < |gs| && u in Firsts(gs, k)
    ensures u in Below(rows, gs[k].value)
  {
    FirstsAre(gs, k);
    var i :| 0 <= i < k && gs[i].value == u;
    assert IsGroup(rows, rowids, gs[i], i) && rows[gs[i].nLt][0] == u;
  }

  lemma BelowFirst(rows: seq<Entry>, gs: seq<Push>, k: nat, u: int)
    requires k < |gs| && u in Below(rows, gs[k].value) && Rising(gs)
    requires forall i :: 0 <= i < |rows| && |rows[i]| > 0 ==> Covered(rows[i][0], gs)
    ensures u in Firsts(gs, k)
  {
    FirstsAre(gs, k);
    var i :| 0 <= i < |rows| && |rows[i]| > 0 && rows[i][0] == u;
    assert Covered(rows[i][0], gs);
    var j :| 0 <= j < |gs| && gs[j].value == u;
  }

  lemma {:induction false} OfferedAre(gs: seq<Push>, prn: nat, period: nat, x: Sample)
    requires period > 0
    ensures x in Offered(gs, prn, period) <==> exists k :: 0 <= k < |gs| && x == SampleOf(gs[k], k, prn, period)
    decreases |gs|
  {
    if gs != [] {
      var n := |gs| - 1;
      OfferedAre(gs[..n], prn, period, x);
      if x in Offered(gs[..n], prn, period) {
        var k :| 0 <= k < n && x == SampleOf(gs[..n][k], k, prn, period);
        assert x == SampleOf(gs[k], k, prn, period);
      }
      if k :| 0 <= k < |gs| && x == SampleOf(gs[k], k, prn, period) {
        assert k < n ==> gs[..n][k] == gs[k];
      }
    }
  }

  /** ANALYZE of one index: the numbers of distinct prefixes, and a bounded sample in key order whose
      counts are exact. A value of the first column that is not stored has no more rows than any stored
      one that is not periodic, and on a tie no larger a random number. */
  method AnalyzeIndex(rows: seq<Entry>, rowids: seq<int>, nCol: nat, mxSample: nat, prn: nat)
      returns (count: seq<nat>, samples: seq<Sample>)
    requires Sorted(rows, nCol) && nCol > 0 && |rowids| == |rows| && mxSample >= 1
    ensures Counted(rows, nCol, |rows|, count) && |samples| <= mxSample && InOrder(samples, |rows|)
    ensures Represents(rows, rowids, prn, Period(|rows|, mxSample), samples, mxSample)
  {
    var nRow, gs;
    nRow, count, gs := ScanIndex(rows, rowids, nCol);
    NotEmpty(rows, rowids, gs);
    ghost var dropped;
    samples, dropped := SampleIndex(gs, nRow, mxSample, prn);
    AllSettled(rows, rowids, nCol, gs, prn, Period(nRow, mxSample), samples, dropped, mxSample);
  }

  lemma OfferedTruth(rows: seq<Entry>, rowids: seq<int>, nCol: nat, gs: seq<Push>, prn: nat, period: nat, k: nat)
    requires Sorted(rows, nCol) && nCol > 0 && Groups(rows, rowids, gs) && period > 0 && k < |gs|
    requires forall i :: 0 <= i < |rows| ==> Covered(rows[i][0], gs)
    ensures var x := SampleOf(gs[k], k, prn, period);
      Truthful(rows, rowids, prn, period, x) && rows[x.nLt][0] == gs[k].value
  {
    assert IsGroup(rows, rowids, gs[k], k);
    GroupRank(rows, rowids, nCol, gs, k);
    BinCrosses(rows, period, gs[k].value);
  }

  lemma AllSettled(rows: seq<Entry>, rowids: seq<int>, nCol: nat, gs: seq<Push>, prn: nat, period: nat,
      samples: seq<Sample>, dropped: set<Sample>, mx: nat)
    requires Sorted(rows, nCol) && nCol > 0 && Groups(rows, rowids, gs) && period > 0
    requires forall i :: 0 <= i < |rows| ==> Covered(rows[i][0], gs)
    requires Members(samples) + dropped == Offered(gs, prn, period) && Best(samples, dropped)
    requires |samples| <= mx && (|samples| < mx ==> dropped == {})
    ensures Represents(rows, rowids, prn, period, samples, mx)
  {
    forall k | 0 <= k < |samples|
      ensures Truthful(rows, rowids, prn, period, samples[k])
    {
      assert samples[k] in Members(samples);
      OfferedAre(gs, prn, period, samples[k]);
      var j :| 0 <= j < |gs| && samples[k] == SampleOf(gs[j], j, prn, period);
      OfferedTruth(rows, rowids, nCol, gs, prn, period, j);
    }
    forall i | 0 <= i < |rows|
      ensures Settled(rows, prn, period, samples, mx, rows[i][0])
    {
      assert Covered(rows[i][0], gs);
      var k :| 0 <= k < |gs| && gs[k].value == rows[i][0];
      var d := SampleOf(gs[k], k, prn, period);
      OfferedTruth(rows, rowids, nCol, gs, prn, period, k);
      OfferedAre(gs, prn, period, d);
      assert d in Members(samples) || d in dropped;
      ValueSettled(rows, rowids, prn, period, samples, mx, d, rows[i][0]);
    }
  }

  lemma ValueSettled(rows: seq<Entry>, rowids: seq<int>, prn: nat, period: nat, samples: seq<Sample>, mx: nat,
      d: Sample, v: int)
    requires period > 0 && Truthful(rows, rowids, prn, period, d) && rows[d.nLt][0] == v
    requires forall k :: 0 <= k < |samples| ==> Truthful(rows, rowids, prn, period, samples[k])
    requires d in samples || (|samples| == mx && Outdone(d, samples))
    ensures Settled(rows, prn, period, samples, mx, v)
  {
    if d in samples {
      var k :| 0 <= k < |samples| && samples[k] == d;
      assert Stored(rows, samples, v);
    } else {
      forall w | Stored(rows, samples, w) && !Crosses(rows, period, w)
        ensures Yields(rows, prn, v, w)
      {
        var k :| 0 <= k < |samples| && samples[k].nLt < |rows| && |rows[samples[k].nLt]| > 0
                 && rows[samples[k].nLt][0] == w;
        assert Truthful(rows, rowids, prn, period, samples[k]) && NoBetter(d, samples[k]);
      }
    }
  }

  // ----- the estimates in sqlite_stat1 -----

  /** Rows selected by a prefix, from the row count and the number of distinct prefixes. */
  function Estimate(k: nat, d: nat): nat
    requires d > 0
  {
    (k + d - 1) / d
  }

  lemma EstimateCeiling(k: nat, d: nat)
    requires k > 0 && d > 0
    ensures d * (Estimate(k, d) - 1) < k <= d * Estimate(k, d)
  {
    Divided(k + d - 1, d);
  }

  lemma EstimateOrder(k: nat, d: nat, e: nat)
    requires k > 0 && 0 < d <= e
    ensures 1 <= Estimate(k, e) <= Estimate(k, d)
  {
    EstimateCeiling(k, d);
    EstimateCeiling(k, e);
    var x, y := Estimate(k, d), Estimate(k, e);
    assert e * (y - 1) == e * y - e && e * x == d * x + (e - d) * x;
    MulStep(e, y, x);
  }

  lemma PrefixesGrow(rows: seq<Entry>, nCol: nat, j: nat, k: nat)
    requires (forall i :: 0 <= i < |rows| ==> |rows[i]| == nCol) && j <= k <= nCol
    ensures |Prefixes(rows, nCol, j)| <= |Prefixes(rows, nCol, k)|
  {
    var a, b := Prefixes(rows, nCol, j), Prefixes(rows, nCol, k);
    forall x | x in a
      ensures x in set y | y in b && |y| >= j :: y[..j]
    {
      var i :| 0 <= i < |rows| && rows[i][..j] == x;
      assert rows[i][..k] in b && rows[i][..k][..j] == x;
    }
    Image(b, a, j);
  }

  /** Shortening the elements of a set cannot make it larger. */
  lemma {:induction false} Image(b: set<Entry>, a: set<Entry>, j: nat)
    requires forall x :: x in a ==> x in set y | y in b && |y| >= j :: y[..j]
    ensures |a| <= |b|
    decreases |b|
  {
    if |b| > 0 && |a| > 0 {
      var x := Pick(a);
      var y :| y in b && |y| >= j && y[..j] == x;
      forall z | z in a - {x}
        ensures z in set w | w in b - {y} && |w| >= j :: w[..j]
      {
        var w :| w in b && |w| >= j && w[..j] == z;
      }
      Image(b - {y}, a - {x}, j);
    } else if |a| > 0 {
      var x := Pick(a);
    }
  }

  /** The estimates stored for a non-empty index are at least one and do not grow from
      one column to the next. */
  lemma Estimates(rows: seq<Entry>, nCol: nat, count: seq<nat>, j: nat, k: nat)
    requires Sorted(rows, nCol) && |rows| > 0 && Counted(rows, nCol, |rows|, count) && j <= k < nCol
    ensures 0 < count[j] <= count[k] && 1 <= Estimate(|rows|, count[k]) <= Estimate(|rows|, count[j])
  {
    assert rows[..|rows|] == rows;
    assert rows[0][..j + 1] in Prefixes(rows, nCol, j + 1);
    PrefixesGrow(rows, nCol, j + 1, k + 1);
    EstimateOrder(|rows|, count[j], count[k]);
  }
}
