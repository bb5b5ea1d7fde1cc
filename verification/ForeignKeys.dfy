/** The foreign-key counters: the run-time steps that sqlite3FkCheck generates around
    every row insert and delete, and what the two counters mean. */
module ForeignKeys {
  import opened Basics
  import opened Collections
  import opened ExprTree

  type Row = seq<Value>
  type Table = map<int, Row>       // by rowid
  type Db = map<int, Table>        // by table number

  /** Column -1 is the rowid. The parent columns carry a unique index. */
  datatype FKey = FKey(child: int, parent: int, childCols: seq<int>, parentCols: seq<int>, isDeferred: bool)

  function Rows(db: Db, t: int): Table {
    if t in db then db[t] else map[]
  }

  function Field(rowid: int, row: Row, i: int): Value {
    if i < 0 then Int(rowid) else if i < |row| then row[i] else Null
  }

  function Key(rowid: int, row: Row, cols: seq<int>): (k: seq<Value>)
    ensures |k| == |cols|
  {
    seq(|cols|, i requires 0 <= i < |cols| => Field(rowid, row, cols[i]))
  }

  predicate NullFree(key: seq<Value>) {
    forall i :: 0 <= i < |key| ==> key[i] != Null
  }

  function ChildKey(k: FKey, rowid: int, row: Row): seq<Value> {
    Key(rowid, row, k.childCols)
  }

  function ParentKey(k: FKey, rowid: int, row: Row): seq<Value> {
    Key(rowid, row, k.parentCols)
  }

  predicate HasParent(k: FKey, db: Db, key: seq<Value>) {
    exists p | p in Rows(db, k.parent) :: ParentKey(k, p, Rows(db, k.parent)[p]) == key
  }

  /** A child row with an all-non-NULL key and no matching parent. */
  predicate Violates(k: FKey, db: Db, rowid: int, row: Row) {
    NullFree(ChildKey(k, rowid, row)) && !HasParent(k, db, ChildKey(k, rowid, row))
  }

  ghost predicate IsBad(k: FKey, db: Db, r: int) {
    r in Rows(db, k.child) && Violates(k, db, r, Rows(db, k.child)[r])
  }

  /** All violations of the immediate or of the deferred constraints. */
  ghost function Bad(fks: seq<FKey>, db: Db, deferred: bool): set<(int, int)> {
    set f: int, r: int | 0 <= f < |fks| && r in Rows(db, fks[f].child) && fks[f].isDeferred == deferred
                         && IsBad(fks[f], db, r) :: (f, r)
  }

  /** The unique index on the parent columns. */
  ghost predicate UniqueKey(k: FKey, db: Db) {
    forall p, q :: p in Rows(db, k.parent) && q in Rows(db, k.parent) && p != q ==>
      var a, b := ParentKey(k, p, Rows(db, k.parent)[p]), ParentKey(k, q, Rows(db, k.parent)[q]);
      NullFree(a) ==> a != b
  }

  ghost predicate Unique(fks: seq<FKey>, db: Db) {
    forall f :: 0 <= f < |fks| ==> UniqueKey(fks[f], db)
  }

  function Inserted(db: Db, t: int, rowid: int, row: Row): Db {
    db[t := Rows(db, t)[rowid := row]]
  }

  function Deleted(db: Db, t: int, rowid: int): Db {
    db[t := Rows(db, t) - {rowid}]
  }

  /** The row is new and the unique indexes accept it. */
  predicate Accepts(fks: seq<FKey>, db: Db, t: int, rowid: int, row: Row) {
    && rowid !in Rows(db, t)
    && forall f :: 0 <= f < |fks| && fks[f].parent == t && NullFree(ParentKey(fks[f], rowid, row)) ==>
         !HasParent(fks[f], db, ParentKey(fks[f], rowid, row))
  }

  lemma InsertUnique(fks: seq<FKey>, db: Db, t: int, rowid: int, row: Row)
    requires Unique(fks, db) && Accepts(fks, db, t, rowid, row)
    ensures Unique(fks, Inserted(db, t, rowid, row))
  {
    forall f | 0 <= f < |fks|
      ensures UniqueKey(fks[f], Inserted(db, t, rowid, row))
    {
      var k, old', new' := fks[f], Rows(db, fks[f].parent), Rows(Inserted(db, t, rowid, row), fks[f].parent);
      forall p, q | p in new' && q in new' && p != q && NullFree(ParentKey(k, p, new'[p]))
        ensures ParentKey(k, p, new'[p]) != ParentKey(k, q, new'[q])
      {
        assert UniqueKey(k, db);
        assert p in old' || q in old';
      }
    }
  }

  lemma DeleteUnique(fks: seq<FKey>, db: Db, t: int, rowid: int)
    requires Unique(fks, db)
    ensures Unique(fks, Deleted(db, t, rowid))
  {
    forall f | 0 <= f < |fks|
      ensures UniqueKey(fks[f], Deleted(db, t, rowid))
    {
      var k, old', new' := fks[f], Rows(db, fks[f].parent), Rows(Deleted(db, t, rowid), fks[f].parent);
      forall p, q | p in new' && q in new' && p != q && NullFree(ParentKey(k, p, new'[p]))
        ensures ParentKey(k, p, new'[p]) != ParentKey(k, q, new'[q])
      {
        assert UniqueKey(k, db) && p in old' && q in old';
      }
    }
  }

  lemma InsertParent(k: FKey, db: Db, t: int, rowid: int, row: Row, key: seq<Value>)
    requires rowid !in Rows(db, t)
    ensures HasParent(k, Inserted(db, t, rowid, row), key) <==>
            HasParent(k, db, key) || (k.parent == t && ParentKey(k, rowid, row) == key)
  {
    var db' := Inserted(db, t, rowid, row);
    if HasParent(k, db, key) {
      var p :| p in Rows(db, k.parent) && ParentKey(k, p, Rows(db, k.parent)[p]) == key;
      assert p in Rows(db', k.parent) && Rows(db', k.parent)[p] == Rows(db, k.parent)[p];
    }
    if HasParent(k, db', key) {
      var p :| p in Rows(db', k.parent) && ParentKey(k, p, Rows(db', k.parent)[p]) == key;
      assert !(k.parent == t && p == rowid) ==>
        p in Rows(db, k.parent) && Rows(db', k.parent)[p] == Rows(db, k.parent)[p];
    }
    if k.parent == t && ParentKey(k, rowid, row) == key {
      assert rowid in Rows(db', k.parent) && Rows(db', k.parent)[rowid] == row;
    }
  }

  lemma DeleteParent(k: FKey, db: Db, t: int, rowid: int, key: seq<Value>)
    requires UniqueKey(k, db) && rowid in Rows(db, t) && NullFree(key)
    ensures HasParent(k, Deleted(db, t, rowid), key) <==>
            HasParent(k, db, key) && !(k.parent == t && ParentKey(k, rowid, Rows(db, t)[rowid]) == key)
  {
    var db' := Deleted(db, t, rowid);
    if HasParent(k, db', key) {
      var p :| p in Rows(db', k.parent) && ParentKey(k, p, Rows(db', k.parent)[p]) == key;
      assert p in Rows(db, k.parent) && Rows(db', k.parent)[p] == Rows(db, k.parent)[p];
    }
    if HasParent(k, db, key) && !(k.parent == t && ParentKey(k, rowid, Rows(db, t)[rowid]) == key) {
      var p :| p in Rows(db, k.parent) && ParentKey(k, p, Rows(db, k.parent)[p]) == key;
      assert p in Rows(db', k.parent) && Rows(db', k.parent)[p] == Rows(db, k.parent)[p];
    }
  }

  // ----- what each step counts -----

  /** I.1: the new row has no parent, not even itself. */
  predicate Arrives(k: FKey, db: Db, t: int, rowid: int, row: Row) {
    && k.child == t && Violates(k, db, rowid, row)
    && !(k.parent == t && ParentKey(k, rowid, row) == ChildKey(k, rowid, row))
  }

  /** D.1: the row goes away and takes its own violations with it. */
  predicate Departs(k: FKey, db: Db, t: int, rowid: int, row: Row) {
    k.child == t && Violates(k, db, rowid, row)
  }

  /** I.2 and D.2: a child row whose key is the parent key of the row at hand. */
  predicate Refers(k: FKey, db: Db, r: int, t: int, rowid: int, row: Row) {
    && k.parent == t && r in Rows(db, k.child)
    && NullFree(ParentKey(k, rowid, row)) && ChildKey(k, r, Rows(db, k.child)[r]) == ParentKey(k, rowid, row)
  }

  /** The rows that one scan of the child table finds. */
  ghost function Matches(k: FKey, db: Db, t: int, rowid: int, row: Row, others: bool): set<int> {
    set r | r in Rows(db, k.child) && Refers(k, db, r, t, rowid, row) && !(others && k.child == t && r == rowid)
  }

  ghost function Pairs(f: int, rows: set<int>): set<(int, int)> {
    set r | r in rows :: (f, r)
  }

  lemma {:induction false} PairsSize(f: int, rows: set<int>)
    ensures |Pairs(f, rows)| == |rows|
    decreases |rows|
  {
    if rows != {} {
      var r := Pick(rows);
      PairsSize(f, rows - {r});
      assert Pairs(f, rows) == Pairs(f, rows - {r}) + {(f, r)};
    }
  }

  datatype Event = Arrival | Rescue | Departure | Orphan

  /** The violations of constraint number `f` that come or go. */
  ghost function Part(ev: Event, k: FKey, f: int, db: Db, t: int, rowid: int, row: Row): set<(int, int)> {
    match ev
    case Arrival => if Arrives(k, db, t, rowid, row) then {(f, rowid)} else {}
    case Rescue => Pairs(f, Matches(k, db, t, rowid, row, false))
    case Departure => if Departs(k, db, t, rowid, row) then {(f, rowid)} else {}
    case Orphan => Pairs(f, Matches(k, db, t, rowid, row, true))
  }

  /** Those of the first `n` constraints. */
  ghost function Total(ev: Event, fks: seq<FKey>, n: nat, db: Db, t: int, rowid: int, row: Row,
      deferred: bool): set<(int, int)>
    requires n <= |fks|
  {
    if n == 0 then {}
    else
      Total(ev, fks, n - 1, db, t, rowid, row, deferred)
      + if fks[n - 1].isDeferred == deferred then Part(ev, fks[n - 1], n - 1, db, t, rowid, row) else {}
  }

  lemma {:induction false} TotalMember(ev: Event, fks: seq<FKey>, n: nat, db: Db, t: int, rowid: int, row: Row,
      deferred: bool, x: (int, int))
    requires n <= |fks|
    ensures x in Total(ev, fks, n, db, t, rowid, row, deferred) <==>
            0 <= x.0 < n && fks[x.0].isDeferred == deferred && x in Part(ev, fks[x.0], x.0, db, t, rowid, row)
    decreases n
  {
    if n > 0 {
      TotalMember(ev, fks, n - 1, db, t, rowid, row, deferred, x);
    }
  }

  lemma TotalNext(ev: Event, fks: seq<FKey>, n: nat, db: Db, t: int, rowid: int, row: Row, deferred: bool)
    requires n < |fks|
    ensures |Total(ev, fks, n + 1, db, t, rowid, row, deferred)| == |Total(ev, fks, n, db, t, rowid, row, deferred)|
            + if fks[n].isDeferred == deferred then |Part(ev, fks[n], n, db, t, rowid, row)| else 0
  {
    var a, x := Total(ev, fks, n, db, t, rowid, row, deferred), Part(ev, fks[n], n, db, t, rowid, row);
    forall y | y in a
      ensures y !in x
    {
      TotalMember(ev, fks, n, db, t, rowid, row, deferred, y);
    }
  }

  lemma {:induction false} TotalWithin(ev: Event, fks: seq<FKey>, n: nat, db: Db, t: int, rowid: int, row: Row,
      deferred: bool)
    requires n <= |fks|
    ensures Total(ev, fks, n, db, t, rowid, row, deferred) <= All(ev, fks, db, t, rowid, row, deferred)
    decreases |fks| - n
  {
    if n < |fks| {
      TotalWithin(ev, fks, n + 1, db, t, rowid, row, deferred);
    }
  }

  ghost function All(ev: Event, fks: seq<FKey>, db: Db, t: int, rowid: int, row: Row,
      deferred: bool): set<(int, int)> {
    Total(ev, fks, |fks|, db, t, rowid, row, deferred)
  }

  lemma AllMembers(ev: Event, fks: seq<FKey>, db: Db, t: int, rowid: int, row: Row, deferred: bool)
    ensures forall x :: x in All(ev, fks, db, t, rowid, row, deferred) <==>
      0 <= x.0 < |fks| && fks[x.0].isDeferred == deferred && x in Part(ev, fks[x.0], x.0, db, t, rowid, row)
  {
    forall x: (int, int)
      ensures x in All(ev, fks, db, t, rowid, row, deferred) <==>
        0 <= x.0 < |fks| && fks[x.0].isDeferred == deferred && x in Part(ev, fks[x.0], x.0, db, t, rowid, row)
    {
      TotalMember(ev, fks, |fks|, db, t, rowid, row, deferred, x);
    }
  }

  /** What an insert does to the violations of one constraint. */
  lemma InsertPart(k: FKey, f: int, db: Db, t: int, rowid: int, row: Row, r: int)
    requires rowid !in Rows(db, t)
    requires k.parent == t && NullFree(ParentKey(k, rowid, row)) ==> !HasParent(k, db, ParentKey(k, rowid, row))
    ensures (f, r) in Part(Rescue, k, f, db, t, rowid, row) ==> IsBad(k, db, r)
    ensures (f, r) in Part(Arrival, k, f, db, t, rowid, row) ==> !IsBad(k, db, r)
    ensures IsBad(k, Inserted(db, t, rowid, row), r) <==>
      (IsBad(k, db, r) && (f, r) !in Part(Rescue, k, f, db, t, rowid, row)) ||
        (f, r) in Part(Arrival, k, f, db, t, rowid, row)
  {
    var db' := Inserted(db, t, rowid, row);
    if r in Rows(db', k.child) {
      InsertParent(k, db, t, rowid, row, ChildKey(k, r, Rows(db', k.child)[r]));
    }
  }

  lemma InsertBad(fks: seq<FKey>, db: Db, t: int, rowid: int, row: Row, deferred: bool)
    requires Accepts(fks, db, t, rowid, row)
    ensures var gone := All(Rescue, fks, db, t, rowid, row, deferred);
      var more := All(Arrival, fks, db, t, rowid, row, deferred);
      && gone <= Bad(fks, db, deferred) && more !! Bad(fks, db, deferred)
      && Bad(fks, Inserted(db, t, rowid, row), deferred) == Bad(fks, db, deferred) - gone + more
  {
    AllMembers(Rescue, fks, db, t, rowid, row, deferred);
    AllMembers(Arrival, fks, db, t, rowid, row, deferred);
    forall x: (int, int) | 0 <= x.0 < |fks|
      ensures x in Part(Rescue, fks[x.0], x.0, db, t, rowid, row) ==> IsBad(fks[x.0], db, x.1)
      ensures x in Part(Arrival, fks[x.0], x.0, db, t, rowid, row) ==> !IsBad(fks[x.0], db, x.1)
      ensures IsBad(fks[x.0], Inserted(db, t, rowid, row), x.1) <==>
        (IsBad(fks[x.0], db, x.1) && x !in Part(Rescue, fks[x.0], x.0, db, t, rowid, row)) ||
          x in Part(Arrival, fks[x.0], x.0, db, t, rowid, row)
    {
      InsertPart(fks[x.0], x.0, db, t, rowid, row, x.1);
    }
  }

  /** What a delete does to the violations of one constraint. */
  lemma DeletePart(k: FKey, f: int, db: Db, t: int, rowid: int, r: int)
    requires UniqueKey(k, db) && rowid in Rows(db, t)
    ensures var row := Rows(db, t)[rowid];
      && ((f, r) in Part(Departure, k, f, db, t, rowid, row) ==> IsBad(k, db, r))
      && ((f, r) in Part(Orphan, k, f, db, t, rowid, row) ==> !IsBad(k, db, r))
      && (IsBad(k, Deleted(db, t, rowid), r) <==>
           (IsBad(k, db, r) && (f, r) !in Part(Departure, k, f, db, t, rowid, row)) ||
             (f, r) in Part(Orphan, k, f, db, t, rowid, row))
  {
    if r in Rows(db, k.child) {
      var key := ChildKey(k, r, Rows(db, k.child)[r]);
      if NullFree(key) {
        DeleteParent(k, db, t, rowid, key);
      }
    }
  }

  lemma DeleteBad(fks: seq<FKey>, db: Db, t: int, rowid: int, deferred: bool)
    requires Unique(fks, db) && rowid in Rows(db, t)
    ensures var row := Rows(db, t)[rowid];
      var gone, more := All(Departure, fks, db, t, rowid, row, deferred), All(Orphan, fks, db, t, rowid, row, deferred);
      && gone <= Bad(fks, db, deferred) && more !! Bad(fks, db, deferred)
      && Bad(fks, Deleted(db, t, rowid), deferred) == Bad(fks, db, deferred) - gone + more
  {
    var row := Rows(db, t)[rowid];
    AllMembers(Departure, fks, db, t, rowid, row, deferred);
    AllMembers(Orphan, fks, db, t, rowid, row, deferred);
    forall x: (int, int) | 0 <= x.0 < |fks|
      ensures x in Part(Departure, fks[x.0], x.0, db, t, rowid, row) ==> IsBad(fks[x.0], db, x.1)
      ensures x in Part(Orphan, fks[x.0], x.0, db, t, rowid, row) ==> !IsBad(fks[x.0], db, x.1)
      ensures IsBad(fks[x.0], Deleted(db, t, rowid), x.1) <==>
        (IsBad(fks[x.0], db, x.1) && x !in Part(Departure, fks[x.0], x.0, db, t, rowid, row)) ||
          x in Part(Orphan, fks[x.0], x.0, db, t, rowid, row)
    {
      DeletePart(fks[x.0], x.0, db, t, rowid, x.1);
    }
  }

  lemma Smaller<T>(a: set<T>, b: set<T>)
    requires a <= b
    ensures |a| <= |b|
  {
    assert b == a + (b - a);
  }

  lemma OneLess(hits: set<int>, todo: set<int>, r: int)
    requires r in todo
    ensures |hits - (todo - {r})| == |hits - todo| + if r in hits then 1 else 0
  {
    if r in hits {
      assert hits - (todo - {r}) == hits - todo + {r};
    } else {
      assert hits - (todo - {r}) == hits - todo;
    }
  }

  /** The first immediate constraint that the new row violates. */
  function HaltAt(fks: seq<FKey>, n: nat, db: Db, t: int, rowid: int, row: Row): (h: nat)
    requires n <= |fks|
    ensures n <= h <= |fks|
    decreases |fks| - n
  {
    if n == |fks| || (!fks[n].isDeferred && Arrives(fks[n], db, t, rowid, row)) then n
    else HaltAt(fks, n + 1, db, t, rowid, row)
  }

  lemma ArrivalNext(fks: seq<FKey>, n: nat, db: Db, t: int, rowid: int, row: Row)
    requires n < |fks|
    ensures var d := fks[n].isDeferred;
      && |Total(Arrival, fks, n + 1, db, t, rowid, row, d)| ==
         |Total(Arrival, fks, n, db, t, rowid, row, d)| + (if Arrives(fks[n], db, t, rowid, row) then 1 else 0)
      && Total(Arrival, fks, n + 1, db, t, rowid, row, !d) == Total(Arrival, fks, n, db, t, rowid, row, !d)
  {
    TotalNext(Arrival, fks, n, db, t, rowid, row, fks[n].isDeferred);
  }

  /** What a halted single-row insert has already added to the deferred counter. */
  ghost function Leak(fks: seq<FKey>, db: Db, t: int, rowid: int, row: Row): nat {
    |Total(Arrival, fks, HaltAt(fks, 0, db, t, rowid, row), db, t, rowid, row, true)|
  }

  /** The counter cannot be zero while there is a violation left to resolve. */
  lemma RescueNext(fks: seq<FKey>, n: nat, db: Db, t: int, rowid: int, row: Row, d: bool)
    requires n < |fks| && Accepts(fks, db, t, rowid, row)
    ensures |Total(Rescue, fks, n + 1, db, t, rowid, row, d)| == |Total(Rescue, fks, n, db, t, rowid, row, d)|
            + (if fks[n].isDeferred == d then |Matches(fks[n], db, t, rowid, row, false)| else 0)
    ensures |Total(Rescue, fks, n + 1, db, t, rowid, row, d)| <= |Bad(fks, db, d)|
  {
    PairsSize(n, Matches(fks[n], db, t, rowid, row, false));
    TotalNext(Rescue, fks, n, db, t, rowid, row, d);
    TotalWithin(Rescue, fks, n + 1, db, t, rowid, row, d);
    InsertBad(fks, db, t, rowid, row, d);
    Smaller(Total(Rescue, fks, n + 1, db, t, rowid, row, d), Bad(fks, db, d));
  }

  lemma InsertSizes(fks: seq<FKey>, db: Db, t: int, rowid: int, row: Row, d: bool)
    requires Accepts(fks, db, t, rowid, row)
    ensures |Bad(fks, Inserted(db, t, rowid, row), d)| ==
      |Bad(fks, db, d)| + |All(Arrival, fks, db, t, rowid, row, d)| - |All(Rescue, fks, db, t, rowid, row, d)|
  {
    InsertBad(fks, db, t, rowid, row, d);
    Exchange(Bad(fks, db, d), All(Rescue, fks, db, t, rowid, row, d), All(Arrival, fks, db, t, rowid, row, d));
  }

  lemma InsertBoth(fks: seq<FKey>, db: Db, t: int, rowid: int, row: Row)
    requires Accepts(fks, db, t, rowid, row)
    ensures forall d ::
      |Bad(fks, Inserted(db, t, rowid, row), d)| ==
      |Bad(fks, db, d)| + |All(Arrival, fks, db, t, rowid, row, d)| - |All(Rescue, fks, db, t, rowid, row, d)|
  {
    InsertSizes(fks, db, t, rowid, row, true);
    InsertSizes(fks, db, t, rowid, row, false);
  }

  lemma DepartureNext(fks: seq<FKey>, n: nat, db: Db, t: int, rowid: int, row: Row, d: bool)
    requires n < |fks| && Unique(fks, db) && rowid in Rows(db, t) && row == Rows(db, t)[rowid]
    ensures |Total(Departure, fks, n + 1, db, t, rowid, row, d)| == |Total(Departure, fks, n, db, t, rowid, row, d)|
            + (if fks[n].isDeferred == d then |Part(Departure, fks[n], n, db, t, rowid, row)| else 0)
    ensures |Total(Departure, fks, n + 1, db, t, rowid, row, d)| <= |Bad(fks, db, d)|
  {
    TotalNext(Departure, fks, n, db, t, rowid, row, d);
    TotalWithin(Departure, fks, n + 1, db, t, rowid, row, d);
    DeleteBad(fks, db, t, rowid, d);
    Smaller(Total(Departure, fks, n + 1, db, t, rowid, row, d), Bad(fks, db, d));
  }

  lemma OrphanNext(fks: seq<FKey>, n: nat, db: Db, t: int, rowid: int, row: Row, d: bool)
    requires n < |fks|
    ensures |Total(Orphan, fks, n + 1, db, t, rowid, row, d)| == |Total(Orphan, fks, n, db, t, rowid, row, d)|
            + (if fks[n].isDeferred == d then |Matches(fks[n], db, t, rowid, row, true)| else 0)
  {
    PairsSize(n, Matches(fks[n], db, t, rowid, row, true));
    TotalNext(Orphan, fks, n, db, t, rowid, row, d);
  }

  lemma PartSize(k: FKey, f: int, db: Db, t: int, rowid: int, row: Row)
    ensures |Part(Departure, k, f, db, t, rowid, row)| == if Departs(k, db, t, rowid, row) then 1 else 0
  {
  }

  lemma DeleteSizes(fks: seq<FKey>, db: Db, t: int, rowid: int, d: bool)
    requires Unique(fks, db) && rowid in Rows(db, t)
    ensures var row := Rows(db, t)[rowid];
      |Bad(fks, Deleted(db, t, rowid), d)| ==
        |Bad(fks, db, d)| + |All(Orphan, fks, db, t, rowid, row, d)| - |All(Departure, fks, db, t, rowid, row, d)|
  {
    var row := Rows(db, t)[rowid];
    DeleteBad(fks, db, t, rowid, d);
    Exchange(Bad(fks, db, d), All(Departure, fks, db, t, rowid, row, d), All(Orphan, fks, db, t, rowid, row, d));
  }

  lemma Exchange<T>(s: set<T>, gone: set<T>, more: set<T>)
    requires gone <= s && more !! s
    ensures |s - gone + more| == |s| + |more| - |gone|
  {
    assert s == (s - gone) + gone;
  }

  // ----- updates that leave the keys alone -----

  /** The columns that an UPDATE assigns to, with their values, and the rowid if it assigns to that. */
  datatype Changes = Changes(rowid: Option<int>, cols: set<int>, row: Row)

  predicate Assigns(ch: Changes, col: int) {
    if col < 0 then ch.rowid.Some? else col in ch.cols
  }

  function NewRowid(rowid: int, ch: Changes): int {
    if ch.rowid.Some? then ch.rowid.value else rowid
  }

  function NewRow(row: Row, ch: Changes): (r: Row)
    ensures |r| == |row|
  {
    seq(|row|, i requires 0 <= i < |row| => if i in ch.cols then Field(0, ch.row, i) else row[i])
  }

  function Updated(db: Db, t: int, rowid: int, ch: Changes): Db
    requires rowid in Rows(db, t)
  {
    Inserted(Deleted(db, t, rowid), t, NewRowid(rowid, ch), NewRow(Rows(db, t)[rowid], ch))
  }

  predicate AssignsAny(ch: Changes, cols: seq<int>) {
    exists i :: 0 <= i < |cols| && Assigns(ch, cols[i])
  }

  /** sqlite3FkRequired: some key column of the table is assigned to. */
  predicate Required(fks: seq<FKey>, t: int, ch: Changes) {
    exists f :: 0 <= f < |fks| && ((fks[f].child == t && AssignsAny(ch, fks[f].childCols))
                                   || (fks[f].parent == t && AssignsAny(ch, fks[f].parentCols)))
  }

  lemma KeyKept(rowid: int, row: Row, ch: Changes, cols: seq<int>)
    requires !AssignsAny(ch, cols)
    ensures Key(NewRowid(rowid, ch), NewRow(row, ch), cols) == Key(rowid, row, cols)
  {
    forall i | 0 <= i < |cols|
      ensures Field(NewRowid(rowid, ch), NewRow(row, ch), cols[i]) == Field(rowid, row, cols[i])
    {
      assert !Assigns(ch, cols[i]);
    }
  }

  /** The place of a row after the update. */
  function Moved(k: int, t: int, rowid: int, ch: Changes, r: int): int {
    if k == t && r == rowid then NewRowid(rowid, ch) else r
  }

  lemma RowsUpdated(db: Db, u: int, t: int, rowid: int, ch: Changes)
    requires rowid in Rows(db, t) && NewRowid(rowid, ch) !in Rows(Deleted(db, t, rowid), t)
    ensures var old', new' := Rows(db, u), Rows(Updated(db, t, rowid, ch), u);
      && (forall r :: r in old' ==>
            && Moved(u, t, rowid, ch, r) in new'
            && new'[Moved(u, t, rowid, ch, r)] == if u == t && r == rowid then NewRow(old'[r], ch) else old'[r])
      && (forall q :: q in new' ==> exists r :: r in old' && q == Moved(u, t, rowid, ch, r))
  {
    var old', new' := Rows(db, u), Rows(Updated(db, t, rowid, ch), u);
    forall q | q in new'
      ensures exists r :: r in old' && q == Moved(u, t, rowid, ch, r)
    {
      var r := if u == t && q == NewRowid(rowid, ch) then rowid else q;
      assert r in old' && q == Moved(u, t, rowid, ch, r);
    }
  }

  lemma ParentsKept(k: FKey, db: Db, t: int, rowid: int, ch: Changes, key: seq<Value>)
    requires rowid in Rows(db, t) && NewRowid(rowid, ch) !in Rows(Deleted(db, t, rowid), t)
    requires k.parent == t ==> !AssignsAny(ch, k.parentCols)
    ensures HasParent(k, Updated(db, t, rowid, ch), key) <==> HasParent(k, db, key)
  {
    var db' := Updated(db, t, rowid, ch);
    RowsUpdated(db, k.parent, t, rowid, ch);
    if k.parent == t {
      KeyKept(rowid, Rows(db, t)[rowid], ch, k.parentCols);
    }
    if HasParent(k, db, key) {
      var p :| p in Rows(db, k.parent) && ParentKey(k, p, Rows(db, k.parent)[p]) == key;
      var q := Moved(k.parent, t, rowid, ch, p);
      assert q in Rows(db', k.parent) && ParentKey(k, q, Rows(db', k.parent)[q]) == key;
    }
    if HasParent(k, db', key) {
      var q :| q in Rows(db', k.parent) && ParentKey(k, q, Rows(db', k.parent)[q]) == key;
      var p :| p in Rows(db, k.parent) && q == Moved(k.parent, t, rowid, ch, p);
      assert ParentKey(k, p, Rows(db, k.parent)[p]) == key;
    }
  }

  lemma BadKept(k: FKey, db: Db, t: int, rowid: int, ch: Changes, r: int)
    requires rowid in Rows(db, t) && NewRowid(rowid, ch) !in Rows(Deleted(db, t, rowid), t) && r in Rows(db, k.child)
    requires k.parent == t ==> !AssignsAny(ch, k.parentCols)
    requires k.child == t ==> !AssignsAny(ch, k.childCols)
    ensures IsBad(k, Updated(db, t, rowid, ch), Moved(k.child, t, rowid, ch, r)) <==> IsBad(k, db, r)
  {
    RowsUpdated(db, k.child, t, rowid, ch);
    if k.child == t {
      KeyKept(rowid, Rows(db, t)[rowid], ch, k.childCols);
    }
    ParentsKept(k, db, t, rowid, ch, ChildKey(k, r, Rows(db, k.child)[r]));
  }

  /** The same for the violations of all constraints. */
  function MovedPair(fks: seq<FKey>, t: int, rowid: int, ch: Changes, x: (int, int)): (int, int) {
    (x.0, if 0 <= x.0 < |fks| then Moved(fks[x.0].child, t, rowid, ch, x.1) else x.1)
  }

  lemma BadMoved(fks: seq<FKey>, db: Db, t: int, rowid: int, ch: Changes, deferred: bool, f: int, r: int)
    requires rowid in Rows(db, t) && NewRowid(rowid, ch) !in Rows(Deleted(db, t, rowid), t) && !Required(fks, t, ch)
    requires 0 <= f < |fks| && r in Rows(db, fks[f].child)
    ensures (f, r) in Bad(fks, db, deferred) <==>
      MovedPair(fks, t, rowid, ch, (f, r)) in Bad(fks, Updated(db, t, rowid, ch), deferred)
  {
    var k := fks[f];
    assert !(k.child == t && AssignsAny(ch, k.childCols)) && !(k.parent == t && AssignsAny(ch, k.parentCols));
    RowsUpdated(db, k.child, t, rowid, ch);
    BadKept(k, db, t, rowid, ch, r);
  }

  /** An update that assigns to no key column keeps the number of violations, even if it moves the row. */
  lemma UpdateSizes(fks: seq<FKey>, db: Db, t: int, rowid: int, ch: Changes, deferred: bool)
    requires rowid in Rows(db, t) && NewRowid(rowid, ch) !in Rows(Deleted(db, t, rowid), t) && !Required(fks, t, ch)
    ensures |Bad(fks, Updated(db, t, rowid, ch), deferred)| == |Bad(fks, db, deferred)|
  {
    var bad, bad' := Bad(fks, db, deferred), Bad(fks, Updated(db, t, rowid, ch), deferred);
    var move := x => MovedPair(fks, t, rowid, ch, x);
    forall x | x in bad
      ensures move(x) in bad'
    {
      BadMoved(fks, db, t, rowid, ch, deferred, x.0, x.1);
    }
    forall y | y in bad'
      ensures exists x :: x in bad && move(x) == y
    {
      RowsUpdated(db, fks[y.0].child, t, rowid, ch);
      var r :| r in Rows(db, fks[y.0].child) && y.1 == Moved(fks[y.0].child, t, rowid, ch, r);
      BadMoved(fks, db, t, rowid, ch, deferred, y.0, r);
      assert (y.0, r) in bad && move((y.0, r)) == y;
    }
    SameSize(bad, bad', move);
  }

  function Times(nIncr: int, n: nat): int {
    if nIncr > 0 then n else 0 - n
  }

  /** A connection: its tables, as they are and as they were last committed, and its two counters.
      `slack` is what halted inserts of the open transaction have left behind in the deferred counter. */
  class Session {
    const fks: seq<FKey>
    var db: Db
    var saved: Db
    var autoCommit: bool
    var nDeferredCons: int
    var nFkConstraint: int
    ghost var slack: nat

    /** The counters are the numbers of violations, but for what halted inserts have left behind. */
    ghost predicate Exact()
      reads this
    {
      Unique(fks, db) && forall d :: Count(d) == |Bad(fks, db, d)| + Extra(d)
    }

    function Count(deferred: bool): int
      reads this
    {
      if deferred then nDeferredCons else nFkConstraint
    }

    ghost function Extra(deferred: bool): nat
      reads this
    {
      if deferred then slack else 0
    }

    /** OP_FkCounter */
    method Bump(deferred: bool, n: int)
      modifies this`nDeferredCons, this`nFkConstraint
      ensures Count(deferred) == old(Count(deferred)) + n && Count(!deferred) == old(Count(!deferred))
    {
      if deferred {
        nDeferredCons := nDeferredCons + n;
      } else {
        nFkConstraint := nFkConstraint + n;
      }
    }

    /** fkLookupParent: steps I.1 (`nIncr` is 1) and D.1 (-1). A statement that inserts a
        single row halts instead of counting an immediate violation. */
    method LookupParent(f: int, rowid: int, row: Row, nIncr: int, single: bool) returns (halt: bool)
      requires 0 <= f < |fks| && (nIncr == 1 || nIncr == -1)
      modifies this`nDeferredCons, this`nFkConstraint
      ensures Count(!fks[f].isDeferred) == old(Count(!fks[f].isDeferred))
      ensures var k := fks[f];
        var self := nIncr == 1 && k.child == k.parent && ParentKey(k, rowid, row) == ChildKey(k, rowid, row);
        var hit := Violates(k, db, rowid, row) && !self && !(nIncr < 0 && old(Count(k.isDeferred)) == 0);
        && halt == (hit && !k.isDeferred && single)
        && Count(k.isDeferred) == old(Count(k.isDeferred)) + if hit && !halt then nIncr else 0
    {
      var k := fks[f];
      var key := ChildKey(k, rowid, row);
      halt := false;
      if (nIncr < 0 && Count(k.isDeferred) == 0) || !NullFree(key) {
        return;
      }
      if k.parent == k.child && nIncr == 1 && ParentKey(k, rowid, row) == key {
        return;
      }
      if HasParent(k, db, key) {
        return;
      }
      if !k.isDeferred && single {
        halt := true;
      } else {
        Bump(k.isDeferred, nIncr);
      }
    }

    /** fkScanChildren: steps I.2 (`nIncr` is -1) and D.2 (1). */
    method ScanChildren(f: int, rowid: int, row: Row, nIncr: int)
      requires 0 <= f < |fks| && (nIncr == 1 || nIncr == -1)
      modifies this`nDeferredCons, this`nFkConstraint
      ensures Count(!fks[f].isDeferred) == old(Count(!fks[f].isDeferred))
      ensures var k := fks[f];
        Count(k.isDeferred) == old(Count(k.isDeferred)) +
          if nIncr < 0 && old(Count(k.isDeferred)) == 0 then 0
          else Times(nIncr, |Matches(k, db, k.parent, rowid, row, nIncr > 0)|)
    {
      if nIncr < 0 && Count(fks[f].isDeferred) == 0 {
        return;
      }
      VisitChildren(fks[f], rowid, row, nIncr);
    }

    /** The scan itself. */
    method VisitChildren(k: FKey, rowid: int, row: Row, nIncr: int)
      requires nIncr == 1 || nIncr == -1
      modifies this`nDeferredCons, this`nFkConstraint
      ensures Count(!k.isDeferred) == old(Count(!k.isDeferred))
      ensures Count(k.isDeferred) == old(Count(k.isDeferred))
        + Times(nIncr, |Matches(k, db, k.parent, rowid, row, nIncr > 0)|)
    {
      ghost var hits := Matches(k, db, k.parent, rowid, row, nIncr > 0);
      var key := ParentKey(k, rowid, row);
      var todo := Rows(db, k.child).Keys;
      while todo != {}
        invariant todo <= Rows(db, k.child).Keys && Count(!k.isDeferred) == old(Count(!k.isDeferred))
        invariant Count(k.isDeferred) == old(Count(k.isDeferred)) + Times(nIncr, |hits - todo|)
        decreases |todo|
      {
        ghost var some := Pick(todo);
        var r: int :| r in todo;
        OneLess(hits, todo, r);
        VisitChild(k, key, r, rowid, row, nIncr);
        todo := todo - {r};
      }
      assert hits - todo == hits;
    }

    /** The body of the scan: one child row against the WHERE clause. */
    method VisitChild(k: FKey, key: seq<Value>, r: int, rowid: int, row: Row, nIncr: int)
      requires r in Rows(db, k.child) && key == ParentKey(k, rowid, row)
      modifies this`nDeferredCons, this`nFkConstraint
      ensures Count(!k.isDeferred) == old(Count(!k.isDeferred))
      ensures Count(k.isDeferred) == old(Count(k.isDeferred)) +
        if r in Matches(k, db, k.parent, rowid, row, nIncr > 0) then nIncr else 0
    {
      if NullFree(key) && ChildKey(k, r, Rows(db, k.child)[r]) == key {
        if !(k.parent == k.child && nIncr > 0 && r == rowid) {
          Bump(k.isDeferred, nIncr);
        }
      }
    }

    /** sqlite3FkCheck before a row is inserted. */
    method CheckInsert(t: int, rowid: int, row: Row, single: bool) returns (halt: bool)
      requires Exact() && Accepts(fks, db, t, rowid, row) && (single ==> nFkConstraint == 0)
      modifies this`nDeferredCons, this`nFkConstraint
      ensures halt == (single && HaltAt(fks, 0, db, t, rowid, row) < |fks|)
      ensures !halt ==> forall d :: Count(d) == |Bad(fks, Inserted(db, t, rowid, row), d)| + Extra(d)
      ensures halt ==> nFkConstraint == 0 && nDeferredCons == old(nDeferredCons) + Leak(fks, db, t, rowid, row)
    {
      halt := FindParents(t, rowid, row, single);
      if !halt {
        ResolveChildren(t, rowid, row, single);
        InsertBoth(fks, db, t, rowid, row);
      }
    }

    /** The first loop of sqlite3FkCheck for an insert: step I.1 of every constraint. */
    method FindParents(t: int, rowid: int, row: Row, single: bool) returns (halt: bool)
      requires single ==> nFkConstraint == 0
      modifies this`nDeferredCons, this`nFkConstraint
      ensures halt == (single && HaltAt(fks, 0, db, t, rowid, row) < |fks|)
      ensures !halt ==> forall d :: Count(d) == old(Count(d)) + |All(Arrival, fks, db, t, rowid, row, d)|
      ensures halt ==> nFkConstraint == 0 && nDeferredCons == old(nDeferredCons) + Leak(fks, db, t, rowid, row)
    {
      halt := false;
      for n := 0 to |fks|
        invariant (single ==> HaltAt(fks, 0, db, t, rowid, row) == HaltAt(fks, n, db, t, rowid, row))
        invariant Count(true) == old(Count(true)) + |Total(Arrival, fks, n, db, t, rowid, row, true)|
        invariant Count(false) == old(Count(false)) + |Total(Arrival, fks, n, db, t, rowid, row, false)|
        invariant single ==> nFkConstraint == 0
      {
        ArrivalNext(fks, n, db, t, rowid, row);
        halt := Arrive(n, t, rowid, row, single);
        if halt {
          return;
        }
      }
    }

    method Arrive(n: nat, t: int, rowid: int, row: Row, single: bool) returns (halt: bool)
      requires n < |fks|
      modifies this`nDeferredCons, this`nFkConstraint
      ensures halt == (single && !fks[n].isDeferred && Arrives(fks[n], db, t, rowid, row))
      ensures var d := fks[n].isDeferred;
        && Count(!d) == old(Count(!d))
        && Count(d) == old(Count(d)) + if Arrives(fks[n], db, t, rowid, row) && !halt then 1 else 0
    {
      halt := false;
      if fks[n].child == t {
        halt := LookupParent(n, rowid, row, 1, single);
      }
    }

    /** The second loop of sqlite3FkCheck for an insert: step I.2 of every constraint. */
    method ResolveChildren(t: int, rowid: int, row: Row, single: bool)
      requires Accepts(fks, db, t, rowid, row) && (single ==> Bad(fks, db, false) == {})
      requires forall d :: Count(d) >= |Bad(fks, db, d)|
      modifies this`nDeferredCons, this`nFkConstraint
      ensures forall d :: Count(d) == old(Count(d)) - |All(Rescue, fks, db, t, rowid, row, d)|
    {
      for n := 0 to |fks|
        invariant Count(true) == old(Count(true)) - |Total(Rescue, fks, n, db, t, rowid, row, true)|
        invariant Count(false) == old(Count(false)) - |Total(Rescue, fks, n, db, t, rowid, row, false)|
      {
        RescueNext(fks, n, db, t, rowid, row, true);
        RescueNext(fks, n, db, t, rowid, row, false);
        if fks[n].parent == t && (fks[n].isDeferred || !single) {
          ScanChildren(n, rowid, row, -1);
        }
      }
    }

    /** sqlite3FkCheck before a row is deleted. */
    method CheckDelete(t: int, rowid: int)
      requires Exact() && rowid in Rows(db, t)
      modifies this`nDeferredCons, this`nFkConstraint
      ensures forall d :: Count(d) == |Bad(fks, Deleted(db, t, rowid), d)| + Extra(d)
    {
      var row := Rows(db, t)[rowid];
      DropViolations(t, rowid, row);
      OrphanChildren(t, rowid, row);
      DeleteSizes(fks, db, t, rowid, true);
      DeleteSizes(fks, db, t, rowid, false);
    }

    /** The first loop of sqlite3FkCheck for a delete: step D.1 of every constraint. */
    method DropViolations(t: int, rowid: int, row: Row)
      requires Exact() && rowid in Rows(db, t) && row == Rows(db, t)[rowid]
      modifies this`nDeferredCons, this`nFkConstraint
      ensures forall d :: Count(d) == old(Count(d)) - |All(Departure, fks, db, t, rowid, row, d)|
    {
      for n := 0 to |fks|
        invariant Count(true) == old(Count(true)) - |Total(Departure, fks, n, db, t, rowid, row, true)|
        invariant Count(false) == old(Count(false)) - |Total(Departure, fks, n, db, t, rowid, row, false)|
      {
        DepartureNext(fks, n, db, t, rowid, row, true);
        DepartureNext(fks, n, db, t, rowid, row, false);
        Depart(n, t, rowid, row);
      }
    }

    method Depart(n: nat, t: int, rowid: int, row: Row)
      requires n < |fks|
      modifies this`nDeferredCons, this`nFkConstraint
      ensures var d := fks[n].isDeferred;
        && Count(!d) == old(Count(!d))
        && Count(d) == old(Count(d)) - if old(Count(d)) == 0 then 0 else |Part(Departure, fks[n], n, db, t, rowid, row)|
    {
      PartSize(fks[n], n, db, t, rowid, row);
      if fks[n].child == t {
        var halt := LookupParent(n, rowid, row, -1, false);
      }
    }

    /** The second loop of sqlite3FkCheck for a delete: step D.2 of every constraint. */
    method OrphanChildren(t: int, rowid: int, row: Row)
      modifies this`nDeferredCons, this`nFkConstraint
      ensures forall d :: Count(d) == old(Count(d)) + |All(Orphan, fks, db, t, rowid, row, d)|
    {
      for n := 0 to |fks|
        invariant Count(true) == old(Count(true)) + |Total(Orphan, fks, n, db, t, rowid, row, true)|
        invariant Count(false) == old(Count(false)) + |Total(Orphan, fks, n, db, t, rowid, row, false)|
      {
        OrphanNext(fks, n, db, t, rowid, row, true);
        OrphanNext(fks, n, db, t, rowid, row, false);
        Orphaned(n, t, rowid, row);
      }
    }

    method Orphaned(n: nat, t: int, rowid: int, row: Row)
      requires n < |fks|
      modifies this`nDeferredCons, this`nFkConstraint
      ensures var d := fks[n].isDeferred;
        && Count(!d) == old(Count(!d))
        && Count(d) == old(Count(d)) + |Matches(fks[n], db, t, rowid, row, true)|
    {
      if fks[n].parent == t {
        ScanChildren(n, rowid, row, 1);
      } else {
        assert Matches(fks[n], db, t, rowid, row, true) == {};
      }
    }

    // ----- row operations -----

    method InsertRow(t: int, rowid: int, row: Row)
      requires Exact() && Accepts(fks, db, t, rowid, row)
      modifies this`db, this`nDeferredCons, this`nFkConstraint
      ensures Exact() && db == Inserted(old(db), t, rowid, row)
    {
      var halt := CheckInsert(t, rowid, row, false);
      InsertUnique(fks, db, t, rowid, row);
      db := Inserted(db, t, rowid, row);
    }

    method DeleteRow(t: int, rowid: int)
      requires Exact() && rowid in Rows(db, t)
      modifies this`db, this`nDeferredCons, this`nFkConstraint
      ensures Exact() && db == Deleted(old(db), t, rowid)
    {
      CheckDelete(t, rowid);
      DeleteUnique(fks, db, t, rowid);
      db := Deleted(db, t, rowid);
    }

    /** An update deletes the old row and inserts the new one, with a check before each
        if it assigns to a column of any key. */
    method UpdateRow(t: int, rowid: int, ch: Changes)
      requires Exact() && rowid in Rows(db, t)
      requires Accepts(fks, Deleted(db, t, rowid), t, NewRowid(rowid, ch), NewRow(Rows(db, t)[rowid], ch))
      modifies this`db, this`nDeferredCons, this`nFkConstraint
      ensures Exact() && db == Updated(old(db), t, rowid, ch)
    {
      var row := NewRow(Rows(db, t)[rowid], ch);
      if Required(fks, t, ch) {
        DeleteRow(t, rowid);
        InsertRow(t, NewRowid(rowid, ch), row);
      } else {
        DeleteUnique(fks, db, t, rowid);
        InsertUnique(fks, Deleted(db, t, rowid), t, NewRowid(rowid, ch), row);
        UpdateSizes(fks, db, t, rowid, ch, true);
        UpdateSizes(fks, db, t, rowid, ch, false);
        db := Updated(db, t, rowid, ch);
      }
    }

    // ----- statements -----

    constructor (fks: seq<FKey>)
      ensures this.fks == fks && db == saved == map[] && autoCommit && slack == 0 && Settled()
    {
      this.fks, db, saved, autoCommit, nDeferredCons, nFkConstraint, slack := fks, map[], map[], true, 0, 0, 0;
    }

    /** Between statements no immediate constraint is violated, and the deferred counter is right
        but for what halted inserts have left behind. */
    ghost predicate Settled()
      reads this
    {
      Unique(fks, db) && nDeferredCons == |Bad(fks, db, true)| + slack && Bad(fks, db, false) == {}
    }

    method RunOp(op: RowOp)
      requires Exact() && Allowed(fks, db, op)
      modifies this`db, this`nDeferredCons, this`nFkConstraint
      ensures Exact() && db == Apply(old(db), op)
    {
      match op {
        case InsertOp(t, rowid, row) => InsertRow(t, rowid, row);
        case DeleteOp(t, rowid) =>
          if rowid in Rows(db, t) {
            DeleteRow(t, rowid);
          }
        case UpdateOp(t, rowid, ch) =>
          if rowid in Rows(db, t) {
            UpdateRow(t, rowid, ch);
          }
      }
    }

    /** A statement that writes any number of rows. A uniqueness failure or an immediate
        violation that is left at the end rolls it back, with the deferred counter. */
    method ExecuteMulti(ops: seq<RowOp>) returns (ok: bool)
      requires Settled()
      modifies this`db, this`nDeferredCons, this`nFkConstraint
      ensures Settled() && db == Outcome(fks, old(db), Multi(ops)) && ok == Succeeds(fks, old(db), Multi(ops))
    {
      var db0, nStmtDefCons := db, nDeferredCons;
      nFkConstraint := 0;
      ok := true;
      for n := 0 to |ops|
        invariant Exact() && db == ApplyAll(db0, ops[..n]) && Runs(fks, db0, ops[..n])
      {
        assert ops[..n + 1][..n] == ops[..n];
        if !Allowed(fks, db, ops[n]) {
          RunsPrefix(fks, db0, ops, n + 1);
          db, nDeferredCons := db0, nStmtDefCons;
          return false;
        }
        RunOp(ops[n]);
      }
      assert ops[..|ops|] == ops;
      if nFkConstraint > 0 {
        db, nDeferredCons, ok := db0, nStmtDefCons, false;
      }
    }

    /** INSERT of a single row: no statement transaction is opened, so a halt undoes nothing. */
    method InsertSingle(t: int, rowid: int, row: Row) returns (ok: bool)
      requires Settled()
      modifies this`db, this`nDeferredCons, this`nFkConstraint, this`slack
      ensures Settled() && db == Outcome(fks, old(db), Single(t, rowid, row))
      ensures ok == Succeeds(fks, old(db), Single(t, rowid, row))
      ensures slack == old(slack) + Lost(fks, old(db), Single(t, rowid, row))
    {
      nFkConstraint := 0;
      if !Accepts(fks, db, t, rowid, row) {
        return false;
      }
      var halt := CheckInsert(t, rowid, row, true);
      HaltsIff(fks, db, t, rowid, row);
      ok := !halt;
      if ok {
        InsertUnique(fks, db, t, rowid, row);
        db := Inserted(db, t, rowid, row);
      } else {
        slack := slack + Leak(fks, db, t, rowid, row);
      }
    }

    method Execute(stmt: Stmt) returns (ok: bool)
      requires Settled()
      modifies this`db, this`nDeferredCons, this`nFkConstraint, this`slack
      ensures Settled() && db == Outcome(fks, old(db), stmt) && ok == Succeeds(fks, old(db), stmt)
      ensures slack == old(slack) + Lost(fks, old(db), stmt)
    {
      match stmt {
        case Multi(ops) => ok := ExecuteMulti(ops);
        case Single(t, rowid, row) => ok := InsertSingle(t, rowid, row);
      }
    }

    // ----- transactions -----

    /** sqlite3VdbeCheckFk for the deferred constraints, and the commit it lets through. */
    method Commit() returns (ok: bool)
      requires Settled()
      modifies this`saved, this`nDeferredCons
      ensures Settled() && (ok <==> Bad(fks, db, true) == {} && slack == 0)
      ensures saved == if ok then db else old(saved)
    {
      ok := !(nDeferredCons > 0);
      if ok {
        saved, nDeferredCons := db, 0;
      }
    }

    /** sqlite3RollbackAll */
    method Rollback()
      requires Unique(fks, saved) && Clean(fks, saved)
      modifies this`db, this`nDeferredCons, this`slack
      ensures Settled() && db == saved && slack == 0
    {
      db, nDeferredCons, slack := saved, 0, 0;
    }

    /** Between commands: the committed database is consistent, and outside a transaction it is the database. */
    ghost predicate Valid()
      reads this
    {
      Settled() && Unique(fks, saved) && Clean(fks, saved) && (autoCommit ==> db == saved && slack == 0)
    }

    ghost function State(): Connection
      reads this
    {
      Connection(db, saved, autoCommit, slack)
    }

    /** One command. Outside a transaction a statement commits itself, or is rolled back
        when it fails or leaves a violation. */
    method Do(cmd: Command)
      requires Valid()
      modifies this
      ensures Valid() && State() == Next(fks, old(State()), cmd)
    {
      match cmd {
        case Begin => autoCommit := false;
        case CommitWork =>
          if !autoCommit {
            var ok := Commit();
            autoCommit := ok;
          }
        case RollbackWork =>
          Rollback();
          autoCommit := true;
        case Run(stmt) =>
          var ok := Execute(stmt);
          if autoCommit {
            if ok {
              ok := Commit();
            }
            if !ok {
              Rollback();
            }
          }
      }
    }
  }

  datatype RowOp =
    | InsertOp(t: int, rowid: int, row: Row)
    | DeleteOp(t: int, rowid: int)
    | UpdateOp(t: int, rowid: int, ch: Changes)

  predicate Allowed(fks: seq<FKey>, db: Db, op: RowOp) {
    match op
    case InsertOp(t, rowid, row) => Accepts(fks, db, t, rowid, row)
    case DeleteOp(_, _) => true
    case UpdateOp(t, rowid, ch) =>
      rowid in Rows(db, t) ==>
        Accepts(fks, Deleted(db, t, rowid), t, NewRowid(rowid, ch), NewRow(Rows(db, t)[rowid], ch))
  }

  /** A row that is not there is not deleted or updated. */
  function Apply(db: Db, op: RowOp): Db {
    match op
    case InsertOp(t, rowid, row) => Inserted(db, t, rowid, row)
    case DeleteOp(t, rowid) => if rowid in Rows(db, t) then Deleted(db, t, rowid) else db
    case UpdateOp(t, rowid, ch) => if rowid in Rows(db, t) then Updated(db, t, rowid, ch) else db
  }

  function ApplyAll(db: Db, ops: seq<RowOp>): Db {
    if ops == [] then db else Apply(ApplyAll(db, ops[..|ops| - 1]), ops[|ops| - 1])
  }

  predicate Runs(fks: seq<FKey>, db: Db, ops: seq<RowOp>) {
    ops == [] ||
    (Runs(fks, db, ops[..|ops| - 1]) && Allowed(fks, ApplyAll(db, ops[..|ops| - 1]), ops[|ops| - 1]))
  }

  lemma {:induction false} RunsPrefix(fks: seq<FKey>, db: Db, ops: seq<RowOp>, n: nat)
    requires n <= |ops|
    ensures Runs(fks, db, ops) ==> Runs(fks, db, ops[..n])
    decreases |ops|
  {
    if n < |ops| {
      RunsPrefix(fks, db, ops[..|ops| - 1], n);
      assert ops[..|ops| - 1][..n] == ops[..n];
    } else {
      assert ops[..n] == ops;
    }
  }

  /** A statement that may write several rows, or an INSERT of one row into a table without triggers. */
  datatype Stmt = Multi(ops: seq<RowOp>) | Single(t: int, rowid: int, row: Row)

  function Meant(db: Db, stmt: Stmt): Db {
    match stmt
    case Multi(ops) => ApplyAll(db, ops)
    case Single(t, rowid, row) => Inserted(db, t, rowid, row)
  }

  /** Every row is accepted, and no immediate constraint is violated at the end. */
  ghost predicate Succeeds(fks: seq<FKey>, db: Db, stmt: Stmt) {
    match stmt
    case Multi(ops) => Runs(fks, db, ops) && Bad(fks, ApplyAll(db, ops), false) == {}
    case Single(t, rowid, row) =>
      Accepts(fks, db, t, rowid, row) && Bad(fks, Inserted(db, t, rowid, row), false) == {}
  }

  /** What a statement should do: everything, or nothing. */
  ghost function Outcome(fks: seq<FKey>, db: Db, stmt: Stmt): Db {
    if Succeeds(fks, db, stmt) then Meant(db, stmt) else db
  }

  ghost function Lost(fks: seq<FKey>, db: Db, stmt: Stmt): nat {
    match stmt
    case Multi(_) => 0
    case Single(t, rowid, row) =>
      if Accepts(fks, db, t, rowid, row) && !Succeeds(fks, db, stmt) then Leak(fks, db, t, rowid, row) else 0
  }

  ghost predicate Clean(fks: seq<FKey>, db: Db) {
    Bad(fks, db, true) == {} && Bad(fks, db, false) == {}
  }

  datatype Command = Begin | CommitWork | RollbackWork | Run(stmt: Stmt)

  datatype Connection = Connection(db: Db, saved: Db, autoCommit: bool, lost: nat)

  /** What a command should do. */
  ghost function Next(fks: seq<FKey>, s: Connection, cmd: Command): Connection {
    match cmd
    case Begin => s.(autoCommit := false)
    case CommitWork =>
      if s.autoCommit || Bad(fks, s.db, true) != {} || s.lost > 0 then s
      else s.(saved := s.db, autoCommit := true)
    case RollbackWork => Connection(s.saved, s.saved, true, 0)
    case Run(stmt) =>
      var db := Outcome(fks, s.db, stmt);
      if !s.autoCommit then s.(db := db, lost := s.lost + Lost(fks, s.db, stmt))
      else if Succeeds(fks, s.db, stmt) && Bad(fks, db, true) == {} then s.(db := db, saved := db)
      else s
  }

  ghost function After(fks: seq<FKey>, cmds: seq<Command>): Connection {
    if cmds == [] then Connection(map[], map[], true, 0) else Next(fks, After(fks, cmds[..|cmds| - 1]),
      cmds[|cmds| - 1])
  }

  /** Any sequence of transactions and statements outside transactions, on a new database:
      the tables are what the commands should make of them, no immediate constraint is ever
      left violated, and nothing is ever committed that violates any constraint. */
  method Replay(fks: seq<FKey>, cmds: seq<Command>) returns (db: Db, saved: Db)
    ensures db == After(fks, cmds).db && saved == After(fks, cmds).saved
    ensures Bad(fks, db, false) == {} && Clean(fks, saved)
  {
    var s := new Session(fks);
    for n := 0 to |cmds|
      invariant fresh(s) && s.fks == fks && s.Valid() && s.State() == After(fks, cmds[..n])
    {
      assert cmds[..n + 1][..n] == cmds[..n];
      s.Do(cmds[n]);
    }
    assert cmds[..|cmds|] == cmds;
    db, saved := s.db, s.saved;
  }

  ghost function OutcomeAll(fks: seq<FKey>, db: Db, stmts: seq<Stmt>): Db {
    if stmts == [] then db else Outcome(fks, OutcomeAll(fks, db, stmts[..|stmts| - 1]), stmts[|stmts| - 1])
  }

  ghost function LostAll(fks: seq<FKey>, db: Db, stmts: seq<Stmt>): nat {
    if stmts == [] then 0
    else
      var n := |stmts| - 1;
      LostAll(fks, db, stmts[..n]) + Lost(fks, OutcomeAll(fks, db, stmts[..n]), stmts[n])
  }

  /** Any transaction: it commits exactly when no deferred constraint is violated at its end
      and none of its single-row inserts has left anything behind. */
  method Transaction(s: Session, stmts: seq<Stmt>) returns (committed: bool)
    requires s.Valid() && s.autoCommit
    modifies s
    ensures s.Valid() && s.db == OutcomeAll(s.fks, old(s.db), stmts) && Bad(s.fks, s.db, false) == {}
    ensures committed <==> Bad(s.fks, s.db, true) == {} && LostAll(s.fks, old(s.db), stmts) == 0
    ensures s.saved == if committed then s.db else old(s.saved)
  {
    s.Do(Begin);
    for n := 0 to |stmts|
      invariant s.Valid() && !s.autoCommit && s.saved == old(s.saved)
      invariant s.db == OutcomeAll(s.fks, old(s.db), stmts[..n]) && s.slack == LostAll(s.fks, old(s.db), stmts[..n])
    {
      assert stmts[..n + 1][..n] == stmts[..n];
      s.Do(Run(stmts[n]));
    }
    assert stmts[..|stmts|] == stmts;
    s.Do(CommitWork);
    committed := s.autoCommit;
  }

  // ----- the single-row insert -----

  lemma {:induction false} HaltAtFirst(fks: seq<FKey>, n: nat, db: Db, t: int, rowid: int, row: Row)
    requires n <= |fks|
    ensures var h := HaltAt(fks, n, db, t, rowid, row);
      && (forall f :: n <= f < h ==> fks[f].isDeferred || !Arrives(fks[f], db, t, rowid, row))
      && (h < |fks| ==> !fks[h].isDeferred && Arrives(fks[h], db, t, rowid, row))
    decreases |fks| - n
  {
    if n < HaltAt(fks, n, db, t, rowid, row) {
      HaltAtFirst(fks, n + 1, db, t, rowid, row);
    }
  }

  /** The insert is halted exactly when it would leave an immediate constraint violated. */
  lemma HaltsIff(fks: seq<FKey>, db: Db, t: int, rowid: int, row: Row)
    requires Accepts(fks, db, t, rowid, row) && Bad(fks, db, false) == {}
    ensures HaltAt(fks, 0, db, t, rowid, row) == |fks| <==> Bad(fks, Inserted(db, t, rowid, row), false) == {}
  {
    var h := HaltAt(fks, 0, db, t, rowid, row);
    HaltAtFirst(fks, 0, db, t, rowid, row);
    AllMembers(Arrival, fks, db, t, rowid, row, false);
    InsertBad(fks, db, t, rowid, row, false);
    assert h < |fks| ==> (h, rowid) in All(Arrival, fks, db, t, rowid, row, false);
  }

  /** A halted insert leaves the deferred counter exact if and only if no deferred constraint
      before the one that halts it is violated by the new row. */
  lemma LeakFree(fks: seq<FKey>, db: Db, t: int, rowid: int, row: Row)
    ensures Leak(fks, db, t, rowid, row) == 0 <==>
      forall f :: 0 <= f < HaltAt(fks, 0, db, t, rowid, row) && fks[f].isDeferred ==>
        !Arrives(fks[f], db, t, rowid, row)
  {
    var h := HaltAt(fks, 0, db, t, rowid, row);
    forall f | 0 <= f < h
      ensures (f, rowid) in Total(Arrival, fks, h, db, t, rowid, row, true) <==>
        fks[f].isDeferred && Arrives(fks[f], db, t, rowid, row)
    {
      TotalMember(Arrival, fks, h, db, t, rowid, row, true, (f, rowid));
    }
    forall x: (int, int)
      ensures x in Total(Arrival, fks, h, db, t, rowid, row, true) ==>
        0 <= x.0 < h && fks[x.0].isDeferred && Arrives(fks[x.0], db, t, rowid, row)
    {
      TotalMember(Arrival, fks, h, db, t, rowid, row, true, x);
    }
    if Leak(fks, db, t, rowid, row) != 0 {
      var x := Pick(Total(Arrival, fks, h, db, t, rowid, row, true));
    }
  }

  /** A row that violates a deferred and then an immediate constraint: the insert is refused,
      nothing is violated, and the deferred counter stands at one. */
  lemma LeakExample()
    ensures var fks := [FKey(1, 2, [0], [0], true), FKey(1, 3, [1], [0], false)];
      var row := [Int(7), Int(8)];
      && Accepts(fks, map[], 1, 1, row) && HaltAt(fks, 0, map[], 1, 1, row) == 1
      && Bad(fks, map[], true) == {} && Leak(fks, map[], 1, 1, row) == 1
  {
    var fks := [FKey(1, 2, [0], [0], true), FKey(1, 3, [1], [0], false)];
    var row := [Int(7), Int(8)];
    assert ChildKey(fks[0], 1, row) == [Int(7)] && ChildKey(fks[1], 1, row) == [Int(8)];
    assert Arrives(fks[0], map[], 1, 1, row) && Arrives(fks[1], map[], 1, 1, row);
    assert HaltAt(fks, 0, map[], 1, 1, row) == HaltAt(fks, 1, map[], 1, 1, row) == 1;
    assert Total(Arrival, fks, 1, map[], 1, 1, row, true) == {(0, 1)};
  }

  /** In a transaction that consists of one insert that leaks the commit is refused, although the
      database is empty. */
  lemma LeakRefused(fks: seq<FKey>, t: int, rowid: int, row: Row)
    requires Accepts(fks, map[], t, rowid, row) && HaltAt(fks, 0, map[], t, rowid, row) < |fks|
    requires Leak(fks, map[], t, rowid, row) > 0
    ensures var s := After(fks, [Begin, Run(Single(t, rowid, row)), CommitWork]);
      !s.autoCommit && s.db == map[] && Clean(fks, s.db)
  {
    var stmt := Single(t, rowid, row);
    assert Clean(fks, map[]);
    HaltsIff(fks, map[], t, rowid, row);
    assert !Succeeds(fks, map[], stmt) && Lost(fks, map[], stmt) > 0;
    AfterTwo(fks, stmt);
    AfterNext(fks, [Begin, Run(stmt)], CommitWork);
    assert [Begin, Run(stmt)] + [CommitWork] == [Begin, Run(stmt), CommitWork];
  }

  lemma AfterTwo(fks: seq<FKey>, stmt: Stmt)
    ensures After(fks, [Begin, Run(stmt)]) ==
      Connection(Outcome(fks, map[], stmt), map[], false, Lost(fks, map[], stmt))
  {
    AfterNext(fks, [], Begin);
    assert [] + [Begin] == [Begin] && [Begin] + [Run(stmt)] == [Begin, Run(stmt)];
    assert After(fks, [Begin]) == Connection(map[], map[], false, 0);
    AfterNext(fks, [Begin], Run(stmt));
  }

  lemma AfterNext(fks: seq<FKey>, cmds: seq<Command>, c: Command)
    ensures After(fks, cmds + [c]) == Next(fks, After(fks, cmds), c)
  {
    assert (cmds + [c])[..|cmds|] == cmds;
  }

  // ----- field by field -----

  /** The child row names the parent row: their key columns hold equal values. */
  ghost predicate Names(k: FKey, r: int, row: Row, p: int, parent: Row) {
    |k.childCols| == |k.parentCols|
    && forall i :: 0 <= i < |k.childCols| ==> Field(r, row, k.childCols[i]) == Field(p, parent, k.parentCols[i])
  }

  /** A violation is a row of the child table without a NULL in the child columns that names no row
      of the parent table. */
  lemma BadIs(fks: seq<FKey>, db: Db, deferred: bool, f: int, r: int)
    ensures (f, r) in Bad(fks, db, deferred) <==>
      && 0 <= f < |fks| && fks[f].isDeferred == deferred && r in Rows(db, fks[f].child)
      && var k, row, parents := fks[f], Rows(db, fks[f].child)[r], Rows(db, fks[f].parent);
         && (forall i :: 0 <= i < |k.childCols| ==> Field(r, row, k.childCols[i]) != Null)
         && (forall p :: p in parents ==> !Names(k, r, row, p, parents[p]))
  {
    if 0 <= f < |fks| && r in Rows(db, fks[f].child) {
      var k, row, parents := fks[f], Rows(db, fks[f].child)[r], Rows(db, fks[f].parent);
      NamesIs(k, r, row, parents);
      NullsIn(r, row, k.childCols);
    }
  }

  lemma NamesIs(k: FKey, r: int, row: Row, parents: Table)
    ensures forall p :: p in parents ==>
      (Names(k, r, row, p, parents[p]) <==> ParentKey(k, p, parents[p]) == ChildKey(k, r, row))
  {
    forall p | p in parents
      ensures Names(k, r, row, p, parents[p]) <==> ParentKey(k, p, parents[p]) == ChildKey(k, r, row)
    {
      var a, b := ParentKey(k, p, parents[p]), ChildKey(k, r, row);
      assert |a| == |k.parentCols| && |b| == |k.childCols|;
      assert forall i :: 0 <= i < |a| ==> a[i] == Field(p, parents[p], k.parentCols[i]);
      assert forall i :: 0 <= i < |b| ==> b[i] == Field(r, row, k.childCols[i]);
    }
  }

  lemma NullsIn(rowid: int, row: Row, cols: seq<int>)
    ensures NullFree(Key(rowid, row, cols)) <==> forall i :: 0 <= i < |cols| ==> Field(rowid, row, cols[i]) != Null
  {
    var key := Key(rowid, row, cols);
    assert forall i :: 0 <= i < |cols| ==> key[i] == Field(rowid, row, cols[i]);
  }

  /** A row is accepted exactly when its rowid is free and every row of the table that has the same
      values in the columns of a unique index has a NULL among them. */
  lemma AcceptsIs(fks: seq<FKey>, db: Db, t: int, rowid: int, row: Row)
    ensures Accepts(fks, db, t, rowid, row) <==>
      && rowid !in Rows(db, t)
      && forall f, q :: 0 <= f < |fks| && fks[f].parent == t && q in Rows(db, t)
                        && Alike(fks[f].parentCols, rowid, row, q, Rows(db, t)[q]) ==>
           exists i :: 0 <= i < |fks[f].parentCols| && Field(rowid, row, fks[f].parentCols[i]) == Null
  {
    forall f | 0 <= f < |fks| && fks[f].parent == t
      ensures NullFree(ParentKey(fks[f], rowid, row)) <==>
        !exists i :: 0 <= i < |fks[f].parentCols| && Field(rowid, row, fks[f].parentCols[i]) == Null
      ensures HasParent(fks[f], db, ParentKey(fks[f], rowid, row)) <==>
        exists q :: q in Rows(db, t) && Alike(fks[f].parentCols, rowid, row, q, Rows(db, t)[q])
    {
      NullsIn(rowid, row, fks[f].parentCols);
      forall q | q in Rows(db, t)
        ensures Alike(fks[f].parentCols, rowid, row, q, Rows(db, t)[q]) <==>
          ParentKey(fks[f], q, Rows(db, t)[q]) == ParentKey(fks[f], rowid, row)
      {
        AlikeIs(fks[f].parentCols, rowid, row, q, Rows(db, t)[q]);
      }
    }
  }

  /** Two rows have equal values in these columns. */
  ghost predicate Alike(cols: seq<int>, rowid: int, row: Row, q: int, other: Row) {
    forall i :: 0 <= i < |cols| ==> Field(rowid, row, cols[i]) == Field(q, other, cols[i])
  }

  lemma AlikeIs(cols: seq<int>, rowid: int, row: Row, q: int, other: Row)
    ensures Alike(cols, rowid, row, q, other) <==> Key(q, other, cols) == Key(rowid, row, cols)
  {
    var a, b := Key(rowid, row, cols), Key(q, other, cols);
    assert forall i :: 0 <= i < |cols| ==> a[i] == Field(rowid, row, cols[i]) && b[i] == Field(q, other, cols[i]);
  }

  /** An accepted row with a NULL in some column of every immediate key of its table is inserted. */
  lemma NullInserted(fks: seq<FKey>, db: Db, t: int, rowid: int, row: Row)
    requires Accepts(fks, db, t, rowid, row) && Bad(fks, db, false) == {}
    requires forall f :: 0 <= f < |fks| && fks[f].child == t && !fks[f].isDeferred ==>
      exists i :: 0 <= i < |fks[f].childCols| && Field(rowid, row, fks[f].childCols[i]) == Null
    ensures Succeeds(fks, db, Single(t, rowid, row))
    ensures Outcome(fks, db, Single(t, rowid, row)) == Inserted(db, t, rowid, row)
  {
    InsertBad(fks, db, t, rowid, row, false);
    AllMembers(Arrival, fks, db, t, rowid, row, false);
    forall f | 0 <= f < |fks| && fks[f].child == t && !fks[f].isDeferred
      ensures !Arrives(fks[f], db, t, rowid, row)
    {
      NullsIn(rowid, row, fks[f].childCols);
    }
  }

  /** A row without NULLs in the columns of an immediate key, that names neither a row of the parent
      table nor itself, is refused. */
  lemma OrphanRefused(fks: seq<FKey>, db: Db, t: int, rowid: int, row: Row, f: int)
    requires 0 <= f < |fks| && fks[f].child == t && !fks[f].isDeferred
    requires forall i :: 0 <= i < |fks[f].childCols| ==> Field(rowid, row, fks[f].childCols[i]) != Null
    requires forall p :: p in Rows(db, fks[f].parent) ==>
      !Names(fks[f], rowid, row, p, Rows(db, fks[f].parent)[p])
    requires fks[f].parent == t ==> !Names(fks[f], rowid, row, rowid, row)
    ensures !Succeeds(fks, db, Single(t, rowid, row)) && Outcome(fks, db, Single(t, rowid, row)) == db
  {
    var db' := Inserted(db, t, rowid, row);
    assert Rows(db', t)[rowid] == row;
    assert fks[f].parent != t ==> Rows(db', fks[f].parent) == Rows(db, fks[f].parent);
    BadIs(fks, db', false, f, rowid);
  }

  /** After an update the row holds the assigned values and its old ones in the other columns, under its
      new rowid; no other row changes. */
  lemma UpdatedIs(db: Db, t: int, rowid: int, ch: Changes, u: int, r: int)
    requires rowid in Rows(db, t) && NewRowid(rowid, ch) !in Rows(Deleted(db, t, rowid), t)
    ensures var row, row' := Rows(db, t)[rowid], Rows(Updated(db, t, rowid, ch), t);
      && NewRowid(rowid, ch) == (if ch.rowid.Some? then ch.rowid.value else rowid)
      && NewRowid(rowid, ch) in row' && |row'[NewRowid(rowid, ch)]| == |row|
      && forall i :: 0 <= i < |row| ==>
           row'[NewRowid(rowid, ch)][i] ==
             if i !in ch.cols then row[i] else if i < |ch.row| then ch.row[i] else Null
    ensures var old', new' := Rows(db, u), Rows(Updated(db, t, rowid, ch), u);
      u != t || (r != rowid && r != NewRowid(rowid, ch)) ==>
        (r in new' <==> r in old') && (r in old' ==> new'[r] == old'[r])
  {
  }

  // ----- rollback -----

  /** Statements run one after another inside a transaction do not touch what is committed. */
  lemma {:induction false} Uncommitted(fks: seq<FKey>, cmds: seq<Command>, stmts: seq<Stmt>)
    ensures var s := After(fks, cmds + [Begin] + RunAll(stmts));
      s.saved == After(fks, cmds).saved && !s.autoCommit
    decreases |stmts|
  {
    if stmts == [] {
      assert cmds + [Begin] + [] == cmds + [Begin];
      AfterNext(fks, cmds, Begin);
    } else {
      var n := |stmts| - 1;
      Uncommitted(fks, cmds, stmts[..n]);
      assert cmds + [Begin] + RunAll(stmts) == (cmds + [Begin] + RunAll(stmts[..n])) + [Run(stmts[n])];
      AfterNext(fks, cmds + [Begin] + RunAll(stmts[..n]), Run(stmts[n]));
    }
  }

  /** The commands that run these statements. */
  ghost function RunAll(stmts: seq<Stmt>): (r: seq<Command>)
    ensures |r| == |stmts|
  {
    seq(|stmts|, i requires 0 <= i < |stmts| => Run(stmts[i]))
  }

  lemma {:induction false} OutsideSaved(fks: seq<FKey>, cmds: seq<Command>)
    ensures After(fks, cmds).autoCommit ==> After(fks, cmds).db == After(fks, cmds).saved
    decreases |cmds|
  {
    if cmds != [] {
      OutsideSaved(fks, cmds[..|cmds| - 1]);
    }
  }

  /** A transaction that is rolled back leaves no trace. */
  lemma RolledBack(fks: seq<FKey>, cmds: seq<Command>, stmts: seq<Stmt>)
    requires After(fks, cmds).autoCommit
    ensures After(fks, cmds + [Begin] + RunAll(stmts) + [RollbackWork]).db == After(fks, cmds).db
  {
    OutsideSaved(fks, cmds);
    Uncommitted(fks, cmds, stmts);
    AfterNext(fks, cmds + [Begin] + RunAll(stmts), RollbackWork);
  }
}
