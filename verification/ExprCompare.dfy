/** sqlite3ExprCompare: when two parse trees are known to be the same. */
module ExprCompare {
  import opened Basics

  datatype Kind = Collate | Column | Operator(code: int)

  /** A node of an unreduced tree; `isSelect` marks a subselect. */
  datatype Node = Nil | Node(
    op: Kind,
    distinct: bool,
    isSelect: bool,
    iTable: int,
    iColumn: int,
    value: Payload,
    left: Node,
    right: Node,
    list: List)

  /** A list of expressions, each with its sort order; `Absent` is the null pointer. */
  datatype List = Absent | End | More(sortOrder: int, expr: Node, rest: List)

  // ----- meaning -----

  /** What an expression yields in some row: a value, and the collation it brings along. */
  datatype Meaning = Meaning(value: int, collation: int)

  /** What a node contributes besides its operands. */
  datatype Shape = Shape(op: Kind, distinct: bool, iTable: int, iColumn: int, value: Payload)

  datatype Meanings = NoList | Done | Also(sortOrder: int, m: Meaning, rest: Meanings)

  /** Any way to give meaning to a node from its own fields and the meaning of its operands. */
  type Semantics = (Shape, Meaning, Meaning, Meanings) -> Meaning

  /** A column is known by its numbers; its token does not matter. */
  function ShapeOf(n: Node): Shape
    requires n.Node?
  {
    Shape(n.op, n.distinct, n.iTable, n.iColumn, if n.op == Column then NoToken else n.value)
  }

  function Mean(sem: Semantics, n: Node): Meaning {
    if n.Nil? then Meaning(0, 0) else sem(ShapeOf(n), Mean(sem, n.left), Mean(sem, n.right), MeanAll(sem, n.list))
  }

  function MeanAll(sem: Semantics, l: List): Meanings {
    match l
    case Absent => NoList
    case End => Done
    case More(s, e, rest) => Also(s, Mean(sem, e), MeanAll(sem, rest))
  }

  /** COLLATE does not change a value. */
  ghost predicate Transparent(sem: Semantics) {
    forall s: Shape, a, b, l :: s.op == Collate ==> sem(s, a, b, l).value == a.value
  }

  /** Trees as the parser makes them: `bare` are the operators without token or integer, a column
      is not an integer, COLLATE has a token and an operand, and lists end. */
  predicate WellFormed(bare: set<Kind>, n: Node) {
    n.Nil? ||
    (&& (if n.op == Column then !n.value.IntValue? else n.value.NoToken? <==> n.op in bare)
     && (n.op == Collate ==> n.value.Token? && n.left.Node?)
     && WellFormed(bare, n.left) && WellFormed(bare, n.right) && WellFormedList(bare, n.list))
  }

  predicate WellFormedList(bare: set<Kind>, l: List) {
    l.More? ==> WellFormed(bare, l.expr) && !l.rest.Absent? && WellFormedList(bare, l.rest)
  }

  function Size(n: Node): nat {
    if n.Nil? then 0 else 1 + Size(n.left) + Size(n.right) + SizeList(n.list)
  }

  function SizeList(l: List): nat {
    if l.More? then 1 + Size(l.expr) + SizeList(l.rest) else 0
  }

  // ----- identical trees -----

  /** The same tree, without subselects; the tokens of columns do not count. */
  predicate Same(a: Node, b: Node) {
    if a.Nil? || b.Nil? then a.Nil? && b.Nil?
    else
      && !a.isSelect && !b.isSelect && ShapeOf(a) == ShapeOf(b)
      && Same(a.left, b.left) && Same(a.right, b.right) && SameList(a.list, b.list)
  }

  predicate SameList(a: List, b: List) {
    if a.More? && b.More? then a.sortOrder == b.sortOrder && Same(a.expr, b.expr) && SameList(a.rest, b.rest)
    else !a.More? && !b.More? && a == b
  }

  /** The tree under the COLLATE operators at the top. */
  function Strip(n: Node): Node {
    if n.Node? && n.op == Collate then Strip(n.left) else n
  }

  lemma {:induction false} SameMeaning(sem: Semantics, a: Node, b: Node)
    requires Same(a, b)
    ensures Mean(sem, a) == Mean(sem, b)
  {
    if a.Node? {
      SameMeaning(sem, a.left, b.left);
      SameMeaning(sem, a.right, b.right);
      SameMeanings(sem, a.list, b.list);
    }
  }

  lemma {:induction false} SameMeanings(sem: Semantics, a: List, b: List)
    requires SameList(a, b)
    ensures MeanAll(sem, a) == MeanAll(sem, b)
  {
    if a.More? {
      SameMeaning(sem, a.expr, b.expr);
      SameMeanings(sem, a.rest, b.rest);
    }
  }

  lemma {:induction false} StripValue(sem: Semantics, n: Node)
    requires Transparent(sem)
    ensures Mean(sem, Strip(n)).value == Mean(sem, n).value
  {
    if n.Node? && n.op == Collate {
      StripValue(sem, n.left);
    }
  }

  lemma {:induction false} SameStripped(a: Node, b: Node)
    requires Same(a, b)
    ensures Same(Strip(a), Strip(b))
  {
    if a.Node? && a.op == Collate {
      SameStripped(a.left, b.left);
    }
  }

  /** The COLLATE operators at the top of `a` agree with `b` about DISTINCT, and none is a subselect. */
  predicate Wraps(a: Node, b: Node)
    requires b.Node?
  {
    a.Node? && a.op == Collate ==> !a.isSelect && a.distinct == b.distinct && Wraps(a.left, b)
  }

  /** A COLLATE operator without the name of its collation. */
  function Unnamed(n: Node): Node
    requires n.Node?
  {
    n.(value := NoToken)
  }

  /** The same tree but for COLLATE at the top: both have one, and at most its name differs;
      or one has any number of them, and what they wrap is the other. */
  predicate Near(a: Node, b: Node) {
    if a.Nil? || b.Nil? then a.Nil? && b.Nil?
    else if a.op == Collate && b.op == Collate then Same(Unnamed(a), Unnamed(b))
    else if a.op == Collate then Wraps(a, b) && Same(Strip(a), b)
    else if b.op == Collate then Wraps(b, a) && Same(a, Strip(b))
    else Same(a, b)
  }

  /** Trees that differ only in COLLATE operators at the top have the same value in every row. */
  lemma SameValue(sem: Semantics, a: Node, b: Node)
    requires Transparent(sem) && Near(a, b)
    ensures Mean(sem, a).value == Mean(sem, b).value
  {
    if a.Node? && b.Node? && a.op == Collate && b.op == Collate {
      SameStripped(a.left, b.left);
    }
    StripValue(sem, a);
    StripValue(sem, b);
    SameMeaning(sem, Strip(a), Strip(b));
  }

  // ----- the comparison -----

  /** sqlite3ExprCompare: 0 for identical trees, 1 for trees that are identical but for COLLATE
      operators at the top, 2 for all others. */
  method Compare(a: Node, b: Node, ghost bare: set<Kind>) returns (r: int)
    requires WellFormed(bare, a) && WellFormed(bare, b)
    ensures 0 <= r <= 2 && (r == 0 <==> Same(a, b))
    ensures r < 2 <==> Near(a, b)
    decreases Size(a) + Size(b), 1
  {
    if a.Nil? || b.Nil? {
      return if a.Nil? && b.Nil? then 0 else 2;
    }
    if a.isSelect || b.isSelect || a.distinct != b.distinct {
      return 2;
    }
    if a.op != b.op {
      if a.op == Collate {
        r := Compare(a.left, b, bare);
        assert Strip(a) == Strip(a.left) && (Wraps(a, b) <==> Wraps(a.left, b));
        if r < 2 {
          return 1;
        }
      }
      if b.op == Collate {
        r := Compare(a, b.left, bare);
        assert Strip(b) == Strip(b.left) && (Wraps(b, a) <==> Wraps(b.left, a));
        if r < 2 {
          return 1;
        }
      }
      return 2;
    }
    r := Compare(a.left, b.left, bare);
    if r != 0 {
      return 2;
    }
    r := Compare(a.right, b.right, bare);
    if r != 0 {
      return 2;
    }
    r := ListCompare(a.list, b.list, bare);
    if r != 0 || a.iTable != b.iTable || a.iColumn != b.iColumn {
      return 2;
    }
    r := PayloadCompare(a, b);
  }

  method PayloadCompare(a: Node, b: Node) returns (r: int)
    requires a.Node? && b.Node? && a.op == b.op && (a.op == Column ==> !a.value.IntValue?)
    requires a.op != Column ==> (a.value.NoToken? <==> b.value.NoToken?)
    ensures 0 <= r <= 2 && (r == 1 ==> a.op == Collate) && (r == 0 <==> a.op == Column || a.value == b.value)
    ensures a.op == Collate && a.value.Token? && b.value.Token? ==> r < 2
  {
    if a.value.IntValue? {
      if !b.value.IntValue? || a.value.i != b.value.i {
        return 2;
      }
    } else if a.op != Column && a.value.Token? {
      if !b.value.Token? {
        return 2;
      }
      if a.value.z != b.value.z {
        return if a.op == Collate then 1 else 2;
      }
    }
    return 0;
  }

  /** sqlite3ExprListCompare: 0 for identical lists and only for them. */
  method ListCompare(a: List, b: List, ghost bare: set<Kind>) returns (r: int)
    requires WellFormedList(bare, a) && WellFormedList(bare, b)
    ensures r == 0 <==> SameList(a, b)
    decreases SizeList(a) + SizeList(b), 0
  {
    if a.Absent? && b.Absent? {
      return 0;
    }
    if a.Absent? || b.Absent? {
      return 1;
    }
    var x, y := a, b;
    while x.More? && y.More?
      invariant !x.Absent? && !y.Absent? && WellFormedList(bare, x) && WellFormedList(bare, y)
      invariant SizeList(x) <= SizeList(a) && SizeList(y) <= SizeList(b)
      invariant SameList(x, y) <==> SameList(a, b)
      decreases x
    {
      if x.sortOrder != y.sortOrder {
        return 1;
      }
      r := Compare(x.expr, y.expr, bare);
      if r != 0 {
        return 1;
      }
      x, y := x.rest, y.rest;
    }
    return if x.End? && y.End? then 0 else 1;
  }
}
