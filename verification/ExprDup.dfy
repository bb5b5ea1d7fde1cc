/** The reduced copy of a parse tree into one allocation: dupedExprSize and exprDup. */
module ExprDup {
  import opened Basics

  // Sizes on a platform with 8-byte pointers.
  const TOKENONLY_SIZE := 16
  const REDUCED_SIZE := 44

  /** A pristine tree from the parser. `list` stands for the separately allocated list, or is zero. */
  datatype Tree = Nil | Node(op: int, value: Payload, list: int, left: Tree, right: Tree)

  /** One byte of the allocation; the first byte of a structure stands for its fields. */
  datatype Cell =
    | Free
    | Inside
    | Letter(c: char)
    | Zero
    | Head(op: int, value: Field, rest: Fields)

  datatype Field = IntField(i: int) | TokenAt(at: int) | NoField

  /** The fields that a token-only structure does not have. */
  datatype Fields = TokenOnly | Reduced(list: int, left: int, right: int)

  // ----- sizes -----

  predicate IsTokenOnly(p: Tree)
    requires p.Node?
  {
    p.left.Nil? && p.right.Nil? && p.list == 0
  }

  /** dupedExprStructSize with EXPRDUP_REDUCE */
  function StructSize(p: Tree): nat
    requires p.Node?
  {
    if IsTokenOnly(p) then TOKENONLY_SIZE else REDUCED_SIZE
  }

  function TokenBytes(v: Payload): nat {
    if v.Token? then |v.z| + 1 else 0
  }

  /** The next multiple of eight. */
  function Round8(n: nat): (r: nat)
    ensures n <= r < n + 8 && r % 8 == 0
  {
    if n == 0 then 0 else if n <= 8 then 8 else 8 + Round8(n - 8)
  }

  /** dupedExprNodeSize */
  function NodeSize(p: Tree): nat
    requires p.Node?
  {
    Round8(StructSize(p) + TokenBytes(p.value))
  }

  /** The room for one node: the fields it needs and its token with the final zero, up to the next multiple of eight. */
  lemma NodeSizeIs(p: Tree)
    requires p.Node?
    ensures var fields := if p.left.Nil? && p.right.Nil? && p.list == 0 then 16 else 44;
      var need := fields + if p.value.Token? then |p.value.z| + 1 else 0;
      need <= NodeSize(p) < need + 8 && NodeSize(p) % 8 == 0
  {
  }

  /** dupedExprSize */
  function Size(p: Tree): nat {
    if p.Nil? then 0 else NodeSize(p) + Size(p.left) + Size(p.right)
  }

  // ----- what the allocation holds -----

  /** A zero-terminated string at `at`. */
  predicate StringAt(b: seq<Cell>, at: int, z: string) {
    && 0 <= at && at + |z| < |b| && b[at + |z|] == Zero
    && forall i :: 0 <= i < |z| ==> b[at + i] == Letter(z[i])
  }

  function FieldOf(p: Tree, at: int): Field
    requires p.Node?
  {
    match p.value
    case IntValue(i) => IntField(i)
    case Token(_) => TokenAt(at + StructSize(p))
    case NoToken => NoField
  }

  function Pointer(p: Tree, at: int): int {
    if p.Nil? then -1 else at
  }

  function FieldsOf(p: Tree, at: int): Fields
    requires p.Node?
  {
    if IsTokenOnly(p) then TokenOnly
    else
      var l := at + NodeSize(p);
      Reduced(p.list, Pointer(p.left, l), Pointer(p.right, l + Size(p.left)))
  }

  /** The bytes of a structure after the first. */
  predicate Hollow(b: seq<Cell>, i: int, j: int) {
    0 <= i <= j <= |b| && forall k :: i <= k < j ==> b[k] == Inside
  }

  /** A structure with the given fields and its token, in the bytes from `at` to `end`. */
  predicate NodeAt(b: seq<Cell>, at: int, end: int, p: Tree, rest: Fields)
    requires p.Node?
  {
    && 0 <= at && end == at + NodeSize(p) <= |b| && at < end && b[at] == Head(p.op, FieldOf(p, at), rest)
    && Hollow(b, at + 1, at + StructSize(p))
    && (p.value.Token? ==> StringAt(b[..end], at + StructSize(p), p.value.z))
  }

  /** The structure of the root, whose pointers lead to where its subtrees are. */
  predicate RootAt(b: seq<Cell>, at: int, end: int, p: Tree)
    requires p.Node?
  {
    NodeAt(b, at, end, p, FieldsOf(p, at))
  }

  /** The tree occupies the bytes from `at` to `at + Size(p)`: its own structure and token first,
      then the left subtree, then the right, each in its own range. */
  predicate Stored(b: seq<Cell>, at: int, p: Tree)
    decreases p
  {
    p.Nil? ||
    (var l := at + NodeSize(p);
     RootAt(b, at, l, p) && Stored(b, l, p.left) && Stored(b, l + Size(p.left), p.right))
  }

  // ----- reading it back -----

  /** The string at `at`, as strlen and strcpy see it. */
  function ReadString(b: seq<Cell>, at: int): string
    decreases |b| - at
  {
    if 0 <= at < |b| && b[at].Letter? then [b[at].c] + ReadString(b, at + 1) else []
  }

  function ReadValue(b: seq<Cell>, v: Field): Payload {
    match v
    case IntField(i) => IntValue(i)
    case TokenAt(at) => Token(ReadString(b, at))
    case NoField => NoToken
  }

  /** The tree that the pointers lead to; they lead upward only. */
  function Read(b: seq<Cell>, at: int): Tree
    decreases |b| - at
  {
    if !(0 <= at < |b|) || !b[at].Head? then Nil
    else
      var h := b[at];
      match h.rest
      case TokenOnly => Node(h.op, ReadValue(b, h.value), 0, Nil, Nil)
      case Reduced(list, l, r) =>
        Node(h.op, ReadValue(b, h.value), list, if l > at then Read(b, l) else Nil, if r > at then Read(b, r) else Nil)
  }

  lemma {:induction false} ReadStringBack(b: seq<Cell>, at: int, z: string)
    requires StringAt(b, at, z)
    ensures ReadString(b, at) == z
    decreases |z|
  {
    if |z| > 0 {
      assert b[at + 0] == Letter(z[0]);
      assert forall i :: 0 <= i < |z| - 1 ==> z[1..][i] == z[i + 1];
      ReadStringBack(b, at + 1, z[1..]);
    }
  }

  lemma StringLonger(b: seq<Cell>, end: nat, at: int, z: string)
    requires end <= |b| && StringAt(b[..end], at, z)
    ensures StringAt(b, at, z)
  {
  }

  lemma ValueBack(b: seq<Cell>, at: int, end: int, p: Tree)
    requires p.Node? && RootAt(b, at, end, p)
    ensures ReadValue(b, FieldOf(p, at)) == p.value
  {
    if p.value.Token? {
      StringLonger(b, end, at + StructSize(p), p.value.z);
      ReadStringBack(b, at + StructSize(p), p.value.z);
    }
  }

  /** Reading a stored tree gives the tree. */
  lemma {:induction false} ReadBack(b: seq<Cell>, at: int, p: Tree)
    requires p.Node? && Stored(b, at, p)
    ensures Read(b, at) == p
    decreases p
  {
    var l := at + NodeSize(p);
    var r := l + Size(p.left);
    if p.left.Node? {
      ReadBack(b, l, p.left);
    }
    if p.right.Node? {
      ReadBack(b, r, p.right);
    }
    ReadRoot(b, at, l, r, p);
  }

  lemma ReadRoot(b: seq<Cell>, at: int, l: int, r: int, p: Tree)
    requires p.Node? && RootAt(b, at, l, p) && l == at + NodeSize(p) && r == l + Size(p.left)
    requires (p.left.Node? ==> Read(b, l) == p.left) && (p.right.Node? ==> Read(b, r) == p.right)
    ensures Read(b, at) == p
  {
    ValueBack(b, at, l, p);
    if !IsTokenOnly(p) {
      assert b[at].rest == Reduced(p.list, Pointer(p.left, l), Pointer(p.right, r));
    }
  }

  /** A stored tree depends on its own bytes only. */
  lemma StoredFrame(b: seq<Cell>, c: seq<Cell>, at: int, p: Tree)
    requires Stored(b, at, p) && SameCells(b, c, at, at + Size(p))
    ensures Stored(c, at, p)
  {
    StoredWithin(b, c, at, at + Size(p), at, p);
  }

  lemma {:induction false} StoredWithin(b: seq<Cell>, c: seq<Cell>, i: int, j: int, at: int, p: Tree)
    requires Stored(b, at, p) && SameCells(b, c, i, j) && i <= at && at + Size(p) <= j
    ensures Stored(c, at, p)
    decreases p
  {
    if p.Node? {
      var l := at + NodeSize(p);
      var r := l + Size(p.left);
      assert at + Size(p) == r + Size(p.right);
      RootWithin(b, c, i, j, at, l, p);
      StoredWithin(b, c, i, j, l, p.left);
      StoredWithin(b, c, i, j, r, p.right);
      StoredParts(c, at, l, r, p);
    }
  }

  lemma StoredParts(c: seq<Cell>, at: int, l: int, r: int, p: Tree)
    requires p.Node? && l == at + NodeSize(p) && r == l + Size(p.left)
    requires RootAt(c, at, l, p) && Stored(c, l, p.left) && Stored(c, r, p.right)
    ensures Stored(c, at, p)
  {
  }

  lemma RootWithin(b: seq<Cell>, c: seq<Cell>, i: int, j: int, at: int, end: int, p: Tree)
    requires p.Node? && RootAt(b, at, end, p) && SameCells(b, c, i, j) && i <= at && end <= j
    ensures RootAt(c, at, end, p)
  {
    SameLess(b, c, i, j, at, end);
    NodeFrame(b, c, at, end, p, FieldsOf(p, at));
  }

  lemma NodeFrame(b: seq<Cell>, c: seq<Cell>, at: int, end: int, p: Tree, rest: Fields)
    requires p.Node? && NodeAt(b, at, end, p, rest) && SameCells(b, c, at, end)
    ensures NodeAt(c, at, end, p, rest)
  {
    if p.value.Token? {
      StringFrame(b[..end], c[..end], at + StructSize(p), end, p.value.z);
    }
  }

  /** The same bytes from `i` up to `j`. */
  predicate SameCells(b: seq<Cell>, c: seq<Cell>, i: int, j: int) {
    0 <= i <= j <= |b| == |c| && forall k :: i <= k < j ==> b[k] == c[k]
  }

  lemma SameLess(b: seq<Cell>, c: seq<Cell>, i: int, j: int, k: int, l: int)
    requires SameCells(b, c, i, j) && i <= k <= l <= j
    ensures SameCells(b, c, k, l)
  {
  }

  lemma StringFrame(b: seq<Cell>, c: seq<Cell>, at: int, end: int, z: string)
    requires StringAt(b, at, z) && at + |z| < end && SameCells(b, c, at, end)
    ensures StringAt(c, at, z)
  {
  }

  // ----- the copy -----

  /** The fields before the children have been copied. */
  function Unset(p: Tree): Fields
    requires p.Node?
  {
    if IsTokenOnly(p) then TokenOnly else Reduced(p.list, -1, -1)
  }

  /** The structure of one node and its token. */
  method PutNode(p: Tree, a: array<Cell>, at: nat)
    requires p.Node? && at + NodeSize(p) <= a.Length
    modifies a
    ensures NodeAt(a[..], at, at + NodeSize(p), p, Unset(p))
    ensures SameCells(old(a[..]), a[..], 0, at) && SameCells(old(a[..]), a[..], at + NodeSize(p), a.Length)
  {
    var n := StructSize(p);
    forall i | at < i < at + n {
      a[i] := Inside;
    }
    a[at] := Head(p.op, FieldOf(p, at), Unset(p));
    if p.value.Token? {
      var z, t := p.value.z, at + n;
      forall i | 0 <= i < |z| {
        a[t + i] := Letter(z[i]);
      }
      a[t + |z|] := Zero;
    }
  }

  /** exprDup into a buffer: the copy starts at the cursor `at`, `pNew` is its address or null,
      and the cursor moves to the first byte past it. */
  method DupInto(p: Tree, a: array<Cell>, at: nat) returns (pNew: int, end: nat)
    requires at + Size(p) <= a.Length
    modifies a
    ensures pNew == Pointer(p, at) && end == at + Size(p) && Stored(a[..], at, p)
    ensures SameCells(old(a[..]), a[..], 0, at) && SameCells(old(a[..]), a[..], end, a.Length)
    decreases p, 1
  {
    if p.Nil? {
      return -1, at;
    }
    PutNode(p, a, at);
    pNew, end := at, at + NodeSize(p);
    if !IsTokenOnly(p) {
      end := DupChildren(p, a, at, end);
    }
  }

  /** The children go where the cursor is; each call says where that was, and the structure is
      made to point there. */
  method DupChildren(p: Tree, a: array<Cell>, at: nat, next: nat) returns (end: nat)
    requires p.Node? && at + Size(p) <= a.Length && !IsTokenOnly(p) && NodeAt(a[..], at, next, p, Unset(p))
    modifies a
    ensures end == at + Size(p) && Stored(a[..], at, p)
    ensures SameCells(old(a[..]), a[..], 0, at) && SameCells(old(a[..]), a[..], end, a.Length)
    decreases p, 0
  {
    ghost var b := a[..];
    var left, r := DupInto(p.left, a, next);
    ghost var c := a[..];
    var right: int;
    right, end := DupInto(p.right, a, r);
    ghost var d := a[..];
    a[at] := a[at].(rest := Reduced(a[at].rest.list, left, right));
    Copied(p, b, c, d, a[..], left, right, at, next, r, end);
  }

  /** The children do not disturb the structure or each other, and the addresses they were
      given are where the structure expects them. */
  lemma Copied(p: Tree, b: seq<Cell>, c: seq<Cell>, d: seq<Cell>, e: seq<Cell>, left: int, right: int,
      at: nat, l: nat, r: nat, end: nat)
    requires p.Node? && !IsTokenOnly(p) && l == at + NodeSize(p) && r == l + Size(p.left)
    requires end == r + Size(p.right) <= |b| == |c| == |d| == |e|
    requires left == Pointer(p.left, l) && right == Pointer(p.right, r)
    requires NodeAt(b, at, l, p, Unset(p))
    requires Stored(c, l, p.left) && SameCells(b, c, 0, l) && SameCells(b, c, r, |b|)
    requires Stored(d, r, p.right) && SameCells(c, d, 0, r) && SameCells(c, d, end, |b|)
    requires e == d[at := Head(p.op, FieldOf(p, at), Reduced(p.list, left, right))]
    ensures Stored(e, at, p) && SameCells(b, e, 0, at) && SameCells(b, e, end, |b|)
  {
    CopiedNode(p, b, c, d, at, l, r);
    assert FieldsOf(p, at) == Reduced(p.list, left, right);
    Pointed(d, e, at, l, p, FieldsOf(p, at));
    CopiedLeft(p, c, d, e, at, l, r);
    CopiedRight(p, d, e, at, r);
    Assembled(e, at, l, r, p);
    Outside(b, c, d, e, at, l, r, end);
  }

  lemma Assembled(e: seq<Cell>, at: int, l: int, r: int, p: Tree)
    requires p.Node? && RootAt(e, at, l, p) && Stored(e, l, p.left) && r == l + Size(p.left) && Stored(e, r, p.right)
    ensures Stored(e, at, p)
  {
  }

  lemma Outside(b: seq<Cell>, c: seq<Cell>, d: seq<Cell>, e: seq<Cell>, at: nat, l: nat, r: nat, end: nat)
    requires at < l <= r <= end <= |b| && SameCells(b, c, 0, l) && SameCells(b, c, r, |b|)
    requires SameCells(c, d, 0, r) && SameCells(c, d, end, |b|)
    requires |e| == |d| && forall i :: 0 <= i < |d| && i != at ==> e[i] == d[i]
    ensures SameCells(b, e, 0, at) && SameCells(b, e, end, |b|)
  {
  }

  lemma CopiedRight(p: Tree, d: seq<Cell>, e: seq<Cell>, at: nat, r: nat)
    requires p.Node? && at < r && r + Size(p.right) <= |d| && Stored(d, r, p.right)
    requires |e| == |d| && forall i :: 0 <= i < |d| && i != at ==> e[i] == d[i]
    ensures Stored(e, r, p.right)
  {
    StoredFrame(d, e, r, p.right);
  }

  lemma CopiedNode(p: Tree, b: seq<Cell>, c: seq<Cell>, d: seq<Cell>, at: nat, l: nat, r: nat)
    requires p.Node? && NodeAt(b, at, l, p, Unset(p)) && l <= r && SameCells(b, c, 0, l) && SameCells(c, d, 0, r)
    ensures NodeAt(d, at, l, p, Unset(p))
  {
    assert SameCells(b, d, at, l);
    NodeFrame(b, d, at, l, p, Unset(p));
  }

  lemma CopiedLeft(p: Tree, c: seq<Cell>, d: seq<Cell>, e: seq<Cell>, at: nat, l: nat, r: nat)
    requires p.Node? && at < l && r == l + Size(p.left) && Stored(c, l, p.left)
    requires SameCells(c, d, 0, r) && SameCells(d, e, at + 1, r)
    ensures Stored(e, l, p.left)
  {
    assert SameCells(c, e, l, r);
    StoredFrame(c, e, l, p.left);
  }

  /** Writing the pointers keeps the rest of the structure. */
  lemma Pointed(d: seq<Cell>, e: seq<Cell>, at: nat, end: nat, p: Tree, rest: Fields)
    requires p.Node? && NodeAt(d, at, end, p, Unset(p)) && e == d[at := Head(p.op, FieldOf(p, at), rest)]
    ensures NodeAt(e, at, end, p, rest)
  {
    if p.value.Token? {
      StringFrame(d[..end], e[..end], at + StructSize(p), end, p.value.z);
    }
  }

  /** sqlite3ExprDup with EXPRDUP_REDUCE: one allocation, filled exactly, that reads back as the tree. */
  method Dup(p: Tree) returns (a: array<Cell>)
    ensures fresh(a) && a.Length == Size(p) && Stored(a[..], 0, p) && Read(a[..], 0) == p
  {
    a := new Cell[Size(p)](i => Free);
    var pNew, end := DupInto(p, a, 0);
    if p.Node? {
      ReadBack(a[..], 0, p);
    }
  }
}
