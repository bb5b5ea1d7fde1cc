/** A set of bit numbers held as a bitmap, a hash table or a tree of smaller sets. */
module Bitvec {
  import opened Arithmetic

  // Sizes on a platform with 8-byte pointers.
  const NELEM := 496     // bytes in the bitmap
  const NBIT := 3968     // bits in the bitmap
  const NINT := 124      // slots in the hash table
  const MXHASH := 62     // entries after a collision before the node is subdivided
  const NPTR := 62       // sub-bitmaps of a tree node
  const LIMIT := 0x1_0000_0000

  // ----- bitmap -----

  /** 1 shifted left by `k`. */
  function Mask(k: nat): bv8
    requires k < 8
  {
    if k == 0 then 1 else Mask(k - 1) << 1
  }

  /** One bit of a byte: read, set and cleared. */
  predicate Has(x: bv8, k: nat)
    requires k < 8
  {
    x & Mask(k) != 0
  }

  function With(x: bv8, k: nat): bv8
    requires k < 8
  {
    x | Mask(k)
  }

  function Without(x: bv8, k: nat): bv8
    requires k < 8
  {
    x & !Mask(k)
  }

  predicate Bit(bits: seq<bv8>, i: nat)
    requires i < 8 * |bits|
  {
    Has(bits[i / 8], i % 8)
  }

  function SetBit(bits: seq<bv8>, i: nat): (r: seq<bv8>)
    requires i < 8 * |bits|
    ensures |r| == |bits|
  {
    bits[i / 8 := With(bits[i / 8], i % 8)]
  }

  function ClearBit(bits: seq<bv8>, i: nat): (r: seq<bv8>)
    requires i < 8 * |bits|
    ensures |r| == |bits|
  {
    bits[i / 8 := Without(bits[i / 8], i % 8)]
  }

  lemma Masks(x: bv8, a: nat, b: nat)
    requires a < 8 && b < 8
    ensures Has(With(x, a), b) <==> a == b || Has(x, b)
    ensures Has(Without(x, a), b) <==> a != b && Has(x, b)
  {
    MasksApart(a, b);
    MaskPair(x, Mask(a), Mask(b), a == b);
  }

  lemma MaskPair(x: bv8, m: bv8, n: bv8, same: bool)
    requires m != 0 && if same then m == n else m & n == 0
    ensures (x | m) & n != 0 <==> same || x & n != 0
    ensures (x & !m) & n != 0 <==> !same && x & n != 0
  {
    if same {
      OneMask(x, m);
    } else {
      TwoMasks(x, m, n);
    }
  }

  lemma MasksApart(a: nat, b: nat)
    requires a < 8 && b < 8
    ensures Mask(a) != 0 && (a != b ==> Mask(a) & Mask(b) == 0)
  {
    assert Mask(0) == 1 && Mask(1) == 2 && Mask(2) == 4 && Mask(3) == 8;
    assert Mask(4) == 16 && Mask(5) == 32 && Mask(6) == 64 && Mask(7) == 128;
  }

  lemma OneMask(x: bv8, m: bv8)
    requires m != 0
    ensures (x | m) & m != 0 && (x & !m) & m == 0
  {
    assert (x | m) & m == m;
  }

  lemma TwoMasks(x: bv8, m: bv8, n: bv8)
    requires m & n == 0
    ensures (x | m) & n == x & n && (x & !m) & n == x & n
  {
  }

  lemma BitAfter(bits: seq<bv8>, i: nat, j: nat)
    requires i < 8 * |bits| && j < 8 * |bits|
    ensures Bit(SetBit(bits, i), j) <==> i == j || Bit(bits, j)
    ensures Bit(ClearBit(bits, i), j) <==> i != j && Bit(bits, j)
  {
    if i / 8 == j / 8 {
      SamePlaces(i, j);
      Masks(bits[i / 8], i % 8, j % 8);
      assert SetBit(bits, i)[j / 8] == With(bits[i / 8], i % 8);
      assert ClearBit(bits, i)[j / 8] == Without(bits[i / 8], i % 8);
    } else {
      assert SetBit(bits, i)[j / 8] == bits[j / 8] && ClearBit(bits, i)[j / 8] == bits[j / 8];
    }
  }

  lemma SamePlaces(i: nat, j: nat)
    requires i / 8 == j / 8
    ensures i == j <==> i % 8 == j % 8
  {
  }

  lemma BitsAfter(bits: seq<bv8>, i: nat)
    requires i < 8 * |bits|
    ensures forall j: nat :: j < 8 * |bits| ==> (Bit(SetBit(bits, i), j) <==> i == j || Bit(bits, j))
    ensures forall j: nat :: j < 8 * |bits| ==> (Bit(ClearBit(bits, i), j) <==> i != j && Bit(bits, j))
  {
    forall j: nat | j < 8 * |bits|
      ensures Bit(SetBit(bits, i), j) <==> i == j || Bit(bits, j)
      ensures Bit(ClearBit(bits, i), j) <==> i != j && Bit(bits, j)
    {
      BitAfter(bits, i, j);
    }
  }

  // ----- hash table -----

  function Home(v: nat): (h: nat)
    requires v > 0
    ensures h < NINT
  {
    (v - 1) % NINT
  }

  function NextSlot(h: nat): nat {
    if h + 1 >= NINT then 0 else h + 1
  }

  /** Steps from slot `h` to slot `z`, going round. */
  function Gap(h: nat, z: nat): nat
    requires h < NINT && z < NINT
  {
    if h <= z then z - h else z + NINT - h
  }

  /** Slot `k` is passed on the way from `h` to `j`. */
  predicate Passed(h: nat, j: nat, k: nat) {
    if h <= j then h <= k < j else k >= h || k < j
  }

  function Used(s: seq<nat>): (n: nat)
    ensures n <= |s|
  {
    if s == [] then 0 else Used(s[..|s| - 1]) + if s[|s| - 1] != 0 then 1 else 0
  }

  function Values(s: seq<nat>): set<nat> {
    set v | v in s && v != 0
  }

  /** No probe for a stored value meets an empty slot first, and no value is stored twice. */
  ghost predicate Chained(s: seq<nat>) {
    && |s| == NINT
    && (forall j, k :: 0 <= j < NINT && 0 <= k < NINT && s[j] != 0 && Passed(Home(s[j]), j, k) ==> s[k] != 0)
    && (forall j, k :: 0 <= j < k < NINT && s[j] != 0 ==> s[j] != s[k])
  }

  lemma {:induction false} UsedPut(s: seq<nat>, h: nat, v: nat)
    requires h < |s| && s[h] == 0 && v != 0
    ensures Used(s[h := v]) == Used(s) + 1
    decreases |s|
  {
    var n := |s| - 1;
    if h < n {
      assert s[h := v][..n] == s[..n][h := v];
      UsedPut(s[..n], h, v);
    } else {
      assert s[h := v][..n] == s[..n];
    }
  }

  lemma {:induction false} FreeSlot(s: seq<nat>) returns (z: nat)
    requires Used(s) < |s|
    ensures z < |s| && s[z] == 0
    decreases |s|
  {
    z := |s| - 1;
    if s[z] != 0 {
      z := FreeSlot(s[..|s| - 1]);
    }
  }

  lemma {:induction false} UsedPrefix(s: seq<nat>, n: nat)
    requires n <= |s|
    ensures Used(s[..n]) <= Used(s)
    decreases |s| - n
  {
    if n < |s| {
      UsedPrefix(s, n + 1);
      assert s[..n + 1][..n] == s[..n];
    } else {
      assert s[..n] == s;
    }
  }

  lemma {:induction false} UsedNone(s: seq<nat>)
    requires forall j :: 0 <= j < |s| ==> s[j] == 0
    ensures Used(s) == 0
    decreases |s|
  {
    if |s| > 0 {
      UsedNone(s[..|s| - 1]);
    }
  }

  /** A probe that stops at an empty slot without meeting `v` shows that `v` is not stored. */
  lemma Absent(s: seq<nat>, h: nat, v: nat)
    requires Chained(s) && v > 0 && h < NINT && s[h] == 0
    requires forall k :: 0 <= k < NINT && Passed(Home(v), h, k) ==> s[k] != v
    ensures v !in Values(s)
  {
    forall j | 0 <= j < NINT
      ensures s[j] != v
    {
      assert Passed(Home(v), h, j) || j == h || Passed(Home(v), j, h);
    }
  }

  /** Storing a new value at the end of its probe sequence. */
  lemma PutChained(s: seq<nat>, h: nat, v: nat)
    requires Chained(s) && v > 0 && h < NINT && s[h] == 0 && v !in Values(s)
    requires forall k :: 0 <= k < NINT && Passed(Home(v), h, k) ==> s[k] != 0
    ensures Chained(s[h := v]) && Values(s[h := v]) == Values(s) + {v} && Used(s[h := v]) == Used(s) + 1
  {
    UsedPut(s, h, v);
    var t := s[h := v];
    assert t[h] == v;
    forall x | x in Values(s)
      ensures x in Values(t)
    {
      var j :| 0 <= j < NINT && s[j] == x;
      assert t[j] == x;
    }
  }

  /** The probe loop: the slot that holds `v`, or the empty slot where its probe ends. */
  method Probe(s: seq<nat>, v: nat) returns (h: nat)
    requires Chained(s) && Used(s) < NINT && v > 0
    ensures h < NINT && (s[h] == v || s[h] == 0)
    ensures s[h] == v <==> v in Values(s)
    ensures forall k :: 0 <= k < NINT && Passed(Home(v), h, k) ==> s[k] != 0
  {
    ghost var z := FreeSlot(s);
    h := Home(v);
    while s[h] != 0
      invariant h < NINT
      invariant forall k :: 0 <= k < NINT && Passed(Home(v), h, k) ==> s[k] != 0 && s[k] != v
      decreases Gap(h, z)
    {
      if s[h] == v {
        return;
      }
      h := NextSlot(h);
    }
    Absent(s, h, v);
  }

  /** One value is stored again. */
  method Reinsert(s: seq<nat>, n: nat, v: nat) returns (s': seq<nat>, n': nat)
    requires Chained(s) && n == Used(s) < NINT && v > 0 && v !in Values(s)
    ensures Chained(s') && n' == Used(s') == n + 1 && Values(s') == Values(s) + {v}
  {
    var h := Probe(s, v);
    PutChained(s, h, v);
    s', n' := s[h := v], n + 1;
  }

  /** Every value but `i` is stored again in an empty table. */
  method Rebuild(aiValues: seq<nat>, i: nat) returns (aHash: seq<nat>, nSet: nat)
    requires Chained(aiValues) && Used(aiValues) <= NINT - 1
    ensures Chained(aHash) && nSet == Used(aHash) <= Used(aiValues) && Values(aHash) == Values(aiValues) - {i}
  {
    aHash, nSet := seq(NINT, k => 0), 0;
    UsedNone(aHash);
    for j := 0 to NINT
      invariant Chained(aHash) && nSet == Used(aHash) <= Used(aiValues[..j])
      invariant Values(aHash) == Values(aiValues[..j]) - {i}
    {
      NextValue(aiValues, j);
      if aiValues[j] != 0 && aiValues[j] != i {
        aHash, nSet := Reinsert(aHash, nSet, aiValues[j]);
      }
    }
    assert aiValues[..NINT] == aiValues;
  }

  /** One slot more of a table. */
  lemma NextValue(s: seq<nat>, j: nat)
    requires Chained(s) && j < NINT
    ensures Used(s[..j + 1]) == Used(s[..j]) + (if s[j] != 0 then 1 else 0) <= Used(s)
    ensures Values(s[..j + 1]) == Values(s[..j]) + if s[j] != 0 then {s[j]} else {}
    ensures s[j] !in Values(s[..j])
  {
    assert s[..j + 1] == s[..j] + [s[j]] && s[..j + 1][..j] == s[..j];
    UsedPrefix(s, j + 1);
  }

  // ----- the node -----

  /** How many bits each sub-bitmap of a tree node takes. The sum is one of `size_t`, so it does not
      wrap around for any 32-bit size. */
  function Divisor(size: nat): nat {
    Bin(size + NPTR - 1, NPTR)
  }

  lemma DivisorIs(size: nat)
    requires size > 0
    ensures Divisor(size) == (size + NPTR - 1) / NPTR > 0
  {
    BinPlace(size + NPTR - 1, NPTR);
  }

  /** A number is fixed by its bin and its place there. */
  lemma {:induction false} SamePlace(m: nat, n: nat, d: nat)
    requires d > 0 && Bin(m, d) == Bin(n, d) && Place(m, d) == Place(n, d)
    ensures m == n
    decreases m
  {
    if m >= d && n >= d {
      SamePlace(m - d, n - d, d);
    }
  }

  /** A tree's contents are those of its parts, each at its own distance. */
  ghost predicate Spread(contents: set<nat>, parts: seq<set<nat>>, d: nat, size: nat)
    requires d > 0
  {
    forall n: nat :: n < size ==>
      (n + 1 in contents <==> Bin(n, d) < |parts| && Place(n, d) + 1 in parts[Bin(n, d)])
  }

  lemma SpreadAfter(contents: set<nat>, parts: seq<set<nat>>, d: nat, size: nat, i: nat)
    requires d > 0 && Spread(contents, parts, d, size) && 1 <= i <= size && Bin(i - 1, d) < |parts|
    ensures var bin, p := Bin(i - 1, d), Place(i - 1, d) + 1;
      && Spread(contents + {i}, parts[bin := parts[bin] + {p}], d, size)
      && Spread(contents - {i}, parts[bin := parts[bin] - {p}], d, size)
  {
    forall n: nat | n < size && Bin(n, d) == Bin(i - 1, d) && Place(n, d) == Place(i - 1, d)
      ensures n == i - 1
    {
      SamePlace(n, i - 1, d);
    }
  }

  class Node {
    const iSize: nat
    var nSet: nat
    var iDivisor: nat
    // the members of the union; which one is live follows from iSize and iDivisor
    var aBitmap: seq<bv8>
    var aHash: seq<nat>
    var apSub: seq<Node?>

    ghost var Contents: set<nat>
    ghost var Parts: seq<set<nat>>    // contents of the sub-bitmaps of a tree
    ghost var Repr: set<object>

    ghost predicate Valid()
      reads this, Repr
      decreases iSize
    {
      && this in Repr && iSize < LIMIT
      && (forall v :: v in Contents ==> 1 <= v <= iSize)
      && (iSize <= NBIT ==> iDivisor == 0 && IsBitmap())
      && (iSize > NBIT && iDivisor == 0 ==> IsHash())
      && (iSize > NBIT && iDivisor != 0 ==>
            IsTree() && forall k :: 0 <= k < NPTR && apSub[k] != null ==> apSub[k].Valid())
    }

    ghost predicate IsBitmap()
      reads this
    {
      |aBitmap| == NELEM && forall i: nat :: i < NBIT ==> (Bit(aBitmap, i) <==> i + 1 in Contents)
    }

    /** At least one slot is always empty. */
    ghost predicate IsHash()
      reads this
    {
      Chained(aHash) && nSet == Used(aHash) && nSet <= NINT - 1 && Contents == Values(aHash)
    }

    /** The sub-bitmaps are smaller, separate from each other and hold the contents between them. */
    ghost predicate IsTree()
      requires this in Repr
      reads this, Repr
    {
      && 0 < iDivisor < iSize && iDivisor == Divisor(iSize) && |apSub| == NPTR
      && (forall k :: 0 <= k < NPTR && apSub[k] != null ==>
            apSub[k] in Repr && apSub[k].Repr <= Repr && this !in apSub[k].Repr && apSub[k].iSize == iDivisor)
      && (forall j, k :: 0 <= j < k < NPTR && apSub[j] != null && apSub[k] != null ==> apSub[j].Repr !! apSub[k].Repr)
      && |Parts| == NPTR && Spread(Contents, Parts, iDivisor, iSize)
      && (forall k :: 0 <= k < NPTR ==> Parts[k] == if apSub[k] == null then {} else apSub[k].Contents)
    }

    /** sqlite3BitvecCreate */
    constructor (size: nat)
      requires size < LIMIT
      ensures Valid() && fresh(Repr) && iSize == size && Contents == {}
    {
      iSize, nSet, iDivisor := size, 0, 0;
      aBitmap := seq(NELEM, i => 0);
      aHash := seq(NINT, i => 0);
      apSub := seq(NPTR, i => null);
      Contents, Parts, Repr := {}, seq(NPTR, k => {}), {this};
      new;
      UsedNone(aHash);
    }

    /** sqlite3BitvecTest */
    static method Test(p: Node?, i: nat) returns (b: bool)
      requires p != null ==> p.Valid()
      ensures b <==> p != null && i in p.Contents
    {
      if p == null || i > p.iSize || i == 0 {
        return false;
      }
      var q: Node, n: nat := p, i - 1;
      while q.iDivisor != 0
        invariant q.Valid() && n < q.iSize
        invariant n + 1 in q.Contents <==> i in p.Contents
        decreases q.iSize
      {
        var bin := n / q.iDivisor;
        BinInRange(q.iSize, n);
        BinPlace(n, q.iDivisor);
        var sub := q.apSub[bin];
        assert n + 1 in q.Contents <==> Place(n, q.iDivisor) + 1 in q.Parts[bin];
        if sub == null {
          return false;
        }
        n := n % q.iDivisor;
        q := sub;
      }
      if q.iSize <= NBIT {
        b := Bit(q.aBitmap, n);
      } else {
        var h := Probe(q.aHash, n + 1);
        b := q.aHash[h] != 0;
      }
    }

    /** sqlite3BitvecSet; the descent to a sub-bitmap is a tail call. */
    static method Set(p: Node?, i: nat)
      requires p != null ==> p.Valid() && 1 <= i <= p.iSize
      modifies if p == null then {} else p.Repr
      ensures p != null ==> p.Valid() && p.Contents == old(p.Contents) + {i} && fresh(p.Repr - old(p.Repr))
      decreases if p == null then 0 else p.iSize, 3
    {
      if p == null {
        return;
      }
      if p.iSize > NBIT && p.iDivisor != 0 {
        p.SetInTree(i);
      } else if p.iSize <= NBIT {
        BitsAfter(p.aBitmap, i - 1);
        p.aBitmap := SetBit(p.aBitmap, i - 1);
        p.Contents := p.Contents + {i};
      } else {
        p.SetInHash(i);
      }
    }

    ghost predicate Tree()
      reads this, Repr
    {
      Valid() && iSize > NBIT && iDivisor != 0
    }

    method SetInTree(i: nat)
      requires Tree() && 1 <= i <= iSize
      modifies Repr
      ensures Tree() && Contents == old(Contents) + {i} && fresh(Repr - old(Repr))
      decreases iSize, 0
    {
      var bin := (i - 1) / iDivisor;
      BinInRange(iSize, i - 1);
      BinPlace(i - 1, iDivisor);
      if apSub[bin] == null {
        AddSub(bin);
      }
      SetInSub(i, bin, (i - 1) % iDivisor);
    }

    method SetInSub(i: nat, bin: nat, place: nat)
      requires Tree() && 1 <= i <= iSize && bin < NPTR && apSub[bin] != null
      requires bin == Bin(i - 1, iDivisor) && place == Place(i - 1, iDivisor)
      modifies Repr
      ensures Tree() && Contents == old(Contents) + {i} && fresh(Repr - old(Repr))
      decreases iSize, 0, 0
    {
      var sub: Node := apSub[bin];
      SpreadAfter(Contents, Parts, iDivisor, iSize, i);
      assert sub.Contents == Parts[bin];
      Set(sub, place + 1);
      assert sub.Contents == Parts[bin] + {place + 1};
      forall k | 0 <= k < NPTR && k != bin && apSub[k] != null
        ensures apSub[k].Valid() == old(apSub[k].Valid())
        ensures apSub[k].Contents == Parts[k] && apSub[k].Repr == old(apSub[k].Repr) && apSub[k].Repr !! sub.Repr
      {
        assert old(apSub[k].Valid()) == true;
        assert old(apSub[k].Repr !! sub.Repr) && old(apSub[k] in apSub[k].Repr);
      }
      assert TreeBut(bin, sub);
      Adopt(Contents + {i}, bin, sub);
    }

    /** The node is a tree except that its record of sub-bitmap `bin` may be out of date. */
    ghost predicate TreeBut(bin: nat, sub: Node)
      reads this, Repr, sub, sub.Repr
    {
      && this in Repr && NBIT < iSize < LIMIT
      && 0 < iDivisor < iSize && iDivisor == Divisor(iSize) && |apSub| == NPTR && |Parts| == NPTR
      && bin < NPTR && apSub[bin] == sub && this !in sub.Repr && sub.Valid() && sub.iSize == iDivisor
      && (forall k :: 0 <= k < NPTR && k != bin && apSub[k] != null ==>
            && apSub[k] in Repr && apSub[k].Repr <= Repr && this !in apSub[k].Repr && apSub[k].iSize == iDivisor
            && apSub[k].Valid() && apSub[k].Repr !! sub.Repr)
      && (forall j, k :: 0 <= j < k < NPTR && j != bin && k != bin && apSub[j] != null && apSub[k] != null ==>
            apSub[j].Repr !! apSub[k].Repr)
      && (forall k :: 0 <= k < NPTR && k != bin ==> Parts[k] == if apSub[k] == null then {} else apSub[k].Contents)
    }

    /** Takes note of a change to a sub-bitmap. */
    ghost method Adopt(contents: set<nat>, bin: nat, sub: Node)
      requires TreeBut(bin, sub) && forall v :: v in contents ==> 1 <= v <= iSize
      requires Spread(contents, Parts[bin := sub.Contents], iDivisor, iSize)
      modifies this
      ensures Tree() && Contents == contents && Repr == old(Repr) + sub.Repr
    {
      Repr := Repr + sub.Repr;
      Contents := contents;
      Parts := Parts[bin := sub.Contents];
    }

    method AddSub(bin: nat)
      requires Tree() && bin < NPTR && apSub[bin] == null
      modifies this
      ensures Tree() && Contents == old(Contents) && fresh(Repr - old(Repr)) && iDivisor == old(iDivisor)
      ensures apSub[bin] != null
    {
      BinInRange(iSize, 0);
      var c := new Node(iDivisor);
      apSub := apSub[bin := c];
      Repr := Repr + c.Repr;
    }

    method SetInHash(i: nat)
      requires Valid() && iSize > NBIT && iDivisor == 0 && 1 <= i <= iSize
      modifies Repr
      ensures Valid() && Contents == old(Contents) + {i} && fresh(Repr - old(Repr))
      decreases iSize, 2
    {
      var collision := aHash[Home(i)] != 0;
      var h := Probe(aHash, i);
      if aHash[h] == i {
        return;
      }
      if (collision || nSet >= NINT - 1) && nSet >= MXHASH {
        Subdivide(i);
      } else {
        PutChained(aHash, h, i);
        nSet := nSet + 1;
        aHash := aHash[h := i];
        Contents := Contents + {i};
      }
    }

    /** The hash table is full: turn the node into a tree and insert everything again. */
    method Subdivide(i: nat)
      requires Valid() && iSize > NBIT && iDivisor == 0 && 1 <= i <= iSize
      modifies Repr
      ensures Valid() && Contents == old(Contents) + {i} && fresh(Repr - old(Repr)) && iDivisor != 0
      decreases iSize, 1
    {
      var aiValues := aHash;
      MakeTree();
      SetInTree(i);
      for j := 0 to NINT
        invariant Tree() && fresh(Repr - old(Repr))
        invariant Contents == {i} + Values(aiValues[..j])
      {
        if aiValues[j] != 0 {
          assert aiValues[j] in old(Contents);
          SetInTree(aiValues[j]);
        }
        assert aiValues[..j + 1] == aiValues[..j] + [aiValues[j]];
      }
      assert aiValues[..NINT] == aiValues;
    }

    /** An empty tree in place of the hash table. */
    method MakeTree()
      requires Valid() && iSize > NBIT
      modifies this
      ensures Tree() && Contents == {} && Repr == {this}
    {
      apSub := seq(NPTR, k => null);
      DivisorIs(iSize);
      iDivisor := (iSize + NPTR - 1) / NPTR;
      Contents, Parts, Repr := {}, seq(NPTR, k => {}), {this};
      BinInRange(iSize, 0);
    }

    /** sqlite3BitvecClear; the descent to a sub-bitmap is a tail call. */
    static method Clear(p: Node?, i: nat)
      requires p != null ==> p.Valid() && 1 <= i <= p.iSize
      modifies if p == null then {} else p.Repr
      ensures p != null ==> p.Valid() && p.Contents == old(p.Contents) - {i} && fresh(p.Repr - old(p.Repr))
      decreases if p == null then 0 else p.iSize, 1
    {
      if p == null {
        return;
      }
      if p.iDivisor != 0 {
        var bin := (i - 1) / p.iDivisor;
        BinInRange(p.iSize, i - 1);
        BinPlace(i - 1, p.iDivisor);
        if p.apSub[bin] != null {
          p.ClearInSub(i, bin, (i - 1) % p.iDivisor);
        }
      } else if p.iSize <= NBIT {
        BitsAfter(p.aBitmap, i - 1);
        p.aBitmap := ClearBit(p.aBitmap, i - 1);
        p.Contents := p.Contents - {i};
      } else {
        p.ClearInHash(i);
      }
    }

    method ClearInSub(i: nat, bin: nat, place: nat)
      requires Tree() && 1 <= i <= iSize && bin < NPTR && apSub[bin] != null
      requires bin == Bin(i - 1, iDivisor) && place == Place(i - 1, iDivisor)
      modifies Repr
      ensures Tree() && Contents == old(Contents) - {i} && fresh(Repr - old(Repr))
      decreases iSize, 0
    {
      var sub: Node := apSub[bin];
      SpreadAfter(Contents, Parts, iDivisor, iSize, i);
      assert sub.Contents == Parts[bin];
      Clear(sub, place + 1);
      assert sub.Contents == Parts[bin] - {place + 1};
      forall k | 0 <= k < NPTR && k != bin && apSub[k] != null
        ensures apSub[k].Valid() == old(apSub[k].Valid())
        ensures apSub[k].Contents == Parts[k] && apSub[k].Repr == old(apSub[k].Repr) && apSub[k].Repr !! sub.Repr
      {
        assert old(apSub[k].Valid()) == true;
        assert old(apSub[k].Repr !! sub.Repr) && old(apSub[k] in apSub[k].Repr);
      }
      assert TreeBut(bin, sub);
      Adopt(Contents - {i}, bin, sub);
    }

    /** The hash table is rebuilt without `i`. */
    method ClearInHash(i: nat)
      requires Valid() && iSize > NBIT && iDivisor == 0
      modifies this
      ensures Valid() && Contents == old(Contents) - {i} && Repr == old(Repr)
    {
      aHash, nSet := Rebuild(aHash, i);
      Contents := Contents - {i};
    }
  }

  /** Every sub-index is below NPTR and the sub-bitmaps are smaller. */
  lemma BinInRange(size: nat, n: nat)
    requires size > NBIT && n < size
    ensures var d := Divisor(size); 0 < d < size && Bin(n, d) < NPTR
  {
    DivisorIs(size);
    var d := (size + NPTR - 1) / NPTR;
    assert d * NPTR >= size;
    BinPlace(n, d);
    assert n / d < NPTR by {
      BelowProduct(n, d, NPTR);
    }
  }

  // ----- whole runs -----

  datatype Op = SetOp(i: nat) | ClearOp(i: nat)

  /** What a run of operations should leave behind. */
  function After(ops: seq<Op>): set<nat> {
    if ops == [] then {}
    else
      var before, op := After(ops[..|ops| - 1]), ops[|ops| - 1];
      if op.SetOp? then before + {op.i} else before - {op.i}
  }

  /** Any run of Set and Clear calls on in-range bits of a new bitmap, then one Test. */
  method Replay(size: nat, ops: seq<Op>, i: nat) returns (b: bool)
    requires size < LIMIT && forall k :: 0 <= k < |ops| ==> 1 <= ops[k].i <= size
    ensures b <==> i in After(ops)
  {
    var p := new Node(size);
    for k := 0 to |ops|
      invariant p.Valid() && fresh(p.Repr) && p.iSize == size && p.Contents == After(ops[..k])
    {
      match ops[k] {
        case SetOp(n) => Node.Set(p, n);
        case ClearOp(n) => Node.Clear(p, n);
      }
      assert ops[..k + 1][..k] == ops[..k];
    }
    assert ops[..|ops|] == ops;
    b := Node.Test(p, i);
  }
}
