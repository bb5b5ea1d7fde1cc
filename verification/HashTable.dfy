/** Hash tables whose buckets are contiguous runs of one doubly-linked list. */
module HashTable {
  import opened Letters

  // ----- keys -----

  function Fold(z: string): (r: string)
    ensures |r| == |z|
  {
    seq(|z|, i requires 0 <= i < |z| => Lower(z[i]))
  }

  /** Keys fold to one exactly when they are respellings of each other. */
  lemma SameFold(a: string, b: string)
    ensures Fold(a) == Fold(b) <==> Respelling(a, b)
  {
    if Fold(a) == Fold(b) {
      forall i | 0 <= i < |a|
        ensures SameLetter(a[i] as int, b[i] as int)
      {
        assert Fold(a)[i] == Fold(b)[i];
        SameLower(a[i] as int, b[i] as int);
      }
    }
    if Respelling(a, b) {
      forall i | 0 <= i < |a|
        ensures Fold(a)[i] == Fold(b)[i]
      {
        SameLower(a[i] as int, b[i] as int);
      }
    }
  }

  function Mix(h: bv32, c: char): bv32 {
    (h << 3) ^ h ^ (c as int % 256) as bv32
  }

  /** The hash of a key in lower case. */
  function HashOf(w: string): bv32 {
    if |w| == 0 then 0 else Mix(HashOf(w[..|w| - 1]), w[|w| - 1])
  }

  /** strHash folds as it goes, so keys that differ only in case have one hash. */
  method StrHash(z: string) returns (h: bv32)
    ensures h == HashOf(Fold(z))
  {
    h := 0;
    for n := 0 to |z|
      invariant h == HashOf(Fold(z)[..n])
    {
      h := Mix(h, Lower(z[n]));
      assert Fold(z)[..n + 1][..n] == Fold(z)[..n];
    }
    assert Fold(z)[..|z|] == Fold(z);
  }

  /** The bucket of a folded key. */
  function Home(hash: string -> nat, key: string, size: nat): (b: nat)
    requires size > 0
    ensures b < size
  {
    hash(key) % size
  }

  /** The hash function of the source, on folded keys. */
  function StringHash(w: string): nat {
    HashOf(w) as nat
  }

  /** The bucket as the source computes it. */
  method Bucketed(z: string, size: nat) returns (b: nat)
    requires size > 0
    ensures b == Home(StringHash, Fold(z), size)
  {
    var h := StrHash(z);
    b := h as nat % size;
  }

  // ----- where the buckets lie in the list -----

  /** Bucket `b` is exactly the run of `count[b]` elements from `start[b]`. */
  ghost predicate Layout(of: seq<nat>, count: seq<nat>, start: seq<nat>) {
    && |start| == |count|
    && (forall b :: 0 <= b < |count| ==> start[b] + count[b] <= |of|)
    && (forall b, i :: 0 <= b < |count| && 0 <= i < |of| ==> (of[i] == b <==> start[b] <= i < start[b] + count[b]))
  }

  ghost function Opened(start: seq<nat>, p: nat): (r: seq<nat>)
    ensures |r| == |start|
  {
    seq(|start|, c requires 0 <= c < |start| => if start[c] >= p then start[c] + 1 else start[c])
  }

  ghost function Closed(start: seq<nat>, p: nat): (r: seq<nat>)
    ensures |r| == |start|
  {
    seq(|start|, c requires 0 <= c < |start| => if start[c] > p then start[c] - 1 else start[c])
  }

  lemma LayoutInsert(of: seq<nat>, count: seq<nat>, start: seq<nat>, p: nat, b: nat)
    requires Layout(of, count, start) && b < |count| && p <= |of|
    requires if count[b] > 0 then p == start[b] else p == 0
    ensures Layout(Spliced(of, p, b), count[b := count[b] + 1], Opened(start, p)[b := p])
  {
    var of', count', start' := Spliced(of, p, b), count[b := count[b] + 1], Opened(start, p)[b := p];
    forall c, i | 0 <= c < |count| && 0 <= i < |of'|
      ensures of'[i] == c <==> start'[c] <= i < start'[c] + count'[c]
    {
      if i < p {
        assert of'[i] == of[i];
      } else if i > p {
        assert of'[i] == of[i - 1];
      }
      assert p < |of| ==> (of[p] == c <==> start[c] <= p < start[c] + count[c]);
    }
  }

  lemma LayoutRemove(of: seq<nat>, count: seq<nat>, start: seq<nat>, p: nat, b: nat)
    requires Layout(of, count, start) && b < |count| && p < |of| && of[p] == b
    ensures count[b] > 0
    ensures Layout(Unspliced(of, p), count[b := count[b] - 1], Closed(start, p))
  {
    assert start[b] <= p < start[b] + count[b];
    var of', count', start' := Unspliced(of, p), count[b := count[b] - 1], Closed(start, p);
    forall c, i | 0 <= c < |count| && 0 <= i < |of'|
      ensures of'[i] == c <==> start'[c] <= i < start'[c] + count'[c]
    {
      if i < p {
        assert of'[i] == of[i];
      } else {
        assert of'[i] == of[i + 1];
      }
      assert of[p] == c <==> start[c] <= p < start[c] + count[c];
    }
  }

  // ----- the linked list -----

  class Elem {
    var next: Elem?
    var prev: Elem?
    var data: nat        // zero stands for the null pointer
    var pKey: string
    ghost const folded: string    // the key without regard to case, which never changes

    constructor (key: string, data: nat)
      ensures pKey == key && this.data == data && folded == Fold(key)
    {
      next, prev, this.data, pKey, folded := null, null, data, key, Fold(key);
    }
  }

  datatype Bucket = Bucket(count: nat, chain: Elem?)

  ghost function At(list: seq<Elem>, i: int): Elem? {
    if 0 <= i < |list| then list[i] else null
  }

  ghost predicate Linked(list: seq<Elem>)
    reads list`next, list`prev
  {
    && (forall i, j :: 0 <= i < j < |list| ==> list[i] != list[j])
    && (forall i {:trigger list[i].next} :: 0 <= i < |list| ==> list[i].next == At(list, i + 1))
    && (forall i {:trigger list[i].prev} :: 0 <= i < |list| ==> list[i].prev == At(list, i - 1))
  }

  ghost function Spliced<T>(list: seq<T>, p: nat, e: T): seq<T>
    requires p <= |list|
  {
    list[..p] + [e] + list[p..]
  }

  ghost function Unspliced<T>(list: seq<T>, p: nat): seq<T>
    requires p < |list|
  {
    list[..p] + list[p + 1..]
  }

  /** Links as they are after an element was put in at `p`. */
  lemma SplicedLinked(list: seq<Elem>, p: nat, e: Elem)
    requires p <= |list| && e !in list && e.next == At(list, p) && e.prev == At(list, p - 1)
    requires forall i, j :: 0 <= i < j < |list| ==> list[i] != list[j]
    requires forall i {:trigger list[i].next} :: 0 <= i < |list| ==>
      list[i].next == (if i == p - 1 then e else At(list, i + 1))
    requires forall i {:trigger list[i].prev} :: 0 <= i < |list| ==>
      list[i].prev == (if i == p then e else At(list, i - 1))
    ensures Linked(Spliced(list, p, e))
  {
    var l := Spliced(list, p, e);
    forall i {:trigger l[i].next} | 0 <= i < |l|
      ensures l[i].next == At(l, i + 1)
    {
      assert l[i] == if i < p then list[i] else if i == p then e else list[i - 1];
    }
    forall i {:trigger l[i].prev} | 0 <= i < |l|
      ensures l[i].prev == At(l, i - 1)
    {
      assert l[i] == if i < p then list[i] else if i == p then e else list[i - 1];
    }
  }

  function Counts(ht: seq<Bucket>): (r: seq<nat>)
    ensures |r| == |ht|
  {
    seq(|ht|, b requires 0 <= b < |ht| => ht[b].count)
  }

  ghost function Homes(hash: string -> nat, list: seq<Elem>, size: nat): (r: seq<nat>)
    requires size > 0
    ensures |r| == |list|
  {
    seq(|list|, i requires 0 <= i < |list| => Home(hash, list[i].folded, size))
  }

  /** Each bucket in use points to the first element of its run. */
  ghost predicate Chains(list: seq<Elem>, ht: seq<Bucket>, start: seq<nat>) {
    |start| == |ht| && forall b :: 0 <= b < |ht| && ht[b].count > 0 ==>
      start[b] < |list| && ht[b].chain == list[start[b]]
  }

  ghost predicate Run(hash: string -> nat, list: seq<Elem>, ht: seq<Bucket>, start: seq<nat>) {
    |ht| > 0 ==> Layout(Homes(hash, list, |ht|), Counts(ht), start) && Chains(list, ht, start)
  }

  /** Where a new element of bucket `b` goes. */
  ghost function Slot(ht: seq<Bucket>, start: seq<nat>, b: nat): nat
    requires |ht| > 0 ==> b < |ht| == |start|
  {
    if |ht| > 0 && ht[b].count > 0 then start[b] else 0
  }

  function Grown(ht: seq<Bucket>, b: nat, e: Elem): (r: seq<Bucket>)
    requires |ht| > 0 ==> b < |ht|
    ensures |r| == |ht|
  {
    if |ht| > 0 then ht[b := Bucket(ht[b].count + 1, e)] else ht
  }

  lemma RunInsert(hash: string -> nat, list: seq<Elem>, ht: seq<Bucket>, start: seq<nat>, b: nat, e: Elem)
    requires |ht| > 0 && Run(hash, list, ht, start) && b == Home(hash, e.folded, |ht|)
    ensures var p := Slot(ht, start, b);
      p <= |list| && Run(hash, Spliced(list, p, e), Grown(ht, b, e), Opened(start, p)[b := p])
  {
    var p := Slot(ht, start, b);
    LayoutInsert(Homes(hash, list, |ht|), Counts(ht), start, p, b);
    assert Homes(hash, Spliced(list, p, e), |ht|) == Spliced(Homes(hash, list, |ht|), p, b);
    assert Counts(Grown(ht, b, e)) == Counts(ht)[b := ht[b].count + 1];
    ChainsInsert(list, ht, start, p, b, e);
  }

  lemma ChainsInsert(list: seq<Elem>, ht: seq<Bucket>, start: seq<nat>, p: nat, b: nat, e: Elem)
    requires |ht| > 0 && b < |ht| && Chains(list, ht, start) && p <= |list|
    ensures Chains(Spliced(list, p, e), Grown(ht, b, e), Opened(start, p)[b := p])
  {
  }

  function Shrunk(ht: seq<Bucket>, b: nat, e: Elem, next: Elem?): (r: seq<Bucket>)
    requires |ht| > 0 ==> b < |ht| && ht[b].count > 0
    ensures |r| == |ht|
  {
    if |ht| > 0 then ht[b := Bucket(ht[b].count - 1, if ht[b].chain == e then next else ht[b].chain)] else ht
  }

  lemma RunRemove(hash: string -> nat, list: seq<Elem>, ht: seq<Bucket>, start: seq<nat>, p: nat)
    requires |ht| > 0 && Run(hash, list, ht, start) && p < |list|
    requires forall i, j :: 0 <= i < j < |list| ==> list[i] != list[j]
    ensures var b := Home(hash, list[p].folded, |ht|);
      ht[b].count > 0 && Run(hash, Unspliced(list, p), Shrunk(ht, b, list[p], At(list, p + 1)), Closed(start, p))
  {
    var b := Home(hash, list[p].folded, |ht|);
    var of := Homes(hash, list, |ht|);
    LayoutRemove(of, Counts(ht), start, p, b);
    var ht' := Shrunk(ht, b, list[p], At(list, p + 1));
    assert Homes(hash, Unspliced(list, p), |ht|) == Unspliced(of, p);
    assert Counts(ht') == Counts(ht)[b := ht[b].count - 1];
    forall c | 0 <= c < |ht| && ht'[c].count > 0
      ensures Closed(start, p)[c] < |list| - 1 && ht'[c].chain == Unspliced(list, p)[Closed(start, p)[c]]
    {
      assert of[p] == c <==> start[c] <= p < start[c] + ht[c].count;
    }
  }

  /** Links as they are after the element at `p` was taken out. */
  lemma UnsplicedLinked(list: seq<Elem>, p: nat)
    requires p < |list|
    requires forall i, j :: 0 <= i < j < |list| ==> list[i] != list[j]
    requires forall i {:trigger list[i].next} :: 0 <= i < |list| && i != p ==>
      list[i].next == At(list, if i == p - 1 then p + 1 else i + 1)
    requires forall i {:trigger list[i].prev} :: 0 <= i < |list| && i != p ==>
      list[i].prev == At(list, if i == p + 1 then p - 1 else i - 1)
    ensures Linked(Unspliced(list, p))
  {
    var l := Unspliced(list, p);
    forall i {:trigger l[i].next} | 0 <= i < |l|
      ensures l[i].next == At(l, i + 1)
    {
      assert l[i] == if i < p then list[i] else list[i + 1];
    }
    forall i {:trigger l[i].prev} | 0 <= i < |l|
      ensures l[i].prev == At(l, i - 1)
    {
      assert l[i] == if i < p then list[i] else list[i + 1];
    }
  }

  class Hash {
    const hash: string -> nat    // of a folded key
    var first: Elem?
    var count: nat
    var ht: seq<Bucket>          // empty when there is no bucket array

    ghost var list: seq<Elem>
    ghost var Contents: map<string, (string, nat)>
    ghost var start: seq<nat>    // where each bucket begins in the list

    /** sqlite3HashInit */
    constructor (hash: string -> nat)
      ensures Valid() && Contents == map[] && list == []
    {
      this.hash, first, count, ht := hash, null, 0, [];
      list, start, Contents := [], [], map[];
    }

    /** The list is well formed and every bucket is a run of it. */
    ghost predicate Formed()
      reads this, list
    {
      Linked(list) && first == At(list, 0) && Run(hash, list, ht, start)
    }

    /** The pointer surgery of insertElement: `e` goes in front of `pHead`, which stands at
        `p`, or to the front of the list. */
    method Link(ghost p: nat, pHead: Elem?, e: Elem)
      requires Linked(list) && first == At(list, 0) && e !in list
      requires p <= |list| && (if pHead == null then p == 0 else pHead == At(list, p))
      modifies this`first, this`list, e`next, e`prev, list`next, list`prev
      ensures list == Spliced(old(list), p, e) && Linked(list) && first == At(list, 0)
    {
      if pHead != null {
        e.next := pHead;
        e.prev := pHead.prev;
        if pHead.prev != null {
          pHead.prev.next := e;
        } else {
          first := e;
        }
        pHead.prev := e;
      } else {
        e.next := first;
        if first != null {
          first.prev := e;
        }
        e.prev := null;
        first := e;
      }
      SplicedLinked(list, p, e);
      list := Spliced(list, p, e);
    }

    /** insertElement; without a bucket array the new element goes first. */
    method InsertElement(b: nat, e: Elem) returns (ghost p: nat)
      requires Formed() && e !in list && (|ht| > 0 ==> b == Home(hash, e.folded, |ht|))
      modifies this`first, this`ht, this`list, this`start, e`next, e`prev, list`next, list`prev
      ensures Formed() && |ht| == |old(ht)| && p <= |old(list)| && list == Spliced(old(list), p, e)
    {
      var pHead: Elem? := null;
      p := Slot(ht, start, b);
      if |ht| > 0 {
        RunInsert(hash, list, ht, start, b, e);
        if ht[b].count > 0 {
          pHead := ht[b].chain;
        }
        ht := Grown(ht, b, e);
        start := Opened(start, p)[b := p];
      }
      Link(p, pHead, e);
    }

    /** The pointer surgery of removeElementGivenHash. */
    method Unlink(ghost p: nat, e: Elem)
      requires Linked(list) && first == At(list, 0) && p < |list| && list[p] == e
      modifies this`first, this`list, list`next, list`prev
      ensures Linked(list) && first == At(list, 0) && list == Unspliced(old(list), p) && e.next == At(old(list), p + 1)
    {
      if e.prev != null {
        e.prev.next := e.next;
      } else {
        first := e.next;
      }
      if e.next != null {
        e.next.prev := e.prev;
      }
      UnsplicedLinked(list, p);
      list := Unspliced(list, p);
    }

    /** removeElementGivenHash, before the table is cleared when it becomes empty. */
    method RemoveElement(ghost p: nat, e: Elem, b: nat)
      requires Formed() && p < |list| && list[p] == e && (|ht| > 0 ==> b == Home(hash, e.folded, |ht|))
      modifies this`first, this`ht, this`list, this`start, list`next, list`prev
      ensures Formed() && |ht| == |old(ht)| && list == Unspliced(old(list), p)
    {
      if |ht| > 0 {
        RunRemove(hash, list, ht, start, p);
      }
      Unlink(p, e);
      if |ht| > 0 {
        ht := Shrunk(ht, b, e, e.next);
        start := Closed(start, p);
      }
    }

    /** rehash; `grant` is the number of buckets in the block the allocator hands out, or zero. */
    method Rehash(newSize: nat, grant: nat) returns (done: bool)
      requires Formed() && forall e :: e in list ==> Fold(e.pKey) == e.folded
      modifies this`first, this`ht, this`list, this`start, list`next, list`prev
      ensures Formed() && |list| == |old(list)| && Within(list, old(list)) && Within(old(list), list)
      ensures if done then |ht| == grant > 0 else ht == old(ht)
    {
      var size := if newSize * ENTRY_BYTES > SOFT_LIMIT then SOFT_LIMIT / ENTRY_BYTES else newSize;
      if size == |ht| || grant == 0 {
        return false;
      }
      ghost var l := list;
      var elem := first;
      StartOver(grant);
      ghost var k := 0;
      while elem != null
        invariant elem == At(l, k) && Moving(l, k) && |ht| == grant
        decreases |l| - k
      {
        elem := Move(elem, l, k);
        k := k + 1;
      }
      assert l[..|l|] == l;
      assert Within(list, l) && Within(l, list);
      done := true;
    }

    method StartOver(grant: nat)
      requires grant > 0
      modifies this`first, this`ht, this`list, this`start
      ensures Formed() && list == [] && |ht| == grant
    {
      ht, start := seq(grant, b => Bucket(0, null)), seq(grant, b => 0);
      first, list := null, [];
      assert Counts(ht) == start;
    }

    /** The first `k` elements of the old list `l` are in the new one; the others still follow each other. */
    ghost predicate Moving(l: seq<Elem>, k: nat)
      reads this, list, l
    {
      && k <= |l| && Formed() && |ht| > 0 && |list| == k
      && Within(list, l) && Within(list, l[..k]) && Within(l[..k], list)
      && (forall i, j :: 0 <= i < j < |l| ==> l[i] != l[j])
      && (forall j {:trigger l[j].next} :: k <= j < |l| ==> l[j].next == At(l, j + 1))
      && (forall j :: k <= j < |l| ==> Fold(l[j].pKey) == l[j].folded)
    }

    method Move(elem: Elem, ghost l: seq<Elem>, ghost k: nat) returns (next: Elem?)
      requires Moving(l, k) && k < |l| && elem == l[k]
      modifies this`first, this`ht, this`list, this`start, l`next, l`prev
      ensures Moving(l, k + 1) && next == At(l, k + 1) && |ht| == |old(ht)|
    {
      next := elem.next;
      var h := Hashed(elem);
      forall j | k <= j < |l|
        ensures l[j] !in list
      {
        NotYet(list, l, k, j);
      }
      ghost var before := list;
      ghost var p := InsertElement(h, elem);
      OneMore(before, l, k, p);
    }

    /** The bucket of an element. */
    method Hashed(e: Elem) returns (b: nat)
      requires |ht| > 0 && Fold(e.pKey) == e.folded
      ensures b == Home(hash, e.folded, |ht|)
    {
      b := Home(hash, Fold(e.pKey), |ht|);
    }

    /** The table represents the map `Contents` from folded keys to stored key and data. */
    ghost predicate Valid()
      reads this, list
    {
      Formed() && count == |list| && Stored(list, Contents)
    }

    /** findElementGivenHash */
    method FindElement(key: string, b: nat) returns (e: Elem?, ghost p: nat)
      requires Valid() && (|ht| > 0 ==> b == Home(hash, Fold(key), |ht|))
      ensures e == null ==> Fold(key) !in Contents
      ensures e != null ==> p < |list| && list[p] == e && e.folded == Fold(key)
    {
      var elem, n := first, count;
      ghost var i := 0;
      if |ht| > 0 {
        elem, n, i := ht[b].chain, ht[b].count, start[b];
      }
      ghost var begin, end := i, i + n;
      while n > 0
        invariant begin <= i <= end <= |list| && n == end - i && (n > 0 ==> elem == list[i])
        invariant forall j :: begin <= j < i ==> list[j].folded != Fold(key)
      {
        n := n - 1;
        if |elem.pKey| == |key| && Fold(elem.pKey) == Fold(key) {
          return elem, i;
        }
        elem := elem.next;
        i := i + 1;
      }
      if |ht| > 0 {
        ElsewhereToo(hash, list, ht, start, Fold(key));
      }
      AllFound(list, Contents.Keys);
      e, p := null, 0;
    }

    /** sqlite3HashFind; zero is the null pointer. */
    method Find(key: string) returns (data: nat)
      requires Valid()
      ensures data == if Fold(key) in Contents then Contents[Fold(key)].1 else 0
      ensures forall i :: 0 <= i < |list| && Respelling(list[i].pKey, key) ==> data == list[i].data
      ensures (forall i :: 0 <= i < |list| ==> !Respelling(list[i].pKey, key)) ==> data == 0
    {
      var b := if |ht| > 0 then Home(hash, Fold(key), |ht|) else 0;
      var e, p := FindElement(key, b);
      data := if e != null then e.data else 0;
      Respelled(list, Contents, key);
    }

    /** sqlite3HashInsert: insert, replace, or delete when `data` is zero. Whether a rehash
        succeeds (`grant`) makes no difference. */
    method Insert(key: string, data: nat, grant: nat) returns (r: nat, ghost added: seq<Elem>)
      requires Valid()
      modifies this, list
      ensures Valid() && r == if Fold(key) in old(Contents) then old(Contents)[Fold(key)].1 else 0
      ensures Contents == if data == 0 then old(Contents) - {Fold(key)} else old(Contents)[Fold(key) := (key, data)]
      ensures Within(list, old(list) + added) && forall x :: x in added ==> fresh(x)
      ensures forall i :: 0 <= i < |old(list)| && Respelling(old(list[i].pKey), key) ==> r == old(list[i].data)
    {
      Respelled(list, Contents, key);
      r, added := Store(key, data, grant);
    }

    method Store(key: string, data: nat, grant: nat) returns (r: nat, ghost added: seq<Elem>)
      requires Valid()
      modifies this, list
      ensures Valid() && r == if Fold(key) in old(Contents) then old(Contents)[Fold(key)].1 else 0
      ensures Contents == if data == 0 then old(Contents) - {Fold(key)} else old(Contents)[Fold(key) := (key, data)]
      ensures Within(list, old(list) + added) && forall x :: x in added ==> fresh(x)
    {
      var b := if |ht| > 0 then Home(hash, Fold(key), |ht|) else 0;
      var elem, p := FindElement(key, b);
      added := [];
      if elem != null {
        r := HeldData(p, elem);
        if data == 0 {
          Remove(p, elem, b);
        } else {
          Replace(p, elem, key, data);
        }
      } else {
        r := 0;
        if data != 0 {
          ghost var e := Add(key, data, grant);
          added := [e];
        }
      }
    }

    method HeldData(ghost p: nat, e: Elem) returns (data: nat)
      requires Valid() && p < |list| && list[p] == e
      ensures e.folded in Contents && data == Contents[e.folded].1
    {
      assert Held(e, Contents);
      data := e.data;
    }

    method Replace(ghost p: nat, e: Elem, key: string, data: nat)
      requires Valid() && p < |list| && list[p] == e && e.folded == Fold(key) && data != 0
      modifies this`Contents, e`data, e`pKey
      ensures Valid() && Contents == old(Contents)[e.folded := (key, data)]
    {
      ghost var c := Contents[e.folded := (key, data)];
      assert Held(e, Contents) && c.Keys == Contents.Keys;
      e.data := data;
      e.pKey := key;
      forall i | 0 <= i < |list|
        ensures Held(list[i], c)
      {
        assert i != p ==> list[i] != e && list[i].folded != e.folded && old(Held(list[i], Contents));
      }
      Contents := c;
    }

    method Remove(ghost p: nat, e: Elem, b: nat)
      requires Valid() && p < |list| && list[p] == e && (|ht| > 0 ==> b == Home(hash, e.folded, |ht|))
      modifies this, list`next, list`prev
      ensures Valid() && Contents == old(Contents) - {e.folded} && Within(list, old(list))
    {
      Detach(p, e, b);
      if count == 0 {
        EmptyContents(list, Contents);
        Clear();
      }
    }

    method Detach(ghost p: nat, e: Elem, b: nat)
      requires Valid() && p < |list| && list[p] == e && (|ht| > 0 ==> b == Home(hash, e.folded, |ht|))
      modifies this, list`next, list`prev
      ensures Valid() && Contents == old(Contents) - {e.folded} && Within(list, old(list))
    {
      ghost var rest, c := Unspliced(list, p), Contents - {e.folded};
      StoredRemove(list, p, Contents);
      RemoveElement(p, e, b);
      assert Stored(rest, c);
      UnsplicedWithin(old(list), p);
      count := count - 1;
      Contents := c;
    }

    method Add(key: string, data: nat, grant: nat) returns (ghost added: Elem)
      requires Valid() && Fold(key) !in Contents && data != 0
      modifies this, list`next, list`prev
      ensures Valid() && Contents == old(Contents)[Fold(key) := (key, data)]
      ensures fresh(added) && Within(list, old(list) + [added])
    {
      var e := new Elem(key, data);
      added := e;
      ghost var before := list;
      Grow(grant);
      ghost var between := list;
      NotWithin(list, before, e);
      var b := if |ht| > 0 then Home(hash, Fold(key), |ht|) else 0;
      Place(b, e);
      WithinChain(list, between, before, e);
    }

    /** One more element is expected; the table is enlarged when its buckets get full. */
    method Grow(grant: nat)
      requires Formed() && Stored(list, Contents)
      modifies this`count, this`first, this`ht, this`list, this`start, list`next, list`prev
      ensures Formed() && Stored(list, Contents) && |list| == |old(list)| && Within(list, old(list))
      ensures count == old(count) + 1
    {
      WithinSelf(list);
      count := count + 1;
      if count >= 10 && count > 2 * |ht| {
        Resize(count * 2, grant);
      }
    }

    method Resize(newSize: nat, grant: nat)
      requires Formed() && Stored(list, Contents)
      modifies this`first, this`ht, this`list, this`start, list`next, list`prev
      ensures Formed() && Stored(list, Contents) && |list| == |old(list)| && Within(list, old(list))
    {
      ghost var before := list;
      assert forall i :: 0 <= i < |list| ==> Held(list[i], Contents);
      var done := Rehash(newSize, grant);
      assert Stored(before, Contents);
      StoredPermuted(before, list, Contents);
    }

    method Place(b: nat, e: Elem)
      requires Formed() && Stored(list, Contents) && e !in list && (|ht| > 0 ==> b == Home(hash, e.folded, |ht|))
      requires e.folded !in Contents && Fold(e.pKey) == e.folded && e.data != 0
      modifies this`first, this`ht, this`list, this`start, this`Contents, e`next, e`prev, list`next, list`prev
      ensures Formed() && Stored(list, Contents) && |list| == |old(list)| + 1 && Within(list, old(list) + [e])
      ensures Contents == old(Contents)[e.folded := (e.pKey, e.data)]
    {
      ghost var before := list;
      ghost var p := InsertElement(b, e);
      assert Stored(before, Contents);
      StoredSpliced(before, p, e, Contents);
      SplicedMembers(before, p, e);
      Contents := Contents[e.folded := (e.pKey, e.data)];
    }

    /** sqlite3HashClear */
    method Clear()
      modifies this
      ensures Valid() && Contents == map[] && list == []
    {
      first, ht, count := null, [], 0;
      list, start, Contents := [], [], map[];
    }
  }

  /** What an element holds. */
  ghost predicate Held(e: Elem, contents: map<string, (string, nat)>)
    reads e`pKey, e`data
  {
    Fold(e.pKey) == e.folded && e.data != 0 && e.folded in contents && contents[e.folded] == (e.pKey, e.data)
  }

  ghost predicate AllHeld(list: seq<Elem>, contents: map<string, (string, nat)>)
    reads list`pKey, list`data
  {
    forall i :: 0 <= i < |list| ==> Held(list[i], contents)
  }

  ghost predicate Unlike(list: seq<Elem>) {
    forall i, j :: 0 <= i < j < |list| ==> list[i].folded != list[j].folded
  }

  /** The elements hold the map, one entry each. */
  ghost predicate Stored(list: seq<Elem>, contents: map<string, (string, nat)>)
    reads list`pKey, list`data
  {
    Unlike(list) && AllHeld(list, contents) && |contents.Keys| == |list|
  }

  /** Every entry is in some element, since there are as many of both. */
  lemma {:induction false} AllFound(list: seq<Elem>, keys: set<string>)
    requires Unlike(list) && |keys| == |list| && forall i :: 0 <= i < |list| ==> list[i].folded in keys
    ensures forall k :: k in keys ==> HasKey(list, k)
    decreases |list|
  {
    if |list| > 0 {
      var l, last := list[..|list| - 1], list[|list| - 1].folded;
      AllFound(l, keys - {last});
      forall k | k in keys
        ensures HasKey(list, k)
      {
        if k == last {
          assert list[|list| - 1].folded == k;
        } else {
          assert HasKey(l, k);
          var i :| 0 <= i < |l| && l[i].folded == k;
          assert list[i].folded == k;
        }
      }
    }
  }

  lemma EmptyContents(list: seq<Elem>, contents: map<string, (string, nat)>)
    requires Stored(list, contents) && |list| == 0
    ensures contents == map[]
  {
    assert contents.Keys == {};
  }

  lemma UnsplicedWithin<T>(list: seq<T>, p: nat)
    requires p < |list|
    ensures Within(Unspliced(list, p), list)
  {
    assert forall i :: 0 <= i < |list| - 1 ==> Unspliced(list, p)[i] == list[if i < p then i else i + 1];
  }

  lemma WithinSelf<T>(list: seq<T>)
    ensures Within(list, list)
  {
  }

  lemma NotWithin<T>(a: seq<T>, b: seq<T>, e: T)
    requires Within(a, b) && e !in b
    ensures e !in a
  {
  }

  lemma WithinChain<T>(a: seq<T>, b: seq<T>, c: seq<T>, e: T)
    requires Within(a, b + [e]) && Within(b, c)
    ensures Within(a, c + [e])
  {
  }

  lemma StoredRemove(list: seq<Elem>, p: nat, contents: map<string, (string, nat)>)
    requires Stored(list, contents) && p < |list|
    ensures Stored(Unspliced(list, p), contents - {list[p].folded})
  {
    var l, c := Unspliced(list, p), contents - {list[p].folded};
    assert Held(list[p], contents) && c.Keys == contents.Keys - {list[p].folded};
    forall i | 0 <= i < |l|
      ensures Held(l[i], c)
    {
      assert l[i] == list[if i < p then i else i + 1] && Held(l[i], contents);
    }
  }

  lemma StoredSpliced(list: seq<Elem>, p: nat, e: Elem, contents: map<string, (string, nat)>)
    requires Stored(list, contents) && e.folded !in contents && Fold(e.pKey) == e.folded && e.data != 0 && p <= |list|
    ensures Stored(Spliced(list, p, e), contents[e.folded := (e.pKey, e.data)])
  {
    var l, c := Spliced(list, p, e), contents[e.folded := (e.pKey, e.data)];
    assert c.Keys == contents.Keys + {e.folded};
    assert forall i :: 0 <= i < |list| ==> Held(list[i], contents) && list[i].folded != e.folded;
    forall i | 0 <= i < |l|
      ensures Held(l[i], c)
    {
      assert l[i] == if i < p then list[i] else if i == p then e else list[i - 1];
    }
  }

  lemma StoredPermuted(a: seq<Elem>, b: seq<Elem>, contents: map<string, (string, nat)>)
    requires Stored(a, contents) && |a| == |b| && Within(b, a) && forall i, j :: 0 <= i < j < |b| ==> b[i] != b[j]
    ensures Stored(b, contents)
  {
    forall i, j | 0 <= i < j < |b|
      ensures b[i].folded != b[j].folded
    {
      assert b[i] in a && b[j] in a;
    }
    forall i | 0 <= i < |b|
      ensures Held(b[i], contents)
    {
      assert b[i] in a;
    }
  }

  /** The elements whose keys are respellings of a key are those with its folded key. */
  lemma Respelled(list: seq<Elem>, contents: map<string, (string, nat)>, key: string)
    requires Stored(list, contents)
    ensures forall i :: 0 <= i < |list| && Respelling(list[i].pKey, key) ==>
      Fold(key) in contents && contents[Fold(key)].1 == list[i].data
    ensures Fold(key) in contents ==> exists i :: 0 <= i < |list| && Respelling(list[i].pKey, key)
  {
    forall i | 0 <= i < |list| && Respelling(list[i].pKey, key)
      ensures Fold(key) in contents && contents[Fold(key)].1 == list[i].data
    {
      assert Held(list[i], contents);
      SameFold(list[i].pKey, key);
    }
    if Fold(key) in contents {
      AllFound(list, contents.Keys);
      assert HasKey(list, Fold(key));
      var i :| 0 <= i < |list| && list[i].folded == Fold(key);
      assert Held(list[i], contents);
      SameFold(list[i].pKey, key);
    }
  }

  ghost predicate HasKey(list: seq<Elem>, k: string) {
    exists i :: 0 <= i < |list| && list[i].folded == k
  }

  /** A key that is not in its own bucket is nowhere in the list. */
  lemma ElsewhereToo(hash: string -> nat, list: seq<Elem>, ht: seq<Bucket>, start: seq<nat>, key: string)
    requires |ht| > 0 && Run(hash, list, ht, start)
    requires var b := Home(hash, key, |ht|);
      forall j :: start[b] <= j < start[b] + ht[b].count && j < |list| ==> list[j].folded != key
    ensures !HasKey(list, key)
  {
    var b := Home(hash, key, |ht|);
    forall i | 0 <= i < |list|
      ensures list[i].folded != key
    {
      assert Homes(hash, list, |ht|)[i] == b <==> start[b] <= i < start[b] + Counts(ht)[b];
    }
  }

  const ENTRY_BYTES := 16
  const SOFT_LIMIT := 1024

  ghost predicate Within<T>(a: seq<T>, b: seq<T>) {
    forall i :: 0 <= i < |a| ==> a[i] in b
  }

  lemma NotYet<T>(list: seq<T>, l: seq<T>, k: nat, j: nat)
    requires k <= j < |l| && Within(list, l[..k]) && forall i, j :: 0 <= i < j < |l| ==> l[i] != l[j]
    ensures l[j] !in list
  {
    assert l[j] !in l[..k];
  }

  lemma OneMore<T>(list: seq<T>, l: seq<T>, k: nat, p: nat)
    requires k < |l| && p <= |list| && Within(list, l) && Within(list, l[..k]) && Within(l[..k], list)
    ensures var list' := Spliced(list, p, l[k]);
      |list'| == |list| + 1 && Within(list', l) && Within(list', l[..k + 1]) && Within(l[..k + 1], list')
  {
    SplicedMembers(list, p, l[k]);
    assert l[..k + 1] == l[..k] + [l[k]];
  }

  lemma SplicedMembers<T>(list: seq<T>, p: nat, e: T)
    requires p <= |list|
    ensures |Spliced(list, p, e)| == |list| + 1
    ensures forall x :: x in Spliced(list, p, e) <==> x in list || x == e
  {
    assert list == list[..p] + list[p..];
  }

  // ----- whole runs -----

  /** One call of sqlite3HashInsert and what the allocator answers if it is asked. */
  datatype Op = Op(key: string, data: nat, grant: nat)

  /** The case-insensitive map that a run of calls describes. */
  function After(ops: seq<Op>): map<string, (string, nat)> {
    if ops == [] then map[]
    else
      var before, op := After(ops[..|ops| - 1]), ops[|ops| - 1];
      if op.data == 0 then before - {Fold(op.key)} else before[Fold(op.key) := (op.key, op.data)]
  }

  /** The answer for `key` is the data of the last call whose key is a respelling of it, and zero if
      there is none. Calls with other keys do not matter. */
  ghost predicate Answers(ops: seq<Op>, key: string, data: nat) {
    || (data == 0 && forall k :: 0 <= k < |ops| ==> !Respelling(ops[k].key, key))
    || exists k :: 0 <= k < |ops| && Respelling(ops[k].key, key) && data == ops[k].data
                   && forall j :: k < j < |ops| ==> !Respelling(ops[j].key, key)
  }

  lemma {:induction false} AfterAnswers(ops: seq<Op>, key: string)
    ensures Answers(ops, key, if Fold(key) in After(ops) then After(ops)[Fold(key)].1 else 0)
    decreases |ops|
  {
    if ops != [] {
      var n := |ops| - 1;
      var u, data := ops[..n], if Fold(key) in After(ops) then After(ops)[Fold(key)].1 else 0;
      AfterAnswers(u, key);
      SameFold(ops[n].key, key);
      if Respelling(ops[n].key, key) {
        assert data == ops[n].data;
      } else if k :| 0 <= k < n && Respelling(u[k].key, key) && data == u[k].data
                     && forall j :: k < j < n ==> !Respelling(u[j].key, key) {
        assert Respelling(ops[k].key, key) && data == ops[k].data;
        assert forall j :: k < j < n ==> ops[j] == u[j];
      } else {
        assert forall j :: 0 <= j < n ==> ops[j] == u[j];
      }
    }
  }

  /** Any run of inserts, replacements and deletions on a new table, then one lookup:
      the answer depends neither on the hash function nor on the allocator. */
  method Replay(hash: string -> nat, ops: seq<Op>, key: string) returns (data: nat)
    ensures data == if Fold(key) in After(ops) then After(ops)[Fold(key)].1 else 0
    ensures Answers(ops, key, data)
  {
    AfterAnswers(ops, key);
    var t := new Hash(hash);
    ghost var mine: seq<Elem> := [];
    for k := 0 to |ops|
      invariant t.Valid() && fresh(t) && Within(t.list, mine) && (forall x :: x in mine ==> fresh(x))
      invariant t.Contents == After(ops[..k])
    {
      assert forall x :: x in t.list ==> x in mine;
      var r, added := t.Insert(ops[k].key, ops[k].data, ops[k].grant);
      mine := mine + added;
      assert ops[..k + 1][..k] == ops[..k];
    }
    assert ops[..|ops|] == ops;
    data := t.Find(key);
  }

  /** The same with the hash function of the source. */
  method ReplayStrings(ops: seq<Op>, key: string) returns (data: nat)
    ensures Answers(ops, key, data)
  {
    data := Replay(StringHash, ops, key);
  }
}
