/** Index records are stored with the rowid cut out of the key: splitIndexKey and joinIndexKey. */
module IndexKey {
  import opened Arithmetic

  type Byte = x: int | 0 <= x < 256

  // ----- varints of the database file format -----

  /** The leading bytes of a varint, each with the continuation bit. */
  function High(v: nat): seq<Byte> {
    if v == 0 then [] else High(v / 128) + [v % 128 + 128]
  }

  function Varint(v: nat): (r: seq<Byte>)
    ensures |r| >= 1
  {
    High(v / 128) + [v % 128]
  }

  /** The value of the varint at the front of `s`, continuing from `acc`. */
  function Decode(s: seq<Byte>, acc: nat): nat
    decreases |s|
  {
    if |s| == 0 then acc
    else if s[0] < 128 then acc * 128 + s[0]
    else Decode(s[1..], acc * 128 + s[0] - 128)
  }

  lemma {:induction false} DecodeHigh(v: nat, rest: seq<Byte>, acc: nat)
    requires acc == 0
    ensures Decode(High(v) + rest, acc) == Decode(rest, v)
    decreases v
  {
    if v == 0 {
      assert High(v) + rest == rest;
    } else {
      var b: Byte := v % 128 + 128;
      assert High(v) == High(v / 128) + [b];
      assert High(v) + rest == High(v / 128) + ([b] + rest);
      DecodeHigh(v / 128, [b] + rest, acc);
      assert ([b] + rest)[1..] == rest;
      assert v == v / 128 * 128 + v % 128;
    }
  }

  lemma DecodeVarint(v: nat, rest: seq<Byte>)
    ensures Decode(Varint(v) + rest, 0) == v
  {
    assert Varint(v) + rest == High(v / 128) + ([v % 128] + rest);
    DecodeHigh(v / 128, [v % 128] + rest, 0);
    assert v == v / 128 * 128 + v % 128;
  }

  /** The next larger number needs at most one more byte. */
  lemma {:induction false} HighGrows(a: nat, b: nat)
    requires a <= b <= a + 1
    ensures |High(a)| <= |High(b)| <= |High(a)| + 1
    decreases b
  {
    if a > 0 {
      HighGrows(a / 128, b / 128);
    } else if b == 1 {
      assert High(0) == [] && b / 128 == 0;
    }
  }

  lemma VarintGrows(v: nat)
    requires v > 0
    ensures |Varint(v - 1)| <= |Varint(v)| <= |Varint(v - 1)| + 1
  {
    HighGrows((v - 1) / 128, v / 128);
  }

  // ----- the length of a header -----

  /** The header length that a record writer chooses for `n` bytes of serial types. */
  function HeaderSize(n: nat): nat {
    var h := n + |Varint(n)|;
    if |Varint(n)| < |Varint(h)| then h + 1 else h
  }

  lemma {:induction false} HighMonotone(a: nat, b: nat)
    requires a <= b
    ensures |High(a)| <= |High(b)|
    decreases b
  {
    if a > 0 {
      DivMonotone(a, b, 128);
      HighMonotone(a / 128, b / 128);
    }
  }

  lemma VarintMonotone(a: nat, b: nat)
    requires a <= b
    ensures |Varint(a)| <= |Varint(b)|
  {
    DivMonotone(a, b, 128);
    HighMonotone(a / 128, b / 128);
  }

  lemma {:induction false} HighShort(n: nat)
    ensures |High(n)| <= n
    decreases n
  {
    if n > 0 {
      HighShort(n / 128);
    }
  }

  /** A number that is not too much larger needs at most one more byte. */
  lemma OneByteMore(n: nat, m: nat)
    requires n > 0 && m <= n + |Varint(n)| + 1
    ensures |Varint(m)| <= |Varint(n)| + 1
  {
    HighShort(n);
    assert |High(n)| == |Varint(n)| && 128 * n / 128 == n;
    VarintMonotone(m, 128 * n);
  }

  /** A written header length counts itself, and is never the first number of a new width. */
  lemma HeaderCanonical(n: nat)
    requires n > 0
    ensures var h := HeaderSize(n); h == |Varint(h)| + n && |Varint(h - 1)| == |Varint(h)|
  {
    if |Varint(n)| < |Varint(n + |Varint(n)|)| {
      HeaderWider(n, n + |Varint(n)|);
    } else {
      HeaderSame(n, n + |Varint(n)|);
    }
  }

  lemma HeaderWider(n: nat, h: nat)
    requires n > 0 && h == n + |Varint(n)| && |Varint(n)| < |Varint(h)|
    ensures HeaderSize(n) == h + 1 == |Varint(h + 1)| + n && |Varint(h)| == |Varint(h + 1)|
  {
    Widths(n, h);
  }

  lemma HeaderSame(n: nat, h: nat)
    requires n > 0 && h == n + |Varint(n)| && |Varint(n)| >= |Varint(h)|
    ensures HeaderSize(n) == h == |Varint(h)| + n && |Varint(h - 1)| == |Varint(h)|
  {
    Widths(n, h);
  }

  lemma Widths(n: nat, h: nat)
    requires n > 0 && h == n + |Varint(n)|
    ensures |Varint(n)| <= |Varint(h - 1)| <= |Varint(h)| <= |Varint(h + 1)| <= |Varint(n)| + 1
  {
    VarintMonotone(n, h - 1);
    VarintMonotone(h - 1, h);
    VarintMonotone(h, h + 1);
    OneByteMore(n, h + 1);
  }

  // ----- the two operations -----

  const SERIAL_SIZES: seq<nat> := [0, 1, 2, 3, 4, 6, 8, 8, 0, 0, 0, 0]

  /** sqlite3VdbeSerialTypeLen */
  function SerialTypeLen(t: nat): nat {
    if t >= 12 then (t - 12) / 2 else SERIAL_SIZES[t]
  }

  /** NULL and the constants 0 and 1 take no room; integers take 1, 2, 3, 4, 6 or 8 bytes and reals 8;
      blobs and texts say how long they are. */
  lemma SerialLengths(n: nat)
    ensures SerialTypeLen(0) == SerialTypeLen(8) == SerialTypeLen(9) == 0
    ensures SerialTypeLen(1) == 1 && SerialTypeLen(2) == 2 && SerialTypeLen(3) == 3 && SerialTypeLen(4) == 4
    ensures SerialTypeLen(5) == 6 && SerialTypeLen(6) == SerialTypeLen(7) == 8
    ensures SerialTypeLen(12 + 2 * n) == SerialTypeLen(13 + 2 * n) == n
  {
  }

  /** An index record: header length, serial types, the type of the rowid, columns, rowid. */
  datatype Entry = Entry(h: nat, types: seq<Byte>, rowidType: Byte, columns: seq<Byte>, rowid: seq<Byte>)

  ghost predicate WellFormed(e: Entry) {
    e.h == |Varint(e.h)| + |e.types| + 1 && e.rowidType < 128 && |e.rowid| == SerialTypeLen(e.rowidType)
  }

  function Bytes(e: Entry): seq<Byte> {
    Varint(e.h) + e.types + [e.rowidType] + e.columns + e.rowid
  }

  /** `b` with the bytes from `at` on overwritten by `w`. */
  function Overwritten(b: seq<Byte>, at: nat, w: seq<Byte>): (r: seq<Byte>)
    requires at + |w| <= |b|
    ensures |r| == |b|
  {
    b[..at] + w + b[at + |w|..]
  }

  method PutVarint(a: array<Byte>, at: nat, v: nat)
    requires at + |Varint(v)| <= a.Length
    modifies a
    ensures a[..] == Overwritten(old(a[..]), at, Varint(v))
  {
    var w := Varint(v);
    for i := 0 to |w|
      invariant forall j :: 0 <= j < a.Length ==> a[j] == if at <= j < at + i then w[j - at] else old(a[..])[j]
    {
      a[at + i] := w[i];
    }
  }

  method GetVarint(a: array<Byte>, at: nat) returns (v: nat)
    requires at <= a.Length
    ensures v == Decode(a[at..], 0)
  {
    var i := at;
    v := 0;
    while i < a.Length && a[i] >= 128
      invariant at <= i <= a.Length && Decode(a[at..], 0) == Decode(a[i..], v)
    {
      assert a[i..][1..] == a[i + 1..];
      v := v * 128 + a[i] - 128;
      i := i + 1;
    }
    if i < a.Length {
      v := v * 128 + a[i];
    }
  }

  /** The key that is stored: the header is shortened in place. */
  ghost function SplitKey(e: Entry): seq<Byte>
    requires WellFormed(e)
  {
    VarintGrows(e.h);
    Overwritten(Varint(e.h) + e.types + e.columns, 0, Varint(e.h - 1))
  }

  function SplitData(e: Entry): seq<Byte> {
    [e.rowidType] + e.rowid
  }

  /** The shortened key is a record of the columns alone if and only if the header length keeps its width. */
  lemma SplitKeyIs(e: Entry)
    requires WellFormed(e)
    ensures SplitKey(e) == Varint(e.h - 1) + (e.types + e.columns) <==> |Varint(e.h - 1)| == |Varint(e.h)|
  {
    VarintGrows(e.h);
    assert Varint(e.h) + e.types + e.columns == Varint(e.h) + (e.types + e.columns);
    SameWidth(Varint(e.h), Varint(e.h - 1), e.types + e.columns);
  }

  /** A record whose header length was computed by the rule for new records splits into a record. */
  lemma SplitCanonical(e: Entry)
    requires WellFormed(e) && e.h == HeaderSize(|e.types| + 1)
    ensures SplitKey(e) == Varint(e.h - 1) + (e.types + e.columns)
  {
    HeaderCanonical(|e.types| + 1);
    SplitKeyIs(e);
  }

  lemma SameWidth(v: seq<Byte>, w: seq<Byte>, rest: seq<Byte>)
    requires |w| <= |v|
    ensures Overwritten(v + rest, 0, w) == w + rest <==> |w| == |v|
  {
    assert |Overwritten(v + rest, 0, w)| == |v| + |rest|;
    assert |w| == |v| ==> (v + rest)[|w|..] == rest;
  }

  lemma OverwrittenFront(x: seq<Byte>, y: seq<Byte>, w: seq<Byte>)
    requires |w| <= |x|
    ensures Overwritten(x + y, 0, w) == Overwritten(x, 0, w) + y && Overwritten(x, 0, w) == w + x[|w|..]
  {
    assert (x + y)[|w|..] == x[|w|..] + y;
  }

  lemma Parts(e: Entry)
    requires WellFormed(e)
    ensures |Bytes(e)| == e.h + |e.columns| + |e.rowid|
    ensures Decode(Bytes(e), 0) == e.h && Decode(Bytes(e)[e.h - 1..], 0) == e.rowidType
  {
    var b := Bytes(e);
    assert b == Varint(e.h) + (e.types + [e.rowidType] + e.columns + e.rowid);
    DecodeVarint(e.h, e.types + [e.rowidType] + e.columns + e.rowid);
    assert b[e.h - 1] == e.rowidType;
  }

  /** The columns move down by one byte and the rowid type is put behind them. */
  method MoveColumns(a: array<Byte>, hdrSize: nat, keySize: nat, rowidType: Byte, ghost head: seq<Byte>,
      ghost columns: seq<Byte>, ghost rowid: seq<Byte>)
    requires a[..] == head + [rowidType] + columns + rowid && hdrSize == |head| + 1 && keySize == |head| + |columns|
    modifies a
    ensures a[..] == head + columns + ([rowidType] + rowid)
  {
    ghost var b := a[..];
    assert forall i :: 0 <= i < |columns| ==> b[hdrSize + i] == columns[i];
    assert forall i :: 0 <= i < |rowid| ==> b[keySize + 1 + i] == rowid[i];
    forall i | hdrSize - 1 <= i < keySize {
      a[i] := a[i + 1];
    }
    a[keySize] := rowidType;
  }

  /** splitIndexKey, in the buffer of the record; the data is the tail of the buffer. */
  method SplitIndexKey(a: array<Byte>, ghost e: Entry) returns (keySize: nat, dataSize: nat)
    requires WellFormed(e) && a[..] == Bytes(e)
    modifies a
    ensures keySize + dataSize == a.Length && a[..keySize] == SplitKey(e) && a[keySize..] == SplitData(e)
  {
    Parts(e);
    assert a[0..] == a[..] && a[e.h - 1..] == a[..][e.h - 1..];
    var hdrSize := GetVarint(a, 0);
    var rowidType := GetVarint(a, hdrSize - 1);
    dataSize := SerialTypeLen(rowidType) + 1;
    keySize := a.Length - dataSize;
    MoveColumns(a, hdrSize, keySize, rowidType, Varint(e.h) + e.types, e.columns, e.rowid);
    VarintGrows(e.h);
    PutVarint(a, 0, hdrSize - 1);
    Tail(e, a[..], keySize);
  }

  lemma Tail(e: Entry, b: seq<Byte>, k: nat)
    requires WellFormed(e) && |Varint(e.h - 1)| <= |Varint(e.h)| && k == e.h - 1 + |e.columns|
    requires b == Overwritten(Varint(e.h) + e.types + e.columns + SplitData(e), 0, Varint(e.h - 1))
    ensures b[..k] == SplitKey(e) && b[k..] == SplitData(e)
  {
    OverwrittenFront(Varint(e.h) + e.types + e.columns, SplitData(e), Varint(e.h - 1));
    assert b == SplitKey(e) + SplitData(e) && |SplitKey(e)| == k;
  }

  /** joinIndexKey, into a new buffer. */
  method JoinIndexKey(key: array<Byte>, data: array<Byte>, ghost e: Entry) returns (newKey: array<Byte>)
    requires WellFormed(e) && key[..] == SplitKey(e) && data[..] == SplitData(e)
    ensures fresh(newKey) && newKey[..] == Bytes(e)
  {
    KeyHeader(e);
    assert key[0..] == key[..];
    var hdrSize := GetVarint(key, 0);
    newKey := Interleave(key, hdrSize, data);
    assert SplitData(e)[1..] == e.rowid;
    Joined(e, newKey[..]);
    PutVarint(newKey, 0, hdrSize + 1);
  }

  /** An entry is stored as key and data and read back: the record comes back byte for byte. */
  method SplitAndJoin(a: array<Byte>, ghost e: Entry) returns (b: array<Byte>)
    requires WellFormed(e) && a[..] == Bytes(e)
    modifies a
    ensures fresh(b) && b[..] == old(a[..])
  {
    var keySize, dataSize := SplitIndexKey(a, e);
    var key, data := new Byte[keySize](i => 0), new Byte[dataSize](i => 0);
    forall i | 0 <= i < keySize {
      key[i] := a[i];
    }
    forall i | 0 <= i < dataSize {
      data[i] := a[keySize + i];
    }
    assert key[..] == a[..keySize] && data[..] == a[keySize..];
    b := JoinIndexKey(key, data, e);
  }

  /** The copies of joinIndexKey: the first data byte goes between header and columns, the rest behind. */
  method Interleave(key: array<Byte>, hdrSize: nat, data: array<Byte>) returns (newKey: array<Byte>)
    requires hdrSize <= key.Length && data.Length > 0
    ensures fresh(newKey) && newKey[..] == key[..][..hdrSize] + [data[0]] + key[..][hdrSize..] + data[..][1..]
  {
    var n := key.Length;
    newKey := new Byte[n + data.Length](i => 0);
    forall i | 0 <= i < hdrSize {
      newKey[i] := key[i];
    }
    forall i | hdrSize <= i < n {
      newKey[i + 1] := key[i];
    }
    forall i | 1 <= i < data.Length {
      newKey[n + i] := data[i];
    }
    newKey[hdrSize] := data[0];
  }

  lemma KeyHeader(e: Entry)
    requires WellFormed(e)
    ensures Decode(SplitKey(e), 0) == e.h - 1 && |SplitKey(e)| == e.h - 1 + |e.columns|
  {
    VarintGrows(e.h);
    KeyFront(e, Varint(e.h), Varint(e.h - 1));
    DecodeVarint(e.h - 1, (Varint(e.h) + (e.types + e.columns))[|Varint(e.h - 1)|..]);
  }

  /** The key begins with its shorter header length. */
  lemma KeyFront(e: Entry, x: seq<Byte>, w: seq<Byte>)
    requires WellFormed(e) && x == Varint(e.h) && w == Varint(e.h - 1) && |w| <= |x|
    ensures SplitKey(e) == w + (x + (e.types + e.columns))[|w|..]
  {
    assert x + e.types + e.columns == x + (e.types + e.columns);
  }

  lemma FrontHeader(x: seq<Byte>, y: seq<Byte>, v: nat)
    requires |Varint(v)| <= |x|
    ensures |Varint(v)| <= |x + y| && Decode(Overwritten(x + y, 0, Varint(v)), 0) == v
  {
    DecodeFront(x + y, v);
  }

  lemma DecodeFront(x: seq<Byte>, v: nat)
    requires |Varint(v)| <= |x|
    ensures Decode(Overwritten(x, 0, Varint(v)), 0) == v
  {
    OverwrittenFront(x, [], Varint(v));
    DecodeVarint(v, x[|Varint(v)|..]);
  }

  lemma Joined(e: Entry, b: seq<Byte>)
    requires WellFormed(e)
    requires var k := SplitKey(e); e.h - 1 <= |k| && b == k[..e.h - 1] + [e.rowidType] + k[e.h - 1..] + e.rowid
    ensures |Varint(e.h)| <= |b| && Overwritten(b, 0, Varint(e.h)) == Bytes(e)
  {
    VarintGrows(e.h);
    Rebuilt(Varint(e.h), Varint(e.h - 1), e.types, e.rowidType, e.columns, e.rowid);
  }

  /** Whatever the front was overwritten with, writing it again restores the record. */
  lemma Rebuilt(v: seq<Byte>, w: seq<Byte>, types: seq<Byte>, t: Byte, columns: seq<Byte>, rowid: seq<Byte>)
    requires |w| <= |v|
    ensures var k, n := Overwritten(v + types + columns, 0, w), |v| + |types|;
      Overwritten(k[..n] + [t] + k[n..] + rowid, 0, v) == v + types + [t] + columns + rowid
  {
    var x, n := v + types + columns, |v| + |types|;
    var k := Overwritten(x, 0, w);
    assert forall i :: |v| <= i < |x| ==> k[i] == x[i];
    assert k[n..] == x[n..] && k[|v|..n] == x[|v|..n];
    assert x[n..] == columns && x[|v|..n] == types;
    var b := k[..n] + [t] + k[n..] + rowid;
    assert b[|v|..] == types + [t] + columns + rowid;
  }
}
