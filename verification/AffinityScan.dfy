/** sqlite3AffinityType: one pass over a type name with a rolling window of four bytes. */
module AffinityScan {
  import opened Letters

  /** The bytes of a C string. */
  type Byte = x: int | 1 <= x < 256 witness 1

  datatype Affinity = Integer | Text | None | Real | Numeric

  const INT: seq<int> := [105, 110, 116]
  const CHAR: seq<int> := [99, 104, 97, 114]
  const CLOB: seq<int> := [99, 108, 111, 98]
  const TEXT: seq<int> := [116, 101, 120, 116]
  const BLOB: seq<int> := [98, 108, 111, 98]
  const REAL: seq<int> := [114, 101, 97, 108]
  const FLOA: seq<int> := [102, 108, 111, 97]
  const DOUB: seq<int> := [100, 111, 117, 98]

  // ----- what the table promises -----

  predicate OccursAt(z: seq<Byte>, i: int, word: seq<int>) {
    0 <= i && i + |word| <= |z| && forall k {:trigger word[k]} :: 0 <= k < |word| ==> LowerByte(z[i + k]) == word[k]
  }

  /** The word occurs, whatever the case of its letters. */
  predicate Occurs(z: seq<Byte>, word: seq<int>)
    decreases |z|
  {
    |z| > 0 && (Ends(z, word) || Occurs(z[..|z| - 1], word))
  }

  predicate Ends(z: seq<Byte>, word: seq<int>) {
    OccursAt(z, |z| - |word|, word)
  }

  lemma {:induction false} OccursSomewhere(z: seq<Byte>, word: seq<int>)
    requires |word| > 0
    ensures Occurs(z, word) <==> exists i :: 0 <= i < |z| && OccursAt(z, i, word)
    decreases |z|
  {
    if |z| > 0 {
      var y := z[..|z| - 1];
      OccursSomewhere(y, word);
      if Occurs(y, word) {
        var i :| 0 <= i < |y| && OccursAt(y, i, word);
        assert OccursAt(z, i, word);
      }
      if i :| 0 <= i < |z| && OccursAt(z, i, word) {
        if i + |word| < |z| {
          assert OccursAt(y, i, word);
        }
      }
    }
  }

  /** The affinity of the first entry of the table that occurs. */
  function AffinityOf(z: seq<Byte>): Affinity {
    if Occurs(z, INT) then Integer
    else if Occurs(z, CHAR) || Occurs(z, CLOB) || Occurs(z, TEXT) then Text
    else if Occurs(z, BLOB) then None
    else if Occurs(z, REAL) || Occurs(z, FLOA) || Occurs(z, DOUB) then Real
    else Numeric
  }

  /** The word stands somewhere in the name, in any case. */
  ghost predicate Says(z: seq<Byte>, word: string) {
    exists i :: SaysAt(z, i, word)
  }

  ghost predicate SaysAt(z: seq<Byte>, i: int, word: string) {
    0 <= i <= |z| - |word| && forall k :: 0 <= k < |word| ==> SameLetter(z[i + k], word[k] as int)
  }

  lemma OccursSays(z: seq<Byte>, word: seq<int>, name: string)
    requires |word| == |name| > 0 && forall k :: 0 <= k < |word| ==> 97 <= word[k] == name[k] as int <= 122
    ensures Occurs(z, word) <==> Says(z, name)
  {
    OccursSomewhere(z, word);
    forall i | 0 <= i <= |z| - |word|
      ensures OccursAt(z, i, word) <==> SaysAt(z, i, name)
    {
      forall k | 0 <= k < |word|
        ensures LowerByte(z[i + k]) == word[k] <==> SameLetter(z[i + k], name[k] as int)
      {
        SameLower(z[i + k], word[k]);
      }
    }
    if Says(z, name) {
      var i :| SaysAt(z, i, name);
      assert OccursAt(z, i, word);
    }
    if i :| 0 <= i < |z| && OccursAt(z, i, word) {
      assert SaysAt(z, i, name);
    }
  }

  /** The rules of the documentation, in their order. */
  lemma Declared(z: seq<Byte>)
    ensures AffinityOf(z) == Integer <==> Says(z, "int")
    ensures AffinityOf(z) == Text <==> !Says(z, "int") && (Says(z, "char") || Says(z, "clob") || Says(z, "text"))
    ensures AffinityOf(z) == None <==> AffinityOf(z) != Integer && AffinityOf(z) != Text && Says(z, "blob")
    ensures AffinityOf(z) == Real <==>
      && AffinityOf(z) != Integer && AffinityOf(z) != Text && AffinityOf(z) != None
      && (Says(z, "real") || Says(z, "floa") || Says(z, "doub"))
  {
    OccursSays(z, INT, "int");
    OccursSays(z, CHAR, "char");
    OccursSays(z, CLOB, "clob");
    OccursSays(z, TEXT, "text");
    OccursSays(z, BLOB, "blob");
    OccursSays(z, REAL, "real");
    OccursSays(z, FLOA, "floa");
    OccursSays(z, DOUB, "doub");
  }

  // ----- the window -----

  const MODULUS := 0x1_0000_0000

  function Pack(a: int, b: int, c: int, d: int): int {
    a * 0x100_0000 + b * 0x1_0000 + c * 0x100 + d
  }

  function PackWord(word: seq<int>): int
    requires |word| == 4
  {
    Pack(word[0], word[1], word[2], word[3])
  }

  /** Byte `k` from the end, or zero before the beginning. */
  function Back(z: seq<Byte>, k: nat): (b: int)
    ensures 0 <= b < 256
  {
    if k < |z| then LowerByte(z[|z| - 1 - k]) else 0
  }

  /** The rolling value after a text. */
  function Window(z: seq<Byte>): int {
    if |z| == 0 then 0 else (Window(z[..|z| - 1]) * 256 + LowerByte(z[|z| - 1])) % MODULUS
  }

  /** It holds the last four bytes. */
  lemma {:induction false} WindowIs(z: seq<Byte>)
    ensures Window(z) == Pack(Back(z, 3), Back(z, 2), Back(z, 1), Back(z, 0))
    decreases |z|
  {
    if |z| > 0 {
      var y := z[..|z| - 1];
      WindowIs(y);
      assert Back(z, 3) == Back(y, 2) && Back(z, 2) == Back(y, 1) && Back(z, 1) == Back(y, 0);
      Shifted(Back(y, 3), Back(z, 3), Back(z, 2), Back(z, 1), Back(z, 0));
    }
  }

  lemma Shifted(a: int, b: int, c: int, d: int, e: int)
    requires 0 <= a && 0 <= b < 256 && 0 <= c < 256 && 0 <= d < 256 && 0 <= e < 256
    ensures (Pack(a, b, c, d) * 256 + e) % MODULUS == Pack(b, c, d, e)
  {
  }

  lemma PackSame(a: int, b: int, c: int, d: int, e: int, f: int, g: int, h: int)
    requires 0 <= a < 256 && 0 <= b < 256 && 0 <= c < 256 && 0 <= d < 256
    requires 0 <= e < 256 && 0 <= f < 256 && 0 <= g < 256 && 0 <= h < 256
    ensures Pack(a, b, c, d) == Pack(e, f, g, h) <==> a == e && b == f && c == g && d == h
    ensures Pack(a, b, c, d) % 0x100_0000 == Pack(0, b, c, d)
  {
  }

  /** The window holds a word of four letters exactly when the text ends with it. */
  lemma WindowEnds(z: seq<Byte>, word: seq<int>)
    requires |word| == 4 && forall k :: 0 <= k < 4 ==> 0 < word[k] < 256
    ensures Window(z) == PackWord(word) <==> Ends(z, word)
  {
    WindowIs(z);
    PackSame(Back(z, 3), Back(z, 2), Back(z, 1), Back(z, 0), word[0], word[1], word[2], word[3]);
    if Ends(z, word) {
      assert forall k :: 0 <= k < 4 ==> LowerByte(z[|z| - 4 + k]) == word[k];
    }
  }

  lemma WindowInt(z: seq<Byte>)
    ensures Window(z) % 0x100_0000 == Pack(0, INT[0], INT[1], INT[2]) <==> Ends(z, INT)
  {
    WindowIs(z);
    PackSame(Back(z, 3), Back(z, 2), Back(z, 1), Back(z, 0), 0, INT[0], INT[1], INT[2]);
    PackSame(0, Back(z, 2), Back(z, 1), Back(z, 0), 0, INT[0], INT[1], INT[2]);
    if Ends(z, INT) {
      assert forall k :: 0 <= k < 3 ==> LowerByte(z[|z| - 3 + k]) == INT[k];
    }
  }

  /** A word occurs in a longer text if it occurred before or the text ends with it. */
  lemma OccursNext(z: seq<Byte>, c: Byte, word: seq<int>)
    ensures Occurs(z + [c], word) <==> Occurs(z, word) || Ends(z + [c], word)
  {
    assert (z + [c])[..|z|] == z;
  }

  /** The branches of the loop body, on the window. */
  function Branch(h: int, aff: Affinity): Affinity {
    if h == 0x63686172 || h == 0x636C6F62 || h == 0x74657874 then Text                              // char clob text
    else if h == 0x626C6F62 && (aff == Numeric || aff == Real) then None                             // blob
    else if (h == 0x7265616C || h == 0x666C6F61 || h == 0x646F7562) && aff == Numeric then Real      // real floa doub
    else if h % 0x100_0000 == 0x696E74 then Integer                                                  // int
    else aff
  }

  /** One more byte changes the affinity as the table says. */
  lemma BranchIs(z: seq<Byte>, c: Byte)
    requires !Occurs(z, INT)
    ensures Branch(Window(z + [c]), AffinityOf(z)) == AffinityOf(z + [c])
    ensures AffinityOf(z + [c]) == Integer <==> Ends(z + [c], INT)
  {
    WindowAll(z + [c], Window(z + [c]));
    OneWord(z + [c]);
    AllNext(z, c);
  }

  /** The constants of the source stand for the words. */
  lemma WindowAll(y: seq<Byte>, h: int)
    requires h == Window(y)
    ensures h == 0x63686172 <==> Ends(y, CHAR)
    ensures h == 0x636C6F62 <==> Ends(y, CLOB)
    ensures h == 0x74657874 <==> Ends(y, TEXT)
    ensures h == 0x626C6F62 <==> Ends(y, BLOB)
    ensures h == 0x7265616C <==> Ends(y, REAL)
    ensures h == 0x666C6F61 <==> Ends(y, FLOA)
    ensures h == 0x646F7562 <==> Ends(y, DOUB)
    ensures h % 0x100_0000 == 0x696E74 <==> Ends(y, INT)
  {
    Words();
    WindowEnds(y, CHAR);
    WindowEnds(y, CLOB);
    WindowEnds(y, TEXT);
    WindowEnds(y, BLOB);
    WindowEnds(y, REAL);
    WindowEnds(y, FLOA);
    WindowEnds(y, DOUB);
    WindowInt(y);
  }

  lemma Words()
    ensures PackWord(CHAR) == 0x63686172 && PackWord(CLOB) == 0x636C6F62 && PackWord(TEXT) == 0x74657874
    ensures PackWord(BLOB) == 0x626C6F62 && PackWord(REAL) == 0x7265616C && PackWord(FLOA) == 0x666C6F61
    ensures PackWord(DOUB) == 0x646F7562 && Pack(0, INT[0], INT[1], INT[2]) == 0x696E74
  {
  }

  lemma AllNext(z: seq<Byte>, c: Byte)
    ensures forall w :: w in {INT, CHAR, CLOB, TEXT, BLOB, REAL, FLOA, DOUB} ==>
      (Occurs(z + [c], w) <==> Occurs(z, w) || Ends(z + [c], w))
  {
    forall w | w in {INT, CHAR, CLOB, TEXT, BLOB, REAL, FLOA, DOUB}
      ensures Occurs(z + [c], w) <==> Occurs(z, w) || Ends(z + [c], w)
    {
      OccursNext(z, c, w);
    }
  }

  /** No two words of the table end at the same place. */
  lemma OneWord(y: seq<Byte>)
    ensures Ends(y, INT) ==>
      !Ends(y, CHAR) && !Ends(y, CLOB) && !Ends(y, TEXT) && !Ends(y, BLOB) && !Ends(y, REAL) && !Ends(y, FLOA) &&
        !Ends(y, DOUB)
    ensures Ends(y, BLOB) ==>
      !Ends(y, CHAR) && !Ends(y, CLOB) && !Ends(y, TEXT) && !Ends(y, REAL) && !Ends(y, FLOA) && !Ends(y, DOUB)
  {
    EndsBack(y, INT);
    EndsBack(y, CHAR);
    EndsBack(y, CLOB);
    EndsBack(y, TEXT);
    EndsBack(y, BLOB);
    EndsBack(y, REAL);
    EndsBack(y, FLOA);
    EndsBack(y, DOUB);
  }

  lemma EndsBack(y: seq<Byte>, word: seq<int>)
    requires |word| >= 3
    ensures Ends(y, word) ==>
      Back(y, 0) == word[|word| - 1] && Back(y, 1) == word[|word| - 2] && Back(y, 2) == word[|word| - 3]
    ensures Ends(y, word) && |word| >= 4 ==> Back(y, 3) == word[|word| - 4]
  {
    var n, k := |y|, |word|;
    if Ends(y, word) {
      assert LowerByte(y[n - k + (k - 1)]) == word[k - 1] && LowerByte(y[n - k + (k - 2)]) == word[k - 2] &&
        LowerByte(y[n - k + (k - 3)]) == word[k - 3];
      assert k >= 4 ==> LowerByte(y[n - k + (k - 4)]) == word[k - 4];
    }
  }

  lemma {:induction false} StillOccurs(z: seq<Byte>, n: nat, word: seq<int>)
    requires n <= |z| && Occurs(z[..n], word)
    ensures Occurs(z, word)
    decreases |z| - n
  {
    if n < |z| {
      assert z[..n + 1][..n] == z[..n];
      StillOccurs(z, n + 1, word);
    } else {
      assert z[..n] == z;
    }
  }

  /** One turn of the loop. */
  lemma Turn(z: seq<Byte>, n: nat)
    requires n < |z| && AffinityOf(z[..n]) != Integer
    ensures (Window(z[..n]) * 256 + LowerByte(z[n])) % MODULUS == Window(z[..n + 1])
    ensures Branch(Window(z[..n + 1]), AffinityOf(z[..n])) == AffinityOf(z[..n + 1])
  {
    assert z[..n + 1] == z[..n] + [z[n]] && z[..n + 1][..n] == z[..n];
    BranchIs(z[..n], z[n]);
  }

  /** Nothing takes priority over INT. */
  lemma Settled(z: seq<Byte>, n: nat)
    requires n <= |z| && AffinityOf(z[..n]) == Integer
    ensures AffinityOf(z) == Integer
  {
    StillOccurs(z, n, INT);
  }

  /** sqlite3AffinityType */
  method AffinityType(zIn: seq<Byte>) returns (aff: Affinity)
    ensures aff == AffinityOf(zIn)
  {
    var h, n := 0, 0;
    aff := Numeric;
    Nothing(zIn);
    while n < |zIn|
      invariant n <= |zIn| && h == Window(zIn[..n]) && aff == AffinityOf(zIn[..n]) && aff != Integer
    {
      Turn(zIn, n);
      h := (h * 256 + LowerByte(zIn[n])) % MODULUS;
      n := n + 1;
      aff := Branch(h, aff);
      if aff == Integer {
        Settled(zIn, n);
        return;
      }
    }
    assert zIn[..n] == zIn;
  }

  lemma Nothing(z: seq<Byte>)
    ensures Window(z[..0]) == 0 && AffinityOf(z[..0]) == Numeric
  {
  }
}
