/** sqlite3UpperToLower: only ASCII letters fold. */
module Letters {
  function LowerByte(b: int): int {
    if 65 <= b <= 90 then b + 32 else b
  }

  function Lower(c: char): char {
    LowerByte(c as int) as char
  }

  // ----- what folding means -----

  /** One code, or an ASCII capital and its small letter. */
  predicate SameLetter(b: int, c: int) {
    b == c || (65 <= b <= 90 && c == b + 32) || (65 <= c <= 90 && b == c + 32)
  }

  /** Two texts that differ at most in the case of ASCII letters. */
  predicate Respelling(a: string, b: string) {
    |a| == |b| && forall i :: 0 <= i < |a| ==> SameLetter(a[i] as int, b[i] as int)
  }

  lemma SameLower(b: int, c: int)
    ensures LowerByte(b) == LowerByte(c) <==> SameLetter(b, c)
  {
  }
}
