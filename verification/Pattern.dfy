/** LIKE and GLOB: the matcher of func.c against a declarative meaning of patterns.
    Strings are sequences of non-zero code points; zero ends a string. */
module Pattern {
  import opened Basics
  import opened Letters

  type Code = nat

  /** The wildcards of one operator; `matchSet` is zero when it has no sets. */
  datatype Info = Info(matchAll: Code, matchOne: Code, matchSet: Code, noCase: bool)

  const GLOB := Info(42, 63, 91, false)      // * ? [
  const LIKE := Info(37, 95, 0, true)        // % _
  const CARET: Code := 94
  const DASH: Code := 45
  const CLOSE: Code := 93                    // ]

  predicate Text(s: seq<Code>) {
    forall i :: 0 <= i < |s| ==> s[i] != 0
  }

  /** Only ASCII letters fold. */
  function Fold(info: Info, c: Code): Code {
    if info.noCase then LowerByte(c) else c
  }

  // ----- what a pattern means -----

  datatype Range = Range(low: Code, high: Code)

  datatype Token =
    | Star
    | One
    | Set(invert: bool, ranges: seq<Range>)
    | Lit(c: Code)
    | Never                                   // an unterminated set, or an escape with nothing to escape

  datatype Body = Body(ranges: seq<Range>, rest: seq<Code>)

  /** The list inside a set, up to its closing bracket; `prior` may begin a range. */
  function SetBody(p: seq<Code>, prior: Code): (r: Option<Body>)
    ensures r.Some? ==> |r.value.rest| < |p| && r.value.rest == p[|p| - |r.value.rest|..]
    decreases |p|
  {
    if |p| == 0 then None
    else if p[0] == CLOSE then Some(Body([], p[1..]))
    else if p[0] == DASH && |p| > 1 && p[1] != CLOSE && prior > 0 then
      (match SetBody(p[2..], 0)
       case None => None
       case Some(b) => Some(Body([Range(prior, p[1])] + b.ranges, b.rest)))
    else
      (match SetBody(p[1..], p[0])
       case None => None
       case Some(b) => Some(Body([Range(p[0], p[0])] + b.ranges, b.rest)))
  }

  /** After an optional caret, a closing bracket that comes first stands for itself. */
  function SetList(p: seq<Code>): (r: Option<Body>)
    ensures r.Some? ==> |r.value.rest| < |p| && r.value.rest == p[|p| - |r.value.rest|..]
  {
    if |p| > 0 && p[0] == CLOSE then
      match SetBody(p[1..], 0)
      case None => None
      case Some(b) => Some(Body([Range(CLOSE, CLOSE)] + b.ranges, b.rest))
    else SetBody(p, 0)
  }

  /** The tokens of a pattern. `run` tells that only wildcards separate us from a star. */
  function Parse(p: seq<Code>, info: Info, esc: Code, run: bool): seq<Token>
    decreases |p|
  {
    if |p| == 0 then []
    else if p[0] == info.matchAll then [Star] + Parse(p[1..], info, esc, true)
    else if p[0] == info.matchOne then [One] + Parse(p[1..], info, esc, run)
    else if p[0] == info.matchSet then
      var invert := |p| > 1 && p[1] == CARET;
      (match SetList(if invert then p[2..] else p[1..])
       case None => [Never]
       case Some(b) => [Set(invert, b.ranges)] + Parse(b.rest, info, esc, false))
    else if p[0] == esc then
      if |p| == 1 then (if run then [Never] else [])
      else [Lit(p[1])] + Parse(p[2..], info, esc, false)
    else [Lit(p[0])] + Parse(p[1..], info, esc, false)
  }

  predicate InRanges(c: Code, ranges: seq<Range>) {
    exists i :: 0 <= i < |ranges| && ranges[i].low <= c <= ranges[i].high
  }

  /** Whether a string matches a sequence of tokens. */
  predicate Matches(ts: seq<Token>, s: seq<Code>, info: Info)
    decreases |ts|
  {
    if |ts| == 0 then |s| == 0
    else
      match ts[0]
      case Star => exists k :: 0 <= k <= |s| && Matches(ts[1..], s[k..], info)
      case One => |s| > 0 && Matches(ts[1..], s[1..], info)
      case Set(invert, ranges) => |s| > 0 && InRanges(s[0], ranges) != invert && Matches(ts[1..], s[1..], info)
      case Lit(c) => |s| > 0 && Fold(info, s[0]) == Fold(info, c) && Matches(ts[1..], s[1..], info)
      case Never => false
  }

  // ----- stars -----

  lemma Cons(t: Token, ts: seq<Token>)
    ensures ([t] + ts)[0] == t && ([t] + ts)[1..] == ts
  {
  }

  /** A star matches nothing, or one character and then what it matched before. */
  lemma StarStep(ts: seq<Token>, s: seq<Code>, info: Info)
    ensures Matches([Star] + ts, s, info) <==> Matches(ts, s, info) || (|s| > 0 && Matches([Star] + ts, s[1..], info))
  {
    Cons(Star, ts);
    if Matches([Star] + ts, s, info) {
      var k :| 0 <= k <= |s| && Matches(ts, s[k..], info);
      if k == 0 {
        assert s[k..] == s;
      } else {
        assert s[k..] == s[1..][k - 1..];
      }
    }
    if Matches(ts, s, info) {
      assert s[0..] == s;
    }
    if |s| > 0 && Matches([Star] + ts, s[1..], info) {
      var k :| 0 <= k <= |s[1..]| && Matches(ts, s[1..][k..], info);
      assert s[1..][k..] == s[k + 1..];
    }
  }

  lemma {:induction false} StarStar(ts: seq<Token>, s: seq<Code>, info: Info)
    ensures Matches([Star] + ([Star] + ts), s, info) <==> Matches([Star] + ts, s, info)
    decreases |s|
  {
    StarStep([Star] + ts, s, info);
    StarStep(ts, s, info);
    if |s| > 0 {
      StarStar(ts, s[1..], info);
    }
  }

  lemma {:induction false} StarOne(ts: seq<Token>, s: seq<Code>, info: Info)
    ensures Matches([Star] + ([One] + ts), s, info) <==> |s| > 0 && Matches([Star] + ts, s[1..], info)
    decreases |s|
  {
    Cons(One, ts);
    StarStep([One] + ts, s, info);
    if |s| > 0 {
      StarStep(ts, s[1..], info);
      StarOne(ts, s[1..], info);
    }
  }

  /** A star in front of a token that takes one character looks for a place where it fits. */
  lemma {:induction false} StarSeek(t: Token, ts: seq<Token>, s: seq<Code>, info: Info)
    requires t.Lit? || t.Set? || t.Never?
    ensures Matches([Star] + ([t] + ts), s, info) <==> exists k :: 0 <= k < |s| && Matches([t] + ts, s[k..], info)
  {
    Cons(Star, [t] + ts);
    Cons(t, ts);
    assert s[|s|..] == [];
  }

  // ----- the matcher -----

  function Read(z: seq<Code>, i: nat): Code {
    if i < |z| then z[i] else 0
  }

  ghost function Prepend(ranges: seq<Range>, r: Option<Body>): Option<Body> {
    match r
    case None => None
    case Some(b) => Some(Body(ranges + b.ranges, b.rest))
  }

  lemma PrependTwice(ranges: seq<Range>, r: Range, x: Option<Body>)
    ensures Prepend(ranges, Prepend([r], x)) == Prepend(ranges + [r], x)
  {
    if x.Some? {
      assert ranges + ([r] + x.value.ranges) == ranges + [r] + x.value.ranges;
    }
  }

  lemma InMore(c: Code, ranges: seq<Range>, r: Range)
    ensures InRanges(c, ranges + [r]) <==> InRanges(c, ranges) || r.low <= c <= r.high
  {
    var more := ranges + [r];
    if InRanges(c, ranges) {
      var i :| 0 <= i < |ranges| && ranges[i].low <= c <= ranges[i].high;
      assert more[i] == ranges[i];
    }
    assert more[|ranges|] == r;
  }

  /** The list inside a set; `closed` unless the pattern ends first. */
  method ScanBody(p: seq<Code>, c: Code) returns (closed: bool, seen: bool, rest: seq<Code>)
    requires Text(p)
    ensures match SetBody(p, 0)
      case None => !closed
      case Some(b) => closed && rest == b.rest && seen == InRanges(c, b.ranges)
  {
    var prior: Code := 0;
    ghost var ranges: seq<Range> := [];
    seen, rest := false, p;
    Unchanged(SetBody(p, 0));
    while Read(rest, 0) != 0 && Read(rest, 0) != CLOSE
      invariant Text(rest) && SetBody(p, 0) == Prepend(ranges, SetBody(rest, prior)) && seen == InRanges(c, ranges)
      decreases |rest|
    {
      if rest[0] == DASH && Read(rest, 1) != CLOSE && Read(rest, 1) != 0 && prior > 0 {
        ListStep(c, ranges, Range(prior, rest[1]), SetBody(rest[2..], 0));
        ranges := ranges + [Range(prior, rest[1])];
        seen := seen || prior <= c <= rest[1];
        prior, rest := 0, rest[2..];
      } else {
        ListStep(c, ranges, Range(rest[0], rest[0]), SetBody(rest[1..], rest[0]));
        ranges := ranges + [Range(rest[0], rest[0])];
        seen := seen || c == rest[0];
        prior, rest := rest[0], rest[1..];
      }
    }
    closed := Read(rest, 0) != 0;
    if closed {
      assert SetBody(rest, prior) == Some(Body([], rest[1..]));
      assert ranges + [] == ranges;
      rest := rest[1..];
    }
  }

  lemma Unchanged(x: Option<Body>)
    ensures Prepend([], x) == x
  {
    if x.Some? {
      assert [] + x.value.ranges == x.value.ranges;
    }
  }

  lemma ListStep(c: Code, ranges: seq<Range>, r: Range, x: Option<Body>)
    ensures Prepend(ranges, Prepend([r], x)) == Prepend(ranges + [r], x)
    ensures InRanges(c, ranges + [r]) <==> InRanges(c, ranges) || r.low <= c <= r.high
  {
    PrependTwice(ranges, r, x);
    InMore(c, ranges, r);
  }

  lemma InFront(c: Code, ranges: seq<Range>, r: Range)
    ensures InRanges(c, [r] + ranges) <==> InRanges(c, ranges) || r.low <= c <= r.high
  {
    var more := [r] + ranges;
    if InRanges(c, ranges) {
      var i :| 0 <= i < |ranges| && ranges[i].low <= c <= ranges[i].high;
      assert more[i + 1] == ranges[i];
    }
    assert more[0] == r;
  }

  /** One character against a set; `p` begins after the bracket. */
  method ScanSet(p: seq<Code>, c: Code) returns (ok: bool, rest: seq<Code>)
    requires Text(p)
    ensures var invert := |p| > 0 && p[0] == CARET;
      match SetList(if invert then p[1..] else p)
      case None => !ok
      case Some(b) => rest == b.rest && ok == (InRanges(c, b.ranges) != invert)
  {
    var invert, first := Read(p, 0) == CARET, false;
    var q := if invert then p[1..] else p;
    if Read(q, 0) == CLOSE {
      first := c == CLOSE;
      var closed, seen, r := ScanBody(q[1..], c);
      if closed {
        InFront(c, SetBody(q[1..], 0).value.ranges, Range(CLOSE, CLOSE));
      }
      ok, rest := closed && (first || seen) != invert, r;
    } else {
      var closed, seen, r := ScanBody(q, c);
      ok, rest := closed && seen != invert, r;
    }
  }

  ghost predicate Usable(info: Info, esc: Code) {
    info.matchAll != 0 && info.matchOne != 0 && (esc == 0 || info.matchSet == 0)
  }

  /** The two operators as they are registered: only LIKE takes an escape character. */
  lemma OperatorsUsable(esc: Code)
    ensures Usable(GLOB, 0) && Usable(LIKE, esc)
  {
  }

  /** The run of wildcards after a star: each single wildcard takes one character. */
  method SkipRun(p: seq<Code>, s: seq<Code>, info: Info, esc: Code) returns (ok: bool, i: nat, j: nat)
    requires Text(p) && Usable(info, esc)
    ensures i <= |p| && j <= |s| && (i < |p| ==> p[i] != info.matchAll && p[i] != info.matchOne)
    ensures Matches([Star] + Parse(p, info, esc, true), s, info) <==>
      ok && Matches([Star] + Parse(p[i..], info, esc, true), s[j..], info)
  {
    ok, i, j := true, 0, 0;
    assert p[0..] == p && s[0..] == s;
    while Read(p, i) == info.matchAll || Read(p, i) == info.matchOne
      invariant i <= |p| && j <= |s|
      invariant Matches([Star] + Parse(p, info, esc, true), s, info) <==>
        Matches([Star] + Parse(p[i..], info, esc, true), s[j..], info)
      decreases |p| - i
    {
      assert p[i..][1..] == p[i + 1..];
      if p[i] == info.matchAll {
        StarStar(Parse(p[i + 1..], info, esc, true), s[j..], info);
      } else {
        StarOne(Parse(p[i + 1..], info, esc, true), s[j..], info);
        if j == |s| {
          return false, |p|, j;
        }
        assert s[j..][1..] == s[j + 1..];
        j := j + 1;
      }
      i := i + 1;
    }
  }

  /** The part of patternCompare after a star. */
  method MatchAll(p: seq<Code>, s: seq<Code>, info: Info, esc: Code) returns (b: bool)
    requires Text(p) && Text(s) && Usable(info, esc)
    ensures b <==> Matches([Star] + Parse(p, info, esc, true), s, info)
    decreases |p|, 3
  {
    var ok, i, j := SkipRun(p, s, info, esc);
    if !ok {
      return false;
    }
    if Read(p, i) == 0 {
      assert s[j..][|s| - j..] == [];
      Cons(Star, []);
      return true;
    }
    b := Seek(p[i..], s[j..], info, esc);
  }

  /** After a star and its wildcards comes something that takes a character. */
  method Seek(p: seq<Code>, s: seq<Code>, info: Info, esc: Code) returns (b: bool)
    requires Text(p) && Text(s) && Usable(info, esc) && |p| > 0 && p[0] != info.matchAll && p[0] != info.matchOne
    ensures b <==> Matches([Star] + Parse(p, info, esc, true), s, info)
    decreases |p|, 2
  {
    var c, i := p[0], 1;
    if c == esc {
      if |p| == 1 {
        StarSeek(Never, [], s, info);
        Cons(Never, []);
        return false;
      }
      c, i := p[1], 2;
    } else if c == info.matchSet {
      b := SeekSet(p, s, info, esc);
      return;
    }
    assert Parse(p, info, esc, true) == [Lit(c)] + Parse(p[i..], info, esc, false);
    b := SeekLit(c, p[i..], s, info, esc);
  }

  method SeekLit(c: Code, p: seq<Code>, s: seq<Code>, info: Info, esc: Code) returns (b: bool)
    requires Text(p) && Text(s) && Usable(info, esc)
    ensures b <==> Matches([Star] + ([Lit(c)] + Parse(p, info, esc, false)), s, info)
    decreases |p|, 1
  {
    ghost var ts := Parse(p, info, esc, false);
    StarSeek(Lit(c), ts, s, info);
    Cons(Lit(c), ts);
    for j := 0 to |s|
      invariant forall k :: 0 <= k < j ==> !Matches([Lit(c)] + ts, s[k..], info)
    {
      assert s[j..][0] == s[j] && s[j..][1..] == s[j + 1..];
      if Fold(info, s[j]) == Fold(info, c) {
        b := PatternCompare(p, s[j + 1..], info, esc);
        if b {
          return;
        }
      }
    }
    b := false;
  }

  method SeekSet(p: seq<Code>, s: seq<Code>, info: Info, esc: Code) returns (b: bool)
    requires Text(p) && Text(s) && Usable(info, esc) && |p| > 0 && p[0] == info.matchSet
    requires p[0] != info.matchAll && p[0] != info.matchOne
    ensures b <==> Matches([Star] + Parse(p, info, esc, true), s, info)
    decreases |p|, 1
  {
    ghost var ts := Parse(p, info, esc, true);
    assert ts == Parse(p, info, esc, false) && ts == [ts[0]] + ts[1..];
    StarSeek(ts[0], ts[1..], s, info);
    var j := 0;
    while j < |s|
      invariant j <= |s| && forall k :: 0 <= k < j ==> !Matches(ts, s[k..], info)
    {
      b := PatternCompare(p, s[j..], info, esc);
      if b {
        return;
      }
      j := j + 1;
    }
    b := false;
  }

  /** What is left to match; after an escape the next character stands for itself. */
  ghost function Pending(p: seq<Code>, info: Info, esc: Code, prevEscape: bool): seq<Token> {
    if prevEscape then (if |p| == 0 then [] else [Lit(p[0])] + Parse(p[1..], info, esc, false))
    else Parse(p, info, esc, false)
  }

  /** patternCompare; the two pointers are the suffixes still to be read. */
  method PatternCompare(p: seq<Code>, s: seq<Code>, info: Info, esc: Code) returns (b: bool)
    requires Text(p) && Text(s) && Usable(info, esc)
    ensures b <==> Matches(Parse(p, info, esc, false), s, info)
    decreases |p|, 0
  {
    var zPattern, zString, prevEscape := p, s, false;
    while |zPattern| > 0
      invariant |zPattern| <= |p| && Text(zPattern) && Text(zString) && (prevEscape ==> esc != 0)
      invariant Matches(Parse(p, info, esc, false), s, info) <==>
        Matches(Pending(zPattern, info, esc, prevEscape), zString, info)
      decreases |zPattern|
    {
      var c := zPattern[0];
      if c == info.matchAll && !prevEscape {
        b := MatchAll(zPattern[1..], zString, info, esc);
        return;
      } else if c == info.matchOne && !prevEscape {
        OneStep(zPattern, zString, info, esc);
        if |zString| == 0 {
          return false;
        }
        zPattern, zString := zPattern[1..], zString[1..];
      } else if c == info.matchSet {
        if |zString| == 0 {
          SetNeeds(zPattern, info, esc);
          return false;
        }
        var ok, rest := ScanSet(zPattern[1..], zString[0]);
        SetStep(zPattern, zString, info, esc, ok, rest);
        if !ok {
          return false;
        }
        zPattern, zString := rest, zString[1..];
      } else if c == esc && !prevEscape {
        EscapeStep(zPattern, info, esc);
        zPattern, prevEscape := zPattern[1..], true;
      } else {
        LitStep(zPattern, zString, info, esc, prevEscape);
        if |zString| == 0 || Fold(info, zString[0]) != Fold(info, c) {
          return false;
        }
        zPattern, zString, prevEscape := zPattern[1..], zString[1..], false;
      }
    }
    b := |zString| == 0;
  }

  lemma OneStep(p: seq<Code>, s: seq<Code>, info: Info, esc: Code)
    requires |p| > 0 && p[0] == info.matchOne && p[0] != info.matchAll
    ensures Matches(Parse(p, info, esc, false), s, info) <==>
      |s| > 0 && Matches(Parse(p[1..], info, esc, false), s[1..], info)
  {
    Cons(One, Parse(p[1..], info, esc, false));
  }

  lemma LitStep(p: seq<Code>, s: seq<Code>, info: Info, esc: Code, prevEscape: bool)
    requires |p| > 0 && (prevEscape || (p[0] != info.matchAll && p[0] != info.matchOne && p[0] != esc))
    requires prevEscape || p[0] != info.matchSet
    ensures Matches(Pending(p, info, esc, prevEscape), s, info) <==>
      |s| > 0 && Fold(info, s[0]) == Fold(info, p[0]) && Matches(Parse(p[1..], info, esc, false), s[1..], info)
  {
    Cons(Lit(p[0]), Parse(p[1..], info, esc, false));
  }

  lemma SetNeeds(p: seq<Code>, info: Info, esc: Code)
    requires |p| > 0 && p[0] == info.matchSet && p[0] != info.matchAll && p[0] != info.matchOne
    ensures !Matches(Parse(p, info, esc, false), [], info)
  {
  }

  /** A set takes one character. */
  lemma SetStep(p: seq<Code>, s: seq<Code>, info: Info, esc: Code, ok: bool, rest: seq<Code>)
    requires |p| > 0 && p[0] == info.matchSet && p[0] != info.matchAll && p[0] != info.matchOne && |s| > 0
    requires var q := p[1..];
      var invert := |q| > 0 && q[0] == CARET;
      match SetList(if invert then q[1..] else q)
      case None => !ok
      case Some(b) => rest == b.rest && ok == (InRanges(s[0], b.ranges) != invert)
    ensures Matches(Parse(p, info, esc, false), s, info) <==> ok && Matches(Parse(rest, info, esc, false), s[1..], info)
    ensures ok ==> |rest| < |p| && rest == p[|p| - |rest|..]
  {
    var q := p[1..];
    var invert := |q| > 0 && q[0] == CARET;
    assert invert ==> q[1..] == p[2..];
    match SetList(if invert then q[1..] else q) {
      case None =>
        assert Parse(p, info, esc, false) == [Never];
      case Some(b) =>
        assert Parse(p, info, esc, false) == [Set(invert, b.ranges)] + Parse(b.rest, info, esc, false);
        SetTakes(invert, b.ranges, Parse(b.rest, info, esc, false), s, info);
    }
  }

  lemma SetTakes(invert: bool, ranges: seq<Range>, ts: seq<Token>, s: seq<Code>, info: Info)
    requires |s| > 0
    ensures Matches([Set(invert, ranges)] + ts, s, info) <==>
      InRanges(s[0], ranges) != invert && Matches(ts, s[1..], info)
  {
    Cons(Set(invert, ranges), ts);
  }

  lemma EscapeStep(p: seq<Code>, info: Info, esc: Code)
    requires |p| > 0 && p[0] == esc && p[0] != info.matchAll && p[0] != info.matchOne && p[0] != info.matchSet
    ensures Parse(p, info, esc, false) == Pending(p[1..], info, esc, true)
  {
    assert |p| > 1 ==> p[1..][0] == p[1] && p[1..][1..] == p[2..];
  }
}
