/** How patterns are written: what the sets, wildcards and literals of a pattern text match. */
module PatternForm {
  import opened Basics
  import opened Letters
  import opened Pattern

  // ----- sets -----

  /** An item of a set: one character, or a range written with a dash. */
  datatype Item = Single(c: Code) | Span(low: Code, high: Code)

  predicate Ordinary(c: Code) {
    c != 0 && c != CLOSE && c != DASH
  }

  predicate Writable(items: seq<Item>) {
    forall i :: 0 <= i < |items| ==>
      match items[i]
      case Single(c) => Ordinary(c)
      case Span(low, high) => Ordinary(low) && Ordinary(high)
  }

  function ItemText(x: Item): seq<Code> {
    match x
    case Single(c) => [c]
    case Span(low, high) => [low, DASH, high]
  }

  function ItemsText(items: seq<Item>): seq<Code> {
    if items == [] then [] else ItemText(items[0]) + ItemsText(items[1..])
  }

  function Mark(present: bool, c: Code): seq<Code> {
    if present then [c] else []
  }

  /** A range whose ends are out of order still holds its first end. */
  predicate Holds(x: Item, c: Code) {
    match x
    case Single(d) => c == d
    case Span(low, high) => c == low || low <= c <= high
  }

  predicate SomeHolds(items: seq<Item>, c: Code) {
    exists i :: 0 <= i < |items| && Holds(items[i], c)
  }

  lemma SomeHoldsFirst(items: seq<Item>, c: Code)
    requires |items| > 0
    ensures SomeHolds(items, c) <==> Holds(items[0], c) || SomeHolds(items[1..], c)
  {
    if i :| 0 <= i < |items| && Holds(items[i], c) {
      assert i > 0 ==> items[1..][i - 1] == items[i];
    }
    if i :| 0 <= i < |items[1..]| && Holds(items[1..][i], c) {
      assert items[i + 1] == items[1..][i];
    }
  }

  /** The items of a set, perhaps a dash at the end, the closing bracket and the rest of the pattern. */
  function BodyText(items: seq<Item>, back: bool, rest: seq<Code>): seq<Code> {
    ItemsText(items) + (Mark(back, DASH) + ([CLOSE] + rest))
  }

  /** A list that was read in full: what is left over, and what it holds. */
  predicate Reads(x: Option<Body>, rest: seq<Code>, c: Code, holds: bool) {
    x.Some? && x.value.rest == rest && (InRanges(c, x.value.ranges) <==> holds)
  }

  /** A single character: it may begin a range with what follows. */
  lemma ReadOne(p: seq<Code>, prior: Code, c: Code, rest: seq<Code>, holds: bool)
    requires |p| > 0 && p[0] != CLOSE && (p[0] == DASH ==> prior == 0 || |p| == 1 || p[1] == CLOSE)
    requires Reads(SetBody(p[1..], p[0]), rest, c, holds)
    ensures Reads(SetBody(p, prior), rest, c, c == p[0] || holds)
  {
    InFront(c, SetBody(p[1..], p[0]).value.ranges, Range(p[0], p[0]));
  }

  /** A dash between two characters. */
  lemma ReadDash(p: seq<Code>, prior: Code, c: Code, rest: seq<Code>, holds: bool)
    requires |p| > 1 && p[0] == DASH && p[1] != CLOSE && prior > 0
    requires Reads(SetBody(p[2..], 0), rest, c, holds)
    ensures Reads(SetBody(p, prior), rest, c, prior <= c <= p[1] || holds)
  {
    InFront(c, SetBody(p[2..], 0).value.ranges, Range(prior, p[1]));
  }

  /** What is read after the items: nothing, or a dash that stands for itself. */
  lemma ReadEnd(back: bool, rest: seq<Code>, prior: Code, c: Code)
    ensures Reads(SetBody(BodyText([], back, rest), prior), rest, c, back && c == DASH)
  {
    var end := [CLOSE] + rest;
    assert end[1..] == rest;
    assert SetBody(end, DASH) == SetBody(end, prior) == Some(Body([], rest));
    var p := BodyText([], back, rest);
    if back {
      assert p == [DASH] + end && p[1..] == end;
      ReadOne(p, prior, c, rest, false);
    } else {
      assert p == end;
    }
  }

  /** The items are read back as they were written. */
  lemma {:induction false} BodyRead(items: seq<Item>, back: bool, rest: seq<Code>, prior: Code, c: Code)
    requires Writable(items)
    ensures Reads(SetBody(BodyText(items, back, rest), prior), rest, c, SomeHolds(items, c) || (back && c == DASH))
    decreases |items|
  {
    if items == [] {
      ReadEnd(back, rest, prior, c);
    } else {
      var p, q := BodyText(items, back, rest), BodyText(items[1..], back, rest);
      var holds := SomeHolds(items[1..], c) || (back && c == DASH);
      SomeHoldsFirst(items, c);
      assert p == ItemText(items[0]) + q;
      match items[0] {
        case Single(d) =>
          assert p[0] == d && p[1..] == q;
          BodyRead(items[1..], back, rest, d, c);
          ReadOne(p, prior, c, rest, holds);
        case Span(low, high) =>
          BodyRead(items[1..], back, rest, 0, c);
          ReadSpan(p, q, prior, c, rest, holds, low, high);
      }
    }
  }

  lemma ReadSpan(p: seq<Code>, q: seq<Code>, prior: Code, c: Code, rest: seq<Code>, holds: bool, low: Code, high: Code)
    requires p == [low, DASH, high] + q && Ordinary(low) && Ordinary(high) && Reads(SetBody(q, 0), rest, c, holds)
    ensures Reads(SetBody(p, prior), rest, c, c == low || low <= c <= high || holds)
  {
    var r := p[1..];
    assert r[0] == DASH && r[1] == high && r[2..] == q;
    ReadDash(r, low, c, rest, holds);
    ReadOne(p, prior, c, rest, low <= c <= high || holds);
  }

  /** The inside of a set: perhaps a closing bracket, perhaps a dash, the items, perhaps a dash. */
  datatype SetText = SetText(bracket: bool, front: bool, items: seq<Item>, back: bool)

  /** Nothing but a bracket that comes first can be followed by the closing one at once. */
  predicate WellFormed(x: SetText) {
    Writable(x.items) && (x.bracket || x.front || x.back || x.items != [])
  }

  function Inner(x: SetText, rest: seq<Code>): seq<Code> {
    Mark(x.bracket, CLOSE) + (Mark(x.front, DASH) + BodyText(x.items, x.back, rest))
  }

  predicate Member(x: SetText, c: Code) {
    (x.bracket && c == CLOSE) || ((x.front || x.back) && c == DASH) || SomeHolds(x.items, c)
  }

  lemma FrontRead(x: SetText, rest: seq<Code>, c: Code)
    requires Writable(x.items)
    ensures var p := Mark(x.front, DASH) + BodyText(x.items, x.back, rest);
      Reads(SetBody(p, 0), rest, c, Member(x.(bracket := false), c))
  {
    var q := BodyText(x.items, x.back, rest);
    var p := Mark(x.front, DASH) + q;
    var holds := SomeHolds(x.items, c) || (x.back && c == DASH);
    if x.front {
      BodyRead(x.items, x.back, rest, DASH, c);
      assert p[0] == DASH && p[1..] == q;
      ReadOne(p, 0, c, rest, holds);
    } else {
      BodyRead(x.items, x.back, rest, 0, c);
      assert p == q;
    }
  }

  lemma FirstCode(x: SetText, rest: seq<Code>)
    requires WellFormed(x) && !x.bracket
    ensures Inner(x, rest)[0] != CLOSE
  {
    assert Inner(x, rest) == Mark(x.front, DASH) + BodyText(x.items, x.back, rest);
    if !x.front && x.items != [] {
      var first := ItemText(x.items[0]);
      assert BodyText(x.items, x.back, rest) == first + BodyText(x.items[1..], x.back, rest);
      assert first[0] != CLOSE;
    }
  }

  /** The set is read back as it was written. */
  lemma ListRead(x: SetText, rest: seq<Code>, c: Code)
    requires WellFormed(x)
    ensures Reads(SetList(Inner(x, rest)), rest, c, Member(x, c))
  {
    var q := Mark(x.front, DASH) + BodyText(x.items, x.back, rest);
    FrontRead(x, rest, c);
    if x.bracket {
      assert Inner(x, rest)[1..] == q;
      InFront(c, SetBody(q, 0).value.ranges, Range(CLOSE, CLOSE));
    } else {
      assert Inner(x, rest) == q;
      FirstCode(x, rest);
    }
  }

  /** A set in brackets, inverted by a caret. */
  function Bracketed(invert: bool, x: SetText, rest: seq<Code>): seq<Code> {
    [91] + (Mark(invert, CARET) + Inner(x, rest))
  }

  lemma BracketedParse(invert: bool, inner: seq<Code>, b: Body, run: bool)
    requires SetList(inner) == Some(b) && (!invert ==> inner[0] != CARET)
    ensures Parse([91] + (Mark(invert, CARET) + inner), GLOB, 0, run) ==
      [Set(invert, b.ranges)] + Parse(b.rest, GLOB, 0, false)
  {
    var p := [91] + (Mark(invert, CARET) + inner);
    if invert {
      assert p[1] == CARET && p[2..] == inner;
    } else {
      assert p[1..] == inner && p[1] == inner[0];
    }
  }

  /** A set matches one character that it holds, or with a caret one that it does not hold. */
  lemma SetMatches(invert: bool, x: SetText, rest: seq<Code>, run: bool, s: seq<Code>)
    requires WellFormed(x) && (!invert ==> Inner(x, rest)[0] != CARET)
    ensures Matches(Parse(Bracketed(invert, x, rest), GLOB, 0, run), s, GLOB) <==>
      |s| > 0 && Member(x, s[0]) != invert && Matches(Parse(rest, GLOB, 0, false), s[1..], GLOB)
  {
    var inner := Inner(x, rest);
    ListRead(x, rest, if |s| > 0 then s[0] else 0);
    var b := SetList(inner).value;
    BracketedParse(invert, inner, b, run);
    Cons(Set(invert, b.ranges), Parse(rest, GLOB, 0, false));
  }

  /** The plainest sets. */
  lemma RangeMatches(low: Code, high: Code, c: Code)
    requires Ordinary(low) && Ordinary(high) && low != CARET && low <= high
    ensures Matches(Parse([91, low, 45, high, 93], GLOB, 0, false), [c], GLOB) <==> low <= c <= high
    ensures Matches(Parse([91, 94, low, 45, high, 93], GLOB, 0, false), [c], GLOB) <==> !(low <= c <= high)
  {
    var items := [Span(low, high)];
    var x := SetText(false, false, items, false);
    assert ItemsText(items[1..]) == [] && ItemsText(items) == [low, DASH, high];
    assert Inner(x, []) == [low, DASH, high, CLOSE];
    assert Bracketed(false, x, []) == [91, low, DASH, high, CLOSE];
    assert Bracketed(true, x, []) == [91, CARET, low, DASH, high, CLOSE];
    assert Holds(items[0], c) <==> low <= c <= high;
    SetMatches(false, x, [], false, [c]);
    SetMatches(true, x, [], false, [c]);
  }

  /** Without a closing bracket there is no set. */
  lemma {:induction false} NeverClosed(p: seq<Code>, prior: Code)
    requires CLOSE !in p
    ensures SetBody(p, prior).None?
    decreases |p|
  {
    if |p| > 0 {
      NeverClosed(p[1..], p[0]);
      if |p| > 1 {
        NeverClosed(p[2..], 0);
      }
    }
  }

  // ----- wildcards and literals -----

  predicate Special(c: Code, info: Info, esc: Code) {
    c == info.matchAll || c == info.matchOne || c == info.matchSet || c == esc
  }

  /** Wildcards and literals. A literal that would be read as something else needs an escape character. */
  predicate Spellable(ts: seq<Token>, info: Info, esc: Code) {
    forall i :: 0 <= i < |ts| ==>
      || ts[i].Star?
      || ts[i].One?
      || (ts[i].Lit? && (Special(ts[i].c, info, esc) ==> esc != 0 && !Special(esc, info, 0)))
  }

  function TokenText(t: Token, info: Info, esc: Code): seq<Code> {
    match t
    case Star => [info.matchAll]
    case One => [info.matchOne]
    case Lit(c) => if Special(c, info, esc) then [esc, c] else [c]
    case _ => []
  }

  function TokensText(ts: seq<Token>, info: Info, esc: Code): seq<Code> {
    if ts == [] then [] else TokenText(ts[0], info, esc) + TokensText(ts[1..], info, esc)
  }

  /** Wildcards and literals are read back as they were written. */
  lemma {:induction false} ParseBack(ts: seq<Token>, info: Info, esc: Code, run: bool)
    requires Spellable(ts, info, esc) && info.matchAll != info.matchOne
    ensures Parse(TokensText(ts, info, esc), info, esc, run) == ts
    decreases |ts|
  {
    if ts != [] {
      var p, q := TokensText(ts, info, esc), TokensText(ts[1..], info, esc);
      ParseBack(ts[1..], info, esc, true);
      ParseBack(ts[1..], info, esc, false);
      assert ts == [ts[0]] + ts[1..];
      if ts[0].Lit? && Special(ts[0].c, info, esc) {
        assert p[0] == esc && p[1] == ts[0].c && p[2..] == q;
      } else {
        assert p[1..] == q;
      }
    }
  }

  lemma OneWildcard(info: Info, s: seq<Code>)
    requires info.matchAll != info.matchOne
    ensures Matches(Parse([info.matchAll], info, 0, false), s, info)
    ensures Matches(Parse([info.matchOne], info, 0, false), s, info) <==> |s| == 1
  {
    Alone(info.matchAll, Star, info);
    Alone(info.matchOne, One, info);
    TokenAlone(Star, info, s);
    TokenAlone(One, info, s);
  }

  lemma Alone(c: Code, t: Token, info: Info)
    requires info.matchAll != info.matchOne && (t.Star? || t.One?) && [c] == TokenText(t, info, 0)
    ensures Parse([c], info, 0, false) == [t]
  {
    assert [c][1..] == [];
    assert Parse([], info, 0, true) == Parse([], info, 0, false) == [];
  }

  lemma TokenAlone(t: Token, info: Info, s: seq<Code>)
    requires t.Star? || t.One?
    ensures Matches([t], s, info) <==> t.Star? || |s| == 1
  {
    assert [t][1..] == [];
    assert s[|s|..] == [] && Matches([], s[|s|..], info);
  }

  /** The wildcards by themselves: percent and star match anything, underscore and question mark one character. */
  lemma WildcardMatches(s: seq<Code>)
    ensures Matches(Parse([37], LIKE, 0, false), s, LIKE) && Matches(Parse([42], GLOB, 0, false), s, GLOB)
    ensures Matches(Parse([95], LIKE, 0, false), s, LIKE) <==> |s| == 1
    ensures Matches(Parse([63], GLOB, 0, false), s, GLOB) <==> |s| == 1
  {
    OneWildcard(LIKE, s);
    OneWildcard(GLOB, s);
  }

  /** A pattern without wildcards: LIKE accepts the respellings of it, GLOB only the text itself. */
  lemma {:induction false} LiteralMatches(p: seq<Code>, info: Info, run: bool, s: seq<Code>)
    requires info == LIKE || info == GLOB
    requires forall i :: 0 <= i < |p| ==> p[i] != 0 && !Special(p[i], info, 0)
    ensures Matches(Parse(p, info, 0, run), s, info) <==>
      |s| == |p| && forall i :: 0 <= i < |p| ==> if info == LIKE then SameLetter(p[i], s[i]) else p[i] == s[i]
    decreases |p|
  {
    if |p| > 0 {
      var ts := Parse(p[1..], info, 0, false);
      assert Parse(p, info, 0, run) == [Lit(p[0])] + ts;
      Cons(Lit(p[0]), ts);
      if |s| > 0 {
        SameLower(p[0], s[0]);
        LiteralMatches(p[1..], info, false, s[1..]);
        assert forall i :: 1 <= i < |p| ==> p[i] == p[1..][i - 1];
        assert forall i :: 1 <= i < |s| ==> s[i] == s[1..][i - 1];
      }
    }
  }
}
