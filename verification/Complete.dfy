/** sqlite3_complete: does a text end with a complete statement? */
module Complete {
  import opened Letters

  datatype Kind = Semi | Ws | Other | Explain | Create | Temp | Trigger | End

  datatype State = Invalid | Start | Normal | InExplain | InCreate | InTrigger | AfterSemi | AfterEnd

  /** The transition table. */
  function Trans(st: State, t: Kind): State {
    if t == Ws then st
    else
      match st
      case Invalid => Begin(t)
      case Start => Begin(t)
      case Normal => if t == Semi then Start else Normal
      case InExplain =>
        if t == Semi then Start else if t == Other then InExplain else if t == Create then InCreate else Normal
      case InCreate =>
        if t == Semi then Start else if t == Temp then InCreate else if t == Trigger then InTrigger else Normal
      case InTrigger => if t == Semi then AfterSemi else InTrigger
      case AfterSemi => if t == Semi then AfterSemi else if t == End then AfterEnd else InTrigger
      case AfterEnd => if t == Semi then Start else InTrigger
  }

  function Begin(t: Kind): State
    requires t != Ws
  {
    match t
    case Semi => Start
    case Explain => InExplain
    case Create => InCreate
    case _ => Normal
  }

  // ----- tokens -----

  predicate IdChar(c: char) {
    'a' <= c <= 'z' || 'A' <= c <= 'Z' || '0' <= c <= '9' || c == '_' || c == '$' || c as int >= 128
  }

  /** The first place from `i` on where `c` stands, or the end. */
  function Find(s: string, i: nat, c: char): (k: nat)
    requires i <= |s|
    ensures i <= k <= |s| && (k < |s| ==> s[k] == c) && forall j :: i <= j < k ==> s[j] != c
    decreases |s| - i
  {
    if i == |s| || s[i] == c then i else Find(s, i + 1, c)
  }

  predicate Closes(s: string, i: nat) {
    i + 1 < |s| && s[i] == '*' && s[i + 1] == '/'
  }

  /** The first place from `i` on where a C comment is closed, or the end. */
  function FindClose(s: string, i: nat): (k: nat)
    requires i <= |s|
    ensures i <= k <= |s| && (k < |s| ==> Closes(s, k)) && forall j :: i <= j < k ==> !Closes(s, j)
    decreases |s| - i
  {
    if i == |s| || Closes(s, i) then i else FindClose(s, i + 1)
  }

  function IdEnd(s: string, i: nat): (k: nat)
    requires i <= |s|
    ensures i <= k <= |s| && (k < |s| ==> !IdChar(s[k])) && forall j :: i <= j < k ==> IdChar(s[j])
    decreases |s| - i
  {
    if i == |s| || !IdChar(s[i]) then i else IdEnd(s, i + 1)
  }

  predicate Spells(id: string, word: string) {
    |id| == |word| && forall i :: 0 <= i < |id| ==> Lower(id[i]) == word[i]
  }

  function Keyword(id: string): Kind {
    if Spells(id, "create") then Create
    else if Spells(id, "trigger") then Trigger
    else if Spells(id, "temp") || Spells(id, "temporary") then Temp
    else if Spells(id, "end") then End
    else if Spells(id, "explain") then Explain
    else Other
  }

  /** One token of length `n`; or the text ends inside a quote or C comment; or inside a line comment. */
  datatype Lexed = Token(t: Kind, n: nat) | Unclosed | LineComment

  function Upto(s: string, k: nat, t: Kind): Lexed {
    if k >= |s| then Unclosed else Token(t, k + 1)
  }

  function Lex(s: string): (r: Lexed)
    requires |s| > 0
    ensures r.Token? ==> 1 <= r.n <= |s|
  {
    var c := s[0];
    if c == ';' then Token(Semi, 1)
    else if c == ' ' || c == '\r' || c == '\t' || c == '\n' || c as int == 12 then Token(Ws, 1)
    else if c == '/' then
      if |s| == 1 || s[1] != '*' then Token(Other, 1)
      else
        var k := FindClose(s, 2);
        if k >= |s| then Unclosed else Token(Ws, k + 2)
    else if c == '-' then
      if |s| == 1 || s[1] != '-' then Token(Other, 1)
      else
        var k := Find(s, 0, '\n');
        if k >= |s| then LineComment else Token(Ws, k + 1)
    else if c == '[' then Upto(s, Find(s, 1, ']'), Other)
    else if c == '`' || c == '"' || c == '\'' then Upto(s, Find(s, 1, c), Other)
    else if IdChar(c) then
      var k := IdEnd(s, 1);
      Token(Keyword(s[..k]), k)
    else Token(Other, 1)
  }

  /** The answer for the rest of a text from state `st`. */
  predicate Accepts(st: State, s: string)
    decreases |s|
  {
    if |s| == 0 then st == Start
    else
      match Lex(s)
      case Unclosed => false
      case LineComment => st == Start
      case Token(t, n) => Accepts(Trans(st, t), s[n..])
  }

  // ----- the scanner -----

  /** The loop over the text. */
  method IsComplete(zSql: string) returns (b: bool)
    ensures b == Accepts(Invalid, zSql)
  {
    var state, z := Invalid, zSql;
    while |z| > 0
      invariant Accepts(Invalid, zSql) == Accepts(state, z)
      decreases |z|
    {
      var r := NextToken(z);
      match r {
        case Unclosed => return false;
        case LineComment => return state == Start;
        case Token(t, n) => state, z := Trans(state, t), z[n..];
      }
    }
    b := state == Start;
  }

  /** One step of the loop: the switch on the next character, with its inner loops. */
  method NextToken(z: string) returns (r: Lexed)
    requires |z| > 0
    ensures r == Lex(z)
  {
    var c, k := z[0], 1;
    if c == '/' && |z| > 1 && z[1] == '*' {
      k := 2;
      while k < |z| && !(z[k] == '*' && k + 1 < |z| && z[k + 1] == '/')
        invariant 2 <= k <= |z| && FindClose(z, 2) == FindClose(z, k)
      {
        k := k + 1;
      }
      r := if k >= |z| then Unclosed else Token(Ws, k + 2);
    } else if c == '-' && |z| > 1 && z[1] == '-' {
      k := 0;
      while k < |z| && z[k] != '\n'
        invariant 0 <= k <= |z| && Find(z, 0, '\n') == Find(z, k, '\n')
      {
        k := k + 1;
      }
      r := if k >= |z| then LineComment else Token(Ws, k + 1);
    } else if c == '[' || c == '`' || c == '"' || c == '\'' {
      var q := if c == '[' then ']' else c;
      while k < |z| && z[k] != q
        invariant 1 <= k <= |z| && Find(z, 1, q) == Find(z, k, q)
      {
        k := k + 1;
      }
      r := if k >= |z| then Unclosed else Token(Other, k + 1);
    } else if IdChar(c) {
      while k < |z| && IdChar(z[k])
        invariant 1 <= k <= |z| && IdEnd(z, 1) == IdEnd(z, k)
      {
        k := k + 1;
      }
      r := Token(Keyword(z[..k]), k);
    } else if c == ';' {
      r := Token(Semi, 1);
    } else if c == ' ' || c == '\r' || c == '\t' || c == '\n' || c as int == 12 {
      r := Token(Ws, 1);
    } else {
      r := Token(Other, 1);
    }
  }

  // ----- texts one after the other -----

  /** The text ends inside a line comment. */
  predicate InComment(s: string)
    decreases |s|
  {
    |s| > 0 &&
    match Lex(s)
    case Unclosed => false
    case LineComment => true
    case Token(_, n) => InComment(s[n..])
  }

  lemma {:induction false} FindPrefix(a: string, b: string, i: nat, c: char)
    requires i <= |a| && Find(a, i, c) < |a|
    ensures Find(a + b, i, c) == Find(a, i, c)
    decreases |a| - i
  {
    if a[i] != c {
      FindPrefix(a, b, i + 1, c);
    }
  }

  lemma {:induction false} FindClosePrefix(a: string, b: string, i: nat)
    requires i <= |a| && FindClose(a, i) < |a|
    ensures FindClose(a + b, i) == FindClose(a, i)
    decreases |a| - i
  {
    var k := FindClose(a, i);
    assert Closes(a, k);
    if i < k {
      assert Closes(a + b, i) <==> Closes(a, i);
      FindClosePrefix(a, b, i + 1);
    }
  }

  lemma {:induction false} IdEndPrefix(a: string, b: string, i: nat)
    requires i <= |a| && IdEnd(a, i) < |a|
    ensures IdEnd(a + b, i) == IdEnd(a, i)
    decreases |a| - i
  {
    if IdChar(a[i]) {
      IdEndPrefix(a, b, i + 1);
    }
  }

  /** A token that ends before the text does, or a semicolon or white space, does not depend on what follows. */
  lemma LexPrefix(a: string, b: string)
    requires |a| > 0 && Lex(a).Token? && (Lex(a).n < |a| || Lex(a).t == Semi || Lex(a).t == Ws)
    ensures Lex(a + b) == Lex(a)
  {
    var c := a[0];
    assert (a + b)[0] == c && (|a| > 1 ==> (a + b)[1] == a[1]);
    if c == '/' && |a| > 1 && a[1] == '*' {
      FindClosePrefix(a, b, 2);
    } else if c == '-' && |a| > 1 && a[1] == '-' {
      FindPrefix(a, b, 0, '\n');
    } else if c == '[' {
      FindPrefix(a, b, 1, ']');
    } else if c == '`' || c == '"' || c == '\'' {
      FindPrefix(a, b, 1, c);
    } else if IdChar(c) {
      var k := IdEnd(a, 1);
      KeywordKind(a[..k]);
      IdEndPrefix(a, b, 1);
      assert (a + b)[..k] == a[..k];
    }
  }

  lemma KeywordKind(id: string)
    ensures Keyword(id) != Semi && Keyword(id) != Ws
  {
  }

  /** What is left of `b` after a text `a`: a line comment that is still open swallows the first line. */
  function Left(a: string, b: string): string {
    if InComment(a) then AfterLine(b) else b
  }

  function AfterLine(b: string): string {
    var k := Find(b, 0, '\n');
    if k < |b| then b[k + 1..] else []
  }

  /** After a complete text the next one starts afresh, less the line that an open comment swallows. */
  lemma {:induction false} Followed(st: State, a: string, b: string)
    requires Accepts(st, a)
    ensures Accepts(st, a + b) <==> Accepts(Start, Left(a, b))
    decreases |a|
  {
    if |a| == 0 {
      assert a + b == b;
    } else if Lex(a).LineComment? {
      OpenComment(a, b);
    } else {
      var t, n := Lex(a).t, Lex(a).n;
      LastKind(st, a);
      LexPrefix(a, b);
      Suffix(a, b, n);
      Followed(Trans(st, t), a[n..], b);
    }
  }

  /** An open line comment goes on to the first newline of what follows. */
  lemma OpenComment(a: string, b: string)
    requires |a| > 0 && Lex(a).LineComment?
    ensures Accepts(Start, a + b) <==> Accepts(Start, Left(a, b))
  {
    assert Left(a, b) == AfterLine(b);
    CommentLine(a, b);
  }

  lemma CommentLine(a: string, b: string)
    requires |a| > 0 && Lex(a).LineComment?
    ensures Accepts(Start, a + b) <==> Accepts(Start, AfterLine(b))
  {
    var k := Find(b, 0, '\n');
    if k < |b| {
      assert AfterLine(b) == b[k + 1..];
      CommentTo(a, b, k);
    } else {
      assert AfterLine(b) == [];
      CommentAll(a, b);
    }
  }

  lemma CommentTo(a: string, b: string, k: nat)
    requires |a| > 0 && Lex(a).LineComment? && k == Find(b, 0, '\n') < |b|
    ensures Accepts(Start, a + b) == Accepts(Start, b[k + 1..])
  {
    OpenLex(a, b);
    DropFront(a, b, k + 1);
    AcceptsRest(a + b, |a| + k + 1, b[k + 1..]);
  }

  lemma CommentAll(a: string, b: string)
    requires |a| > 0 && Lex(a).LineComment? && Find(b, 0, '\n') == |b|
    ensures Accepts(Start, a + b)
  {
    OpenLex(a, b);
    AcceptsAll(a + b);
  }

  lemma DropFront(a: string, b: string, n: nat)
    requires n <= |b|
    ensures (a + b)[|a| + n..] == b[n..]
  {
  }

  lemma AcceptsAll(s: string)
    requires |s| > 0 && Lex(s) == LineComment
    ensures Accepts(Start, s)
  {
  }

  lemma AcceptsRest(s: string, n: nat, rest: string)
    requires |s| > 0 && n <= |s| && Lex(s) == Token(Ws, n) && rest == s[n..]
    ensures Accepts(Start, s) == Accepts(Start, rest)
  {
  }

  lemma OpenLex(a: string, b: string)
    requires |a| > 0 && Lex(a).LineComment?
    ensures var k := Find(b, 0, '\n');
      Lex(a + b) == if k < |b| then Token(Ws, |a| + k + 1) else LineComment
  {
    assert a[0] == '-' && a[1] == '-' && Find(a, 0, '\n') == |a|;
    assert (a + b)[0] == a[0] && (a + b)[1] == a[1];
    FindPast(a, b, 0, '\n');
  }

  lemma {:induction false} FindPast(a: string, b: string, i: nat, c: char)
    requires i <= |a| && Find(a, i, c) == |a|
    ensures Find(a + b, i, c) == |a| + Find(b, 0, c)
    decreases |a| - i
  {
    if i < |a| {
      FindPast(a, b, i + 1, c);
    } else {
      FindShifted(a, b, 0, c);
    }
  }

  lemma {:induction false} FindShifted(a: string, b: string, i: nat, c: char)
    requires i <= |b|
    ensures Find(a + b, |a| + i, c) == |a| + Find(b, i, c)
    decreases |b| - i
  {
    if i < |b| && b[i] != c {
      FindShifted(a, b, i + 1, c);
    }
  }

  lemma Suffix(a: string, b: string, n: nat)
    requires n <= |a|
    ensures (a + b)[n..] == a[n..] + b
  {
  }

  /** The last token of a complete text is a semicolon or white space. */
  lemma LastKind(st: State, a: string)
    requires |a| > 0 && Accepts(st, a) && Lex(a).Token?
    ensures Lex(a).n == |a| ==> Lex(a).t == Semi || Lex(a).t == Ws
  {
    if Lex(a).n == |a| {
      assert a[Lex(a).n..] == [];
    }
  }

  /** A text that is complete by itself is complete at the start of a statement. */
  lemma {:induction false} FromStart(b: string)
    requires Accepts(Invalid, b)
    ensures Accepts(Start, b)
    decreases |b|
  {
    if Lex(b).t == Ws {
      FromStart(b[Lex(b).n..]);
    }
  }

  /** Complete texts put together are complete, unless the first ends in a line comment;
      then it depends on what follows the first newline. */
  lemma Concatenated(a: string, b: string)
    requires Accepts(Invalid, a) && Accepts(Invalid, b)
    ensures Accepts(Invalid, a + b) <==> !InComment(a) || Accepts(Start, Left(a, b))
  {
    Followed(Invalid, a, b);
    FromStart(b);
  }

  /** A line comment at the end of the first text swallows the quote that the second opens with. */
  lemma Swallowed()
    ensures var a, b := ";--", "'\n;' ;";
      Accepts(Invalid, a) && InComment(a) && Accepts(Invalid, b) && !Accepts(Invalid, a + b)
  {
    var a, b := ";--", "'\n;' ;";
    assert a + b == ";--'\n;' ;";
    assert a[1..] == "--" && Find("--", 0, '\n') == Find("--", 1, '\n') == Find("--", 2, '\n') == 2;
    assert Lex("--") == LineComment;
    Quoted();
    Mixed();
  }

  lemma Quoted()
    ensures Accepts(Invalid, "'\n;' ;")
  {
    var b := "'\n;' ;";
    assert Find(b, 1, '\'') == Find(b, 2, '\'') == Find(b, 3, '\'') == 3;
    assert Lex(b) == Token(Other, 4) && b[4..] == " ;" && " ;"[1..] == ";" && ";"[1..] == "";
    assert Accepts(Normal, ";");
    assert Accepts(Normal, " ;");
  }

  lemma Mixed()
    ensures !Accepts(Invalid, ";--'\n;' ;")
  {
    var c := ";--'\n;' ;";
    var d := "--'\n;' ;";
    assert c[1..] == d;
    assert Find(d, 0, '\n') == Find(d, 1, '\n') == Find(d, 2, '\n') == Find(d, 3, '\n') == 3;
    assert Lex(d) == Token(Ws, 4) && d[4..] == ";' ;" && ";' ;"[1..] == "' ;";
    var e := "' ;";
    assert Find(e, 1, '\'') == Find(e, 2, '\'') == Find(e, 3, '\'') == 3;
    assert Lex(e) == Unclosed;
    assert !Accepts(Start, e);
    assert !Accepts(Start, ";' ;");
    assert !Accepts(Start, d);
  }

  // ----- triggers -----

  function Run(st: State, ts: seq<Kind>): State {
    if |ts| == 0 then st else Trans(Run(st, ts[..|ts| - 1]), ts[|ts| - 1])
  }

  /** The tokens that are not white space or comments. */
  function Significant(ts: seq<Kind>): seq<Kind> {
    if |ts| == 0 then []
    else Significant(ts[..|ts| - 1]) + if ts[|ts| - 1] == Ws then [] else [ts[|ts| - 1]]
  }

  /** The token `k` places before the end. */
  predicate Last(ts: seq<Kind>, k: nat, t: Kind) {
    k < |ts| && ts[|ts| - 1 - k] == t
  }

  /** The state of a trigger definition, from its last tokens alone. */
  function AfterTokens(ts: seq<Kind>): State {
    if Last(ts, 2, Semi) && Last(ts, 1, End) && Last(ts, 0, Semi) then Start
    else if Last(ts, 1, Semi) && Last(ts, 0, End) then AfterEnd
    else if Last(ts, 0, Semi) then AfterSemi
    else InTrigger
  }

  /** Inside a trigger definition the scan is back at the start of a statement for the first time
      exactly when the last tokens are a semicolon, END and a semicolon. */
  lemma {:induction false} TriggerEnds(ts: seq<Kind>)
    requires forall k :: 0 <= k < |ts| ==> Run(InTrigger, ts[..k]) != Start
    ensures Run(InTrigger, ts) == AfterTokens(Significant(ts))
    decreases |ts|
  {
    if |ts| > 0 {
      var n := |ts| - 1;
      var u, t := ts[..n], ts[n];
      forall k | 0 <= k < n
        ensures Run(InTrigger, u[..k]) != Start
      {
        assert u[..k] == ts[..k];
      }
      TriggerEnds(u);
      if t != Ws {
        LastToken(Significant(u), t);
      } else {
        assert Significant(u) + [] == Significant(u);
      }
    }
  }

  lemma LastToken(ts: seq<Kind>, t: Kind)
    requires t != Ws && AfterTokens(ts) != Start
    ensures AfterTokens(ts + [t]) == Trans(AfterTokens(ts), t)
  {
    assert forall k: nat, x :: Last(ts + [t], k + 1, x) <==> Last(ts, k, x);
  }

  // ----- texts and tokens -----

  /** The tokens of a text, up to a line comment that ends it. */
  function Tokens(s: string): seq<Kind>
    decreases |s|
  {
    if |s| == 0 || !Lex(s).Token? then [] else [Lex(s).t] + Tokens(s[Lex(s).n..])
  }

  predicate Closed(s: string)
    decreases |s|
  {
    |s| == 0 || Lex(s) == LineComment || (Lex(s).Token? && Closed(s[Lex(s).n..]))
  }

  lemma {:induction false} RunFirst(st: State, t: Kind, ts: seq<Kind>)
    ensures Run(st, [t] + ts) == Run(Trans(st, t), ts)
    decreases |ts|
  {
    var all := [t] + ts;
    if |ts| == 0 {
      assert all == [t] && all[..0] == [];
    } else {
      assert all[..|all| - 1] == [t] + ts[..|ts| - 1];
      RunFirst(st, t, ts[..|ts| - 1]);
    }
  }

  /** A text is accepted when it leaves nothing open and its tokens lead to the start state. */
  lemma {:induction false} AcceptsTokens(st: State, s: string)
    ensures Accepts(st, s) <==> Closed(s) && Run(st, Tokens(s)) == Start
    decreases |s|
  {
    if |s| > 0 && Lex(s).Token? {
      var t, n := Lex(s).t, Lex(s).n;
      AcceptsTokens(Trans(st, t), s[n..]);
      RunFirst(st, t, Tokens(s[n..]));
    }
  }
}
