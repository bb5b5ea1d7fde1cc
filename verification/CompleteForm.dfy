/** Complete texts as sequences of statements, without the transition table. */
module CompleteForm {
  import opened Complete
  import opened Letters

  // ----- statements -----

  /** EXPLAIN and any number of other tokens. */
  ghost predicate Explained(ts: seq<Kind>) {
    |ts| > 0 && ts[0] == Explain && forall i :: 1 <= i < |ts| ==> ts[i] == Other
  }

  ghost predicate CreatedAt(ts: seq<Kind>, j: int) {
    && 0 <= j < |ts| && (j == 0 || Explained(ts[..j]))
    && ts[j] == Create && forall i :: j < i < |ts| ==> ts[i] == Temp
  }

  /** CREATE, perhaps explained, and any number of TEMP. */
  ghost predicate Created(ts: seq<Kind>) {
    exists j :: CreatedAt(ts, j)
  }

  /** The head of a trigger definition, up to TRIGGER. */
  ghost predicate Head(ts: seq<Kind>) {
    |ts| > 0 && ts[|ts| - 1] == Trigger && Created(ts[..|ts| - 1])
  }

  /** A head is behind us. */
  ghost predicate Headed(ts: seq<Kind>) {
    exists i :: 0 <= i <= |ts| && Head(ts[..i])
  }

  ghost predicate EndsAt(ts: seq<Kind>, k: int) {
    0 <= k && k + 3 <= |ts| && ts[k] == Semi && ts[k + 1] == End && ts[k + 2] == Semi
  }

  /** A head of length `i`, and a body up to the first semicolon, END and semicolon. */
  ghost predicate TriggerAt(ts: seq<Kind>, i: int) {
    && 0 <= i <= |ts| - 3 && Head(ts[..i]) && EndsAt(ts, |ts| - 3)
    && forall k :: i <= k < |ts| - 3 ==> !EndsAt(ts, k)
  }

  ghost predicate TriggerStatement(ts: seq<Kind>) {
    exists i :: TriggerAt(ts, i)
  }

  /** Anything else, up to its first semicolon. */
  ghost predicate PlainStatement(ts: seq<Kind>) {
    && |ts| > 0 && ts[|ts| - 1] == Semi && (forall i :: 0 <= i < |ts| - 1 ==> ts[i] != Semi)
    && !Headed(ts)
  }

  ghost predicate Statement(ts: seq<Kind>) {
    TriggerStatement(ts) || PlainStatement(ts)
  }

  ghost predicate Statements(ts: seq<Kind>)
    decreases |ts|
  {
    ts == [] || exists n :: 0 < n <= |ts| && Statement(ts[..n]) && Statements(ts[n..])
  }

  ghost predicate Solid(ts: seq<Kind>) {
    forall i :: 0 <= i < |ts| ==> ts[i] != Ws
  }

  // ----- one more token -----

  lemma ExplainedNext(u: seq<Kind>, t: Kind)
    ensures Explained(u + [t]) <==> (u == [] && t == Explain) || (Explained(u) && t == Other)
  {
    var ts := u + [t];
    assert |u| > 0 ==> ts[0] == u[0] && ts[|u|] == t;
    assert forall i :: 0 <= i < |u| ==> ts[i] == u[i];
  }

  lemma CreatedNext(u: seq<Kind>, t: Kind)
    ensures Created(u + [t]) <==> (t == Create && (u == [] || Explained(u))) || (t == Temp && Created(u))
  {
    var ts := u + [t];
    assert forall i :: 0 <= i < |u| ==> ts[i] == u[i];
    assert ts[..|u|] == u;
    if t == Create && (u == [] || Explained(u)) {
      assert CreatedAt(ts, |u|);
    }
    if t == Temp && Created(u) {
      var j :| CreatedAt(u, j);
      assert ts[..j] == u[..j];
      assert CreatedAt(ts, j);
    }
    if j :| CreatedAt(ts, j) {
      if j < |u| {
        assert ts[|u|] == Temp && ts[..j] == u[..j];
        assert CreatedAt(u, j);
      }
    }
  }

  lemma HeadedNext(u: seq<Kind>, t: Kind)
    ensures Headed(u + [t]) <==> Headed(u) || (t == Trigger && Created(u))
  {
    var ts := u + [t];
    assert ts[..|u|] == u && ts[..|ts|] == ts;
    if Headed(u) {
      var i :| 0 <= i <= |u| && Head(u[..i]);
      assert ts[..i] == u[..i];
    }
    if t == Trigger && Created(u) {
      assert Head(ts[..|ts|]);
    }
    if i :| 0 <= i <= |ts| && Head(ts[..i]) {
      if i < |ts| {
        assert ts[..i] == u[..i];
      }
    }
  }

  /** Nothing but these tokens stands before the TRIGGER of a head. */
  lemma HeadTokens(ts: seq<Kind>, i: nat)
    requires i <= |ts| && Head(ts[..i])
    ensures i > 0 && ts[i - 1] == Trigger
    ensures forall k :: 0 <= k < i - 1 ==> ts[k] in {Explain, Other, Create, Temp}
  {
    var u := ts[..i][..i - 1];
    var j :| CreatedAt(u, j);
    forall k | 0 <= k < i - 1
      ensures ts[k] in {Explain, Other, Create, Temp}
    {
      assert u[k] == ts[k];
      if k < j {
        assert u[k] == u[..j][k];
      }
    }
  }

  lemma HeadOnce(ts: seq<Kind>, i: nat, j: nat)
    requires i <= |ts| && j <= |ts| && Head(ts[..i]) && Head(ts[..j])
    ensures i == j
  {
    HeadTokens(ts, i);
    HeadTokens(ts, j);
  }

  // ----- the states -----

  /** Every token so far has left the scan inside one statement. */
  ghost predicate Inside(ts: seq<Kind>) {
    forall k :: 0 < k <= |ts| ==> Run(Start, ts[..k]) != Start
  }

  lemma InsidePrefix(ts: seq<Kind>, n: nat)
    requires n <= |ts| && Inside(ts)
    ensures Inside(ts[..n])
  {
    assert forall k :: 0 < k <= n ==> ts[..n][..k] == ts[..k];
  }

  lemma RunNext(st: State, ts: seq<Kind>, n: nat)
    requires n < |ts|
    ensures Run(st, ts[..n + 1]) == Trans(Run(st, ts[..n]), ts[n])
  {
    assert ts[..n + 1][..n] == ts[..n];
  }

  ghost predicate SemiLast(ts: seq<Kind>) {
    |ts| > 0 && ts[|ts| - 1] == Semi && Headed(ts[..|ts| - 1])
  }

  ghost predicate EndLast(ts: seq<Kind>) {
    |ts| > 1 && ts[|ts| - 1] == End && SemiLast(ts[..|ts| - 1])
  }

  /** What each state says about the tokens of the statement under way. */
  ghost predicate Tells(st: State, ts: seq<Kind>) {
    && st != Invalid && st != Start
    && (st == InExplain <==> Explained(ts))
    && (st == InCreate <==> Created(ts))
    && (st in {InTrigger, AfterSemi, AfterEnd} <==> Headed(ts))
    && (st == AfterSemi <==> SemiLast(ts))
    && (st == AfterEnd <==> EndLast(ts))
  }

  lemma Nothing()
    ensures !Explained([]) && !Created([]) && !Headed([]) && !SemiLast([]) && !EndLast([])
  {
  }

  lemma FirstTold(t: Kind)
    requires t != Ws && t != Semi
    ensures Tells(Trans(Start, t), [t])
  {
    Nothing();
    ExplainedNext([], t);
    CreatedNext([], t);
    HeadedNext([], t);
    assert [] + [t] == [t] && [t][..0] == [];
  }

  lemma NextTold(st: State, u: seq<Kind>, t: Kind)
    requires Tells(st, u) && u != [] && t != Ws && Trans(st, t) != Start
    ensures Tells(Trans(st, t), u + [t])
  {
    ExplainedNext(u, t);
    CreatedNext(u, t);
    HeadedNext(u, t);
    assert (u + [t])[..|u|] == u;
  }

  lemma {:induction false} Told(ts: seq<Kind>)
    requires |ts| > 0 && Solid(ts) && Inside(ts)
    ensures Tells(Run(Start, ts), ts)
    decreases |ts|
  {
    var n := |ts| - 1;
    var u, t := ts[..n], ts[n];
    assert ts[..n + 1] == ts == u + [t];
    RunNext(Start, ts, n);
    if n == 0 {
      assert Run(Start, u) == Start && u == [];
      FirstTold(t);
    } else {
      InsidePrefix(ts, n);
      Told(u);
      NextTold(Run(Start, u), u, t);
    }
  }

  // ----- the first return to the start -----

  ghost predicate Returns(ts: seq<Kind>) {
    |ts| > 0 && Inside(ts[..|ts| - 1]) && Run(Start, ts) == Start
  }

  lemma HeadedMore(ts: seq<Kind>, i: nat, n: nat)
    requires i <= n <= |ts| && Head(ts[..i])
    ensures Headed(ts[..n])
  {
    assert ts[..n][..i] == ts[..i];
  }

  /** The end of a trigger definition is in sight after a semicolon and END. */
  lemma EndLastIs(ts: seq<Kind>, n: nat)
    requires 2 <= n <= |ts|
    ensures EndLast(ts[..n]) <==> ts[n - 2] == Semi && ts[n - 1] == End && Headed(ts[..n - 2])
  {
    var v := ts[..n];
    assert v[..|v| - 1] == ts[..n - 1] && ts[..n - 1][..n - 2] == ts[..n - 2];
  }

  /** Inside a trigger definition a semicolon, END and a semicolon lead out. */
  lemma WayOut(ts: seq<Kind>, i: nat, k: nat)
    requires Solid(ts) && EndsAt(ts, k) && i <= k && Head(ts[..i]) && Inside(ts[..k + 2])
    ensures Run(Start, ts[..k + 3]) == Start
  {
    HeadedMore(ts, i, k);
    EndLastIs(ts, k + 2);
    Told(ts[..k + 2]);
    RunNext(Start, ts, k + 2);
  }

  /** Outside a trigger definition a semicolon leads out. */
  lemma PlainOut(ts: seq<Kind>, i: nat)
    requires Solid(ts) && i < |ts| && ts[i] == Semi && Inside(ts[..i]) && !Headed(ts[..i])
    ensures Run(Start, ts[..i + 1]) == Start
  {
    RunNext(Start, ts, i);
    if i > 0 {
      Told(ts[..i]);
    } else {
      assert Run(Start, ts[..i]) == Start;
    }
  }

  lemma NotHeaded(ts: seq<Kind>, i: nat)
    requires i <= |ts| && !Headed(ts)
    ensures !Headed(ts[..i])
  {
    assert forall j :: 0 <= j <= i ==> ts[..i][..j] == ts[..j];
  }

  lemma ReturnsPlain(ts: seq<Kind>)
    requires Solid(ts) && Returns(ts) && !Headed(ts[..|ts| - 1])
    ensures PlainStatement(ts)
  {
    var n := |ts| - 1;
    var u := ts[..n];
    assert ts[..n + 1] == ts == u + [ts[n]];
    RunNext(Start, ts, n);
    if n > 0 {
      Told(u);
    } else {
      assert Run(Start, u) == Start;
    }
    assert ts[n] == Semi;
    HeadedNext(u, ts[n]);
    forall i | 0 <= i < n
      ensures ts[i] != Semi
    {
      if ts[i] == Semi {
        InsidePrefix(u, i);
        NotHeaded(u, i);
        PlainOut(u, i);
      }
    }
  }

  lemma ReturnsTrigger(ts: seq<Kind>)
    requires Solid(ts) && Returns(ts) && Headed(ts[..|ts| - 1])
    ensures TriggerStatement(ts)
  {
    var n := |ts| - 1;
    LastThree(ts);
    var v := ts[..n - 2];
    var i :| 0 <= i <= |v| && Head(v[..i]);
    assert v[..i] == ts[..i];
    forall k | i <= k < n - 2
      ensures !EndsAt(ts, k)
    {
      NoEarlier(ts, i, k);
    }
    assert TriggerAt(ts, i);
  }

  lemma LastThree(ts: seq<Kind>)
    requires Solid(ts) && Returns(ts) && Headed(ts[..|ts| - 1])
    ensures |ts| >= 3 && EndsAt(ts, |ts| - 3) && Headed(ts[..|ts| - 3])
  {
    var n := |ts| - 1;
    assert ts[..n + 1] == ts;
    RunNext(Start, ts, n);
    Nothing();
    Told(ts[..n]);
    EndLastIs(ts, n);
  }

  lemma NoEarlier(ts: seq<Kind>, i: nat, k: nat)
    requires Solid(ts) && Returns(ts) && i <= k < |ts| - 3 && Head(ts[..i])
    ensures !EndsAt(ts, k)
  {
    var n := |ts| - 1;
    InsidePrefix(ts[..n], k + 2);
    assert ts[..n][..k + 2] == ts[..k + 2] && ts[..n][..k + 3] == ts[..k + 3];
    assert Run(Start, ts[..k + 3]) != Start;
    if EndsAt(ts, k) {
      WayOut(ts, i, k);
    }
  }

  lemma ReturnsStatement(ts: seq<Kind>)
    requires Solid(ts) && Returns(ts)
    ensures Statement(ts)
  {
    if Headed(ts[..|ts| - 1]) {
      ReturnsTrigger(ts);
    } else {
      ReturnsPlain(ts);
    }
  }

  /** The first return, if there is one. */
  lemma {:induction false} FirstReturn(ts: seq<Kind>) returns (n: nat)
    requires !Inside(ts)
    ensures 0 < n <= |ts| && Returns(ts[..n])
    decreases |ts|
  {
    var m := |ts| - 1;
    if Inside(ts[..m]) {
      n := |ts|;
      assert forall k :: 0 < k <= m ==> ts[..m][..k] == ts[..k];
      assert ts[..|ts|] == ts;
    } else {
      n := FirstReturn(ts[..m]);
      assert ts[..m][..n] == ts[..n];
    }
  }

  /** No shorter prefix of a statement is a statement. */
  lemma NoShorter(ts: seq<Kind>, n: nat)
    requires Statement(ts) && n < |ts|
    ensures !Statement(ts[..n])
  {
    var u := ts[..n];
    if i :| TriggerAt(ts, i) {
      HeadTokens(ts, i);
      assert i <= n ==> u[..i] == ts[..i];
      assert n > 0 ==> u[n - 1] == ts[n - 1];
      forall j | TriggerAt(u, j)
        ensures j == i && EndsAt(ts, n - 3)
      {
        assert u[..j] == ts[..j];
        HeadOnce(ts, i, j);
      }
    } else {
      assert forall j :: 0 <= j <= n ==> u[..j] == ts[..j];
      assert n > 0 ==> u[n - 1] == ts[n - 1];
    }
  }

  lemma StatementInside(ts: seq<Kind>)
    requires Solid(ts) && Statement(ts)
    ensures Inside(ts[..|ts| - 1])
  {
    var u := ts[..|ts| - 1];
    if !Inside(u) {
      var n := FirstReturn(u);
      assert u[..n] == ts[..n];
      ReturnsStatement(ts[..n]);
      NoShorter(ts, n);
    }
  }

  lemma StatementReturns(ts: seq<Kind>)
    requires Solid(ts) && Statement(ts)
    ensures Returns(ts)
  {
    var n := |ts| - 1;
    StatementInside(ts);
    assert ts[..n + 1] == ts;
    if PlainStatement(ts) {
      NotHeaded(ts, n);
      PlainOut(ts, n);
    } else {
      var i :| TriggerAt(ts, i);
      assert ts[..n - 2 + 2] == ts[..n];
      WayOut(ts, i, n - 2);
    }
  }

  // ----- whole texts -----

  lemma {:induction false} RunSplit(st: State, a: seq<Kind>, b: seq<Kind>)
    ensures Run(st, a + b) == Run(Run(st, a), b)
    decreases |b|
  {
    if b == [] {
      assert a + b == a;
    } else {
      var n := |b| - 1;
      RunSplit(st, a, b[..n]);
      assert (a + b)[..|a + b| - 1] == a + b[..n];
    }
  }

  /** A run comes back to the start of a statement exactly when its tokens are whole statements. */
  lemma {:induction false} StatementsRun(ts: seq<Kind>)
    requires Solid(ts)
    ensures Run(Start, ts) == Start <==> Statements(ts)
    decreases |ts|
  {
    if ts != [] {
      if Run(Start, ts) == Start {
        assert ts[..|ts|] == ts;
        var n := FirstReturn(ts);
        ReturnsStatement(ts[..n]);
        Rest(ts, n);
      }
      if n :| 0 < n <= |ts| && Statement(ts[..n]) && Statements(ts[n..]) {
        StatementReturns(ts[..n]);
        Rest(ts, n);
      }
    }
  }

  lemma {:induction false} Rest(ts: seq<Kind>, n: nat)
    requires Solid(ts) && 0 < n <= |ts| && Run(Start, ts[..n]) == Start
    ensures Run(Start, ts) == Start <==> Statements(ts[n..])
    decreases |ts|, 0
  {
    assert ts == ts[..n] + ts[n..];
    RunSplit(Start, ts[..n], ts[n..]);
    StatementsRun(ts[n..]);
  }

  /** The first token does the same from either start. */
  lemma FromInvalid(ts: seq<Kind>)
    requires Solid(ts) && ts != []
    ensures Run(Invalid, ts) == Run(Start, ts)
  {
    assert ts == [ts[0]] + ts[1..];
    RunFirst(Invalid, ts[0], ts[1..]);
    RunFirst(Start, ts[0], ts[1..]);
  }

  /** White space and comments do not count. */
  lemma {:induction false} RunSignificant(st: State, ts: seq<Kind>)
    ensures Solid(Significant(ts)) && Run(st, Significant(ts)) == Run(st, ts)
    decreases |ts|
  {
    if |ts| > 0 {
      var n := |ts| - 1;
      var u := Significant(ts[..n]);
      RunSignificant(st, ts[..n]);
      if ts[n] == Ws {
        assert u + [] == u;
      } else {
        assert (u + [ts[n]])[..|u|] == u;
      }
    }
  }

  /** A text is complete exactly when it leaves nothing open, and its tokens that are not white
      space or comments are one or more whole statements. */
  lemma CompleteIff(s: string)
    ensures Accepts(Invalid, s) <==>
      var ts := Significant(Tokens(s));
      Closed(s) && ts != [] && Statements(ts)
  {
    var ts := Significant(Tokens(s));
    AcceptsTokens(Invalid, s);
    RunSignificant(Invalid, Tokens(s));
    if ts != [] {
      FromInvalid(ts);
      StatementsRun(ts);
    }
  }

  /** The words that are more than other tokens, in any case. */
  lemma KeywordIs(id: string)
    ensures Keyword(id) == Create <==> Respelling(id, "create")
    ensures Keyword(id) == Trigger <==> Respelling(id, "trigger")
    ensures Keyword(id) == Temp <==> Respelling(id, "temp") || Respelling(id, "temporary")
    ensures Keyword(id) == End <==> Respelling(id, "end")
    ensures Keyword(id) == Explain <==> Respelling(id, "explain")
  {
    SpellsIs(id, "create");
    SpellsIs(id, "trigger");
    SpellsIs(id, "temp");
    SpellsIs(id, "temporary");
    SpellsIs(id, "end");
    SpellsIs(id, "explain");
    assert !(Spells(id, "trigger") && Spells(id, "explain")) by {
      assert "trigger"[0] != "explain"[0];
    }
  }

  lemma SpellsIs(id: string, word: string)
    requires forall i :: 0 <= i < |word| ==> 'a' <= word[i] <= 'z'
    ensures Spells(id, word) <==> Respelling(id, word)
  {
    if |id| == |word| {
      forall i | 0 <= i < |id|
        ensures Lower(id[i]) == word[i] <==> SameLetter(id[i] as int, word[i] as int)
      {
        SameLower(id[i] as int, word[i] as int);
      }
    }
  }
}
