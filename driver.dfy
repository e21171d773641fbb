/** The table-driven stack automaton of `parseTokens`: one step at a time
    over a configuration (stack, input position), with the end-of-input token
    appended to the token list and the diagnostics as values. */
module Driver {
  import opened Grammar
  import opened FirstFollow
  import opened Table

  /** The two syntax-error lines the parser can write. */
  datatype Diagnostic =
    | ExpectedButFound(line: int, expected: string, found: string)
    | UnexpectedToken(line: int, found: string)

  /** How a run ends. `StackExhausted` is the `return false` after the loop
      (the stack emptied without accepting, which needs a rule whose
      left-hand side is `$`); `OutOfFuel` stands for a run that has not
      finished within the step bound the model is given. */
  datatype Outcome = Accepted | SyntaxError(diagnostic: Diagnostic) | StackExhausted | OutOfFuel

  /** The parse stack (top at the end) and the position in the input. */
  datatype Config = Config(stack: seq<string>, index: nat)

  datatype StepResult = Continue(next: Config) | Halt(outcome: Outcome)

  /** How a run ended, and in which configuration. */
  datatype Final = Final(outcome: Outcome, last: Config)

  /** The token `{-1, "$", "$"}` appended before parsing. */
  const EndToken: Token := Token(-1, EndMarker, EndMarker)

  function Input(tokens: seq<Token>): seq<Token> {
    tokens + [EndToken]
  }

  /** The stack starts as `$` under the start symbol, at the first token. */
  function Initial(start: string): Config {
    Config([EndMarker, start], 0)
  }

  /** The input position is on a token, and the input ends with an
      end-of-input token. */
  predicate ValidConfig(input: seq<Token>, c: Config) {
    c.index < |input| && input[|input| - 1].kind == EndMarker
  }

  function Top(c: Config): string
    requires |c.stack| > 0
  {
    c.stack[|c.stack| - 1]
  }

  /** What the expansion loop pushes for a right-hand side: its symbols from
      the right, skipping `epsilon`, so that the leftmost ends on top. */
  function Pushes(rhs: seq<string>): seq<string> {
    if rhs == [] then []
    else Pushes(rhs[1..]) + (if rhs[0] == Epsilon then [] else [rhs[0]])
  }

  /** A right-hand side without its `epsilon` markers, in reading order. */
  function NonEpsilon(rhs: seq<string>): seq<string> {
    if rhs == [] then []
    else (if rhs[0] == Epsilon then [] else [rhs[0]]) + NonEpsilon(rhs[1..])
  }

  /** Read from the top down, the pushed symbols are the right-hand side in
      reading order without `epsilon`. */
  lemma {:induction false} PushesReadsRhsFromTop(rhs: seq<string>)
    ensures |Pushes(rhs)| == |NonEpsilon(rhs)|
    ensures forall k :: 0 <= k < |Pushes(rhs)| ==> Pushes(rhs)[|Pushes(rhs)| - 1 - k] == NonEpsilon(rhs)[k]
    ensures Epsilon !in Pushes(rhs)
  {
    if rhs != [] {
      PushesReadsRhsFromTop(rhs[1..]);
      var p := Pushes(rhs[1..]);
      if rhs[0] != Epsilon {
        forall k | 0 <= k < |Pushes(rhs)|
          ensures Pushes(rhs)[|Pushes(rhs)| - 1 - k] == NonEpsilon(rhs)[k]
        {
          if k > 0 {
            assert Pushes(rhs)[|Pushes(rhs)| - 1 - k] == p[|p| - 1 - (k - 1)];
          }
        }
      }
    }
  }

  /** The diagnostic for a missing table entry. When the current token is
      the appended end token (negative line, value `$`) the line and text
      are taken from the token before it — if there is one; on the first
      token the current one is used. */
  function NoEntryDiagnostic(input: seq<Token>, index: nat): (d: Diagnostic)
    requires index < |input|
    ensures d.UnexpectedToken?
    ensures d.line == input[index].line || (index > 0 && d.line == input[index - 1].line)
    ensures d.found == input[index].value || (index > 0 && d.found == input[index - 1].value)
    ensures index > 0 && input[index] == EndToken ==>
      d.line == input[index - 1].line && d.found == input[index - 1].value
    ensures input[index].line >= 0 || index == 0 ==> d.line == input[index].line
    ensures input[index].line < 0 && index > 0 ==> d.line == input[index - 1].line
    ensures input[index].value != EndMarker || index == 0 ==> d.found == input[index].value
    ensures input[index].value == EndMarker && index > 0 ==> d.found == input[index - 1].value
  {
    var current := input[index];
    var line := if current.line < 0 && index > 0 then input[index - 1].line else current.line;
    var found := if current.value == EndMarker && index > 0 then input[index - 1].value else current.value;
    UnexpectedToken(line, found)
  }

  /** The positions the no-entry branch reads its line and text from AS
      WRITTEN: one before the current token whenever that token has a
      negative line or the value `$`, with no check that one exists. */
  function NoEntrySourcesAsWritten(input: seq<Token>, index: nat): (r: (int, int))
    requires index < |input|
  {
    (if input[index].line < 0 then index - 1 else index,
     if input[index].value == EndMarker then index - 1 else index)
  }

  /** One iteration of the parse loop on a non-empty stack: accept on `$`
      over `$`; shift when the top equals the current token's type (tested
      before the terminal test); an ExpectedButFound error when the top is
      another terminal; otherwise expand by the table entry for
      (top, token type), or report the missing entry. */
  function Step(table: ParseTable, terminals: set<string>, input: seq<Token>, c: Config): (r: StepResult)
    requires ValidConfig(input, c) && |c.stack| > 0
    ensures r.Continue? ==> ValidConfig(input, r.next)
    ensures r == Halt(Accepted) <==> Top(c) == EndMarker && input[c.index].kind == EndMarker
    ensures r.Continue? && r.next.index != c.index ==>
      r.next.index == c.index + 1 && Top(c) == input[c.index].kind && r.next.stack == c.stack[..|c.stack| - 1]
    ensures r.Continue? && r.next.index == c.index ==>
      Top(c) !in terminals && (Top(c), input[c.index].kind) in table
    ensures r.Halt? && r.outcome.SyntaxError? && r.outcome.diagnostic.ExpectedButFound? ==>
      r.outcome.diagnostic == ExpectedButFound(input[c.index].line, Top(c), input[c.index].value)
      && Top(c) in terminals && Top(c) != input[c.index].kind
    // Which branch is taken, by the order of the tests: shift before the
    // terminal test, the table lookup last.
    ensures Top(c) == input[c.index].kind && Top(c) != EndMarker ==>
      r == Continue(Config(c.stack[..|c.stack| - 1], c.index + 1))
    ensures Top(c) != input[c.index].kind && Top(c) in terminals ==>
      r == Halt(SyntaxError(ExpectedButFound(input[c.index].line, Top(c), input[c.index].value)))
    ensures Top(c) != input[c.index].kind && Top(c) !in terminals && (Top(c), input[c.index].kind) !in table ==>
      r == Halt(SyntaxError(NoEntryDiagnostic(input, c.index)))
    ensures Top(c) != input[c.index].kind && Top(c) !in terminals && (Top(c), input[c.index].kind) in table ==>
      r == Continue(Config(c.stack[..|c.stack| - 1] + Pushes(table[(Top(c), input[c.index].kind)].rhs), c.index))
  {
    var top := Top(c);
    var current := input[c.index];
    if top == EndMarker && current.kind == EndMarker then Halt(Accepted)
    else if top == current.kind then Continue(Config(c.stack[..|c.stack| - 1], c.index + 1))
    else if top in terminals then Halt(SyntaxError(ExpectedButFound(current.line, top, current.value)))
    else if (top, current.kind) !in table then Halt(SyntaxError(NoEntryDiagnostic(input, c.index)))
    else Continue(Config(c.stack[..|c.stack| - 1] + Pushes(table[(top, current.kind)].rhs), c.index))
  }

  /** At most `fuel` iterations of the parse loop from `c`. */
  function Run(table: ParseTable, terminals: set<string>, input: seq<Token>, c: Config, fuel: nat): (f: Final)
    requires ValidConfig(input, c)
    ensures ValidConfig(input, f.last) && f.last.index >= c.index
    ensures f.outcome == Accepted ==>
      |f.last.stack| > 0 && Top(f.last) == EndMarker && input[f.last.index].kind == EndMarker
    decreases fuel
  {
    if c.stack == [] then Final(StackExhausted, c)
    else if fuel == 0 then Final(OutOfFuel, c)
    else
      match Step(table, terminals, input, c)
      case Halt(o) => Final(o, c)
      case Continue(next) => Run(table, terminals, input, next, fuel - 1)
  }

  /** When no real token has type `$`, a run accepts only after consuming
      every token: input left over is never accepted. */
  lemma AcceptsOnlyAtEnd(table: ParseTable, terminals: set<string>, tokens: seq<Token>, c: Config, fuel: nat)
    requires ValidConfig(Input(tokens), c)
    requires forall i :: 0 <= i < |tokens| ==> tokens[i].kind != EndMarker
    requires Run(table, terminals, Input(tokens), c, fuel).outcome == Accepted
    ensures Run(table, terminals, Input(tokens), c, fuel).last.index == |tokens|
  {
  }

  // ------------------------------------------------------------ scenarios

  /** Grammar `S -> a`: its table has the single entry (S, a). */
  function TableSa(): ParseTable {
    map[("S", "a") := GrammarRule("S", ["a"])]
  }

  /** Grammar `S -> a`, tokens `1 a a`: accepted. */
  lemma AcceptsSingleToken()
    ensures Run(TableSa(), {"a"}, Input([Token(1, "a", "a")]), Initial("S"), 3).outcome == Accepted
  {
    var input := Input([Token(1, "a", "a")]);
    var c1 := Config([EndMarker, "a"], 0);
    assert Step(TableSa(), {"a"}, input, Initial("S")) == Continue(c1);
    var c2 := Config([EndMarker], 1);
    assert c1.stack[..1] == [EndMarker];
    assert Step(TableSa(), {"a"}, input, c1) == Continue(c2);
  }

  /** Grammar `S -> a`, tokens `1 b b`: S is a nonterminal with no entry
      for `b`, so the code reports an unexpected token, not an expected one. */
  lemma RejectsWrongToken()
    ensures Run(TableSa(), {"a"}, Input([Token(1, "b", "b")]), Initial("S"), 3).outcome
      == SyntaxError(UnexpectedToken(1, "b"))
  {
  }

  /** Grammar `S -> A b`, `A -> a`, `A -> epsilon`: the table from its FIRST
      and FOLLOW sets, with (A, b) reached through FOLLOW(A). */
  function TableSAb(): ParseTable {
    map[("S", "a") := GrammarRule("S", ["A", "b"]), ("S", "b") := GrammarRule("S", ["A", "b"]),
        ("A", "a") := GrammarRule("A", ["a"]), ("A", "b") := GrammarRule("A", [Epsilon])]
  }

  /** TableSAb is what the table builder writes for `S -> A b`, `A -> a`,
      `A -> epsilon` from the FIRST sets of that grammar and FOLLOW(A) = {b}:
      those FIRST and FOLLOW sets are closed, and S, which occurs on no
      right-hand side, has no FOLLOW set, so no `$` entry. */
  lemma TableSAbIsBuilt()
    ensures FirstClosed(GrammarSAb(), {"b", "a", Epsilon}, FirstSAb())
    ensures FollowClosed(GrammarSAb(), {"S", "A"}, "S", {"b", "a", Epsilon}, FirstSAb(), map["A" := {"b"}])
    ensures TableOf({"b", "a", Epsilon}, FirstSAb(), map["A" := {"b"}], GrammarSAb()) == TableSAb()
  {
    FirstSetsExample(FirstSAb());
    FollowSAbClosed();
    TableOfSAb();
  }

  function GrammarSAb(): seq<GrammarRule> {
    [GrammarRule("S", ["A", "b"]), GrammarRule("A", ["a"]), GrammarRule("A", [Epsilon])]
  }

  function FirstSAb(): SymbolSets {
    map["S" := {"a", Epsilon, "b"}, "A" := {"a", Epsilon}]
  }

  lemma FollowSAbClosed()
    ensures FollowClosed(GrammarSAb(), {"S", "A"}, "S", {"b", "a", Epsilon}, FirstSAb(), map["A" := {"b"}])
  {
    var g := [GrammarRule("S", ["A", "b"]), GrammarRule("A", ["a"]), GrammarRule("A", [Epsilon])];
    var terminals := {"b", "a", Epsilon};
    var first := map["S" := {"a", Epsilon, "b"}, "A" := {"a", Epsilon}];
    var follow := map["A" := {"b"}];
    forall j, k | 0 <= j < |g| && 0 <= k < |g[j].rhs|
      ensures g[j].rhs[k] in {"S", "A"} ==> j == 0 && k == 0
    {
      if j == 0 { assert g[j].rhs == ["A", "b"]; }
      else if j == 1 { assert g[j].rhs == ["a"]; }
      else { assert g[j].rhs == [Epsilon]; }
    }
    assert g[0].rhs[0] == "A";
    assert Occurring(g, {"S", "A"}) == {"A"};
    assert g[0].rhs[1..] == ["b"];
    assert FirstOf(terminals, first, ["b"]) == {"b"};
    assert OccurrenceFollow(terminals, first, follow, "A", g[0], 0) == {"b"};
    assert FollowInRhs(terminals, first, follow, "A", g[0], 1) == {"b"};
    assert OccurrenceFollow(terminals, first, follow, "A", g[0], 1) == {};
    assert FollowInRhs(terminals, first, follow, "A", g[0], 2) == {"b"};
    assert FollowInRhs(terminals, first, follow, "A", g[1], 1) == {};
    assert FollowInRhs(terminals, first, follow, "A", g[2], 1) == {};
    assert g[..|g| - 1] == g[..2] && g[..2][..1] == g[..1] && g[..1][..0] == [];
    assert FollowInRules(terminals, first, follow, "A", g[..1]) == {"b"};
    assert FollowInRules(terminals, first, follow, "A", g[..2]) == {"b"};
    assert FollowOf(g, "S", terminals, first, follow, "A") == {"b"};
  }

  lemma TableOfSAb()
    ensures TableOf({"b", "a", Epsilon}, FirstSAb(), map["A" := {"b"}], GrammarSAb()) == TableSAb()
  {
    var g := GrammarSAb();
    TableSAbFirstRule();
    LookaheadsSAb();
    TableOfSingleLookahead({"b", "a", Epsilon}, FirstSAb(), map["A" := {"b"}], g, 1, "a");
    TableOfSingleLookahead({"b", "a", Epsilon}, FirstSAb(), map["A" := {"b"}], g, 2, "b");
    assert g[..3] == g;
  }

  /** The lookaheads of `A -> a` and `A -> epsilon`. */
  lemma LookaheadsSAb()
    ensures Lookaheads({"b", "a", Epsilon}, FirstSAb(), map["A" := {"b"}], GrammarSAb()[1]) == {"a"}
    ensures Lookaheads({"b", "a", Epsilon}, FirstSAb(), map["A" := {"b"}], GrammarSAb()[2]) == {"b"}
  {
  }

  /** The table of the rule `S -> A b` alone: S on both `a` and `b`. */
  lemma TableSAbFirstRule()
    ensures TableOf({"b", "a", Epsilon}, FirstSAb(), map["A" := {"b"}], GrammarSAb()[..1])
      == map[("S", "a") := GrammarRule("S", ["A", "b"]), ("S", "b") := GrammarRule("S", ["A", "b"])]
  {
    var g := [GrammarRule("S", ["A", "b"]), GrammarRule("A", ["a"]), GrammarRule("A", [Epsilon])];
    var terminals := {"b", "a", Epsilon};
    var first := map["S" := {"a", Epsilon, "b"}, "A" := {"a", Epsilon}];
    var follow := map["A" := {"b"}];
    assert g[0].rhs[1..] == ["b"];
    assert FirstOf(terminals, first, ["b"]) == {"b"};
    assert FirstOf(terminals, first, g[0].rhs) == {"a", Epsilon, "b"};
    assert Lookaheads(terminals, first, follow, g[0]) == {"a", "b"};
    TableOfSnoc(terminals, first, follow, g, 0);
    assert g[..0] == [];
  }

  /** Tokens `1 b b` against `S -> A b`, `A -> a`, `A -> epsilon`: accepted,
      A expanding to nothing. The table is the one built from the grammar's
      closed FIRST and FOLLOW sets (TableSAbIsBuilt). */
  lemma AcceptsThroughEpsilon()
    ensures Run(TableSAb(), {"a", "b", Epsilon}, Input([Token(1, "b", "b")]), Initial("S"), 4).outcome == Accepted
  {
    var input := Input([Token(1, "b", "b")]);
    var terminals := {"a", "b", Epsilon};
    var c1 := Config([EndMarker, "b", "A"], 0);
    assert Pushes(["A", "b"]) == ["b", "A"] by {
      assert ["A", "b"][1..] == ["b"];
      assert Pushes(["b"]) == ["b"];
    }
    assert Step(TableSAb(), terminals, input, Initial("S")) == Continue(c1);
    var c2 := Config([EndMarker, "b"], 0);
    assert c1.stack[..2] == [EndMarker, "b"];
    assert Pushes([Epsilon]) == [] by {
      assert [Epsilon][1..] == [];
    }
    assert Step(TableSAb(), terminals, input, c1) == Continue(c2);
    var c3 := Config([EndMarker], 1);
    assert c2.stack[..1] == [EndMarker];
    assert Step(TableSAb(), terminals, input, c2) == Continue(c3);
  }

  /** Scenario 3 end to end: the table built from `S -> A b`, `A -> a`,
      `A -> epsilon` and its closed FIRST and FOLLOW sets accepts `1 b b`. */
  lemma BuiltTableAcceptsThroughEpsilon()
    ensures var table := TableOf({"b", "a", Epsilon}, FirstSAb(), map["A" := {"b"}], GrammarSAb());
            Run(table, {"a", "b", Epsilon}, Input([Token(1, "b", "b")]), Initial("S"), 4).outcome == Accepted
  {
    TableSAbIsBuilt();
    AcceptsThroughEpsilon();
  }

  /** As written, an empty token list against `S -> a` reaches the no-entry
      branch on the appended end token at position 0, and the code then reads
      the token at position -1 for both the line and the text. The model's
      diagnostic falls back to the end token itself. */
  lemma EmptyInputReadsBeforeStart()
    ensures Step(TableSa(), {"a"}, Input([]), Initial("S"))
      == Halt(SyntaxError(UnexpectedToken(-1, EndMarker)))
    ensures NoEntrySourcesAsWritten(Input([]), 0) == (-1, -1)
  {
  }
}
