/** The `LL1Parser` object: the grammar, the terminal and nonterminal sets,
    the FIRST and FOLLOW maps, the parse table and the start symbol, updated
    in place by the pipeline load -> FIRST -> FOLLOW -> table -> parse. Each
    method is proved against the specification functions of the Grammar,
    FirstFollow, Table and Driver modules. */
module LL1 {
  import opened Grammar
  import opened FirstFollow
  import opened Table
  import opened Driver

  class LL1Parser {
    var grammar: seq<GrammarRule>
    var terminals: set<string>
    var nonTerminals: set<string>
    var firstSet: SymbolSets
    var followSet: SymbolSets
    var parseTable: ParseTable
    var startSymbol: string

    /** FIRST sets hold terminals only, FOLLOW sets terminals and `$`, and
        every table entry is a grammar rule for the entry's nonterminal. */
    ghost predicate Valid()
      reads this
    {
      && BoundedBy(firstSet, terminals)
      && BoundedBy(followSet, terminals + {EndMarker})
      && forall k :: k in parseTable ==> parseTable[k].lhs == k.0
    }

    constructor ()
      ensures Valid()
      ensures grammar == [] && terminals == {} && nonTerminals == {} && startSymbol == []
      ensures firstSet == map[] && followSet == map[] && parseTable == map[]
    {
      grammar := [];
      terminals := {};
      nonTerminals := {};
      firstSet := map[];
      followSet := map[];
      parseTable := map[];
      startSymbol := [];
    }

    /** `isTerminal`: membership in the terminal set. When that set is the
        one loading the grammar built, a symbol is a terminal exactly when it
        occurs on some right-hand side and does not start with an upper-case
        letter. */
    predicate IsTerminal(symbol: string)
      reads this
      ensures terminals == TerminalsOf(grammar) ==>
        (IsTerminal(symbol) <==> !StartsUpper(symbol) && exists j :: 0 <= j < |grammar| && symbol in grammar[j].rhs)
    {
      TerminalsOfSymbol(grammar, symbol);
      symbol in terminals
    }

    /** `loadGrammar` over the lines of the grammar file: appends the rules
        of the well-formed lines, files their symbols as terminals or
        nonterminals, and sets the start symbol from the first rule if none
        is set yet. */
    method LoadGrammar(lines: seq<string>)
      requires Valid()
      modifies this`grammar, this`terminals, this`nonTerminals, this`startSymbol
      ensures Valid()
      ensures grammar == old(grammar) + RulesOf(lines)
      ensures terminals == old(terminals) + TerminalsOf(RulesOf(lines))
      ensures nonTerminals == old(nonTerminals) + NonTerminalsOf(RulesOf(lines))
      ensures startSymbol == StartAfter(old(startSymbol), RulesOf(lines))
      ensures old(terminals) == TerminalsOf(old(grammar)) ==> terminals == TerminalsOf(grammar)
      ensures old(nonTerminals) == NonTerminalsOf(old(grammar)) ==> nonTerminals == NonTerminalsOf(grammar)
    {
      var n := 0;
      while n < |lines|
        invariant 0 <= n <= |lines|
        invariant Loaded(old(grammar), old(terminals), old(nonTerminals), old(startSymbol),
                         RulesOf(lines[..n]), grammar, terminals, nonTerminals, startSymbol)
      {
        ghost var (g, t, nt, s) := (grammar, terminals, nonTerminals, startSymbol);
        LoadLine(lines[n]);
        LoadStep(lines, n, old(grammar), old(terminals), old(nonTerminals), old(startSymbol),
                 g, t, nt, s, grammar, terminals, nonTerminals, startSymbol);
        n := n + 1;
      }
      assert lines[..n] == lines;
      SymbolsOfAppend(old(grammar), RulesOf(lines));
      BoundedByGrows(firstSet, old(terminals), terminals);
      BoundedByGrows(followSet, old(terminals) + {EndMarker}, terminals + {EndMarker});
    }

    /** One line of `loadGrammar`: an empty line, or one with fewer than
        three words or without `->` as second word, changes nothing; any
        other line adds its rule. */
    method LoadLine(line: string)
      modifies this`grammar, this`terminals, this`nonTerminals, this`startSymbol
      ensures Loaded(old(grammar), old(terminals), old(nonTerminals), old(startSymbol), LineRules(line),
                     grammar, terminals, nonTerminals, startSymbol)
    {
      if line == [] {
        return;
      }
      var parts := Split(line);
      if |parts| < 3 || parts[1] != Arrow {
        return;
      }
      var rule := GrammarRule(parts[0], parts[2..]);
      assert ParseRule(line) == Some(rule);
      assert [rule][..0] == [];
      AddRule(rule);
    }

    /** The body of `loadGrammar` for one rule: append it, file the
        left-hand side and the upper-case right-hand-side symbols as
        nonterminals and the others as terminals, and take its left-hand side
        as start symbol if there is none yet. */
    method AddRule(rule: GrammarRule)
      modifies this`grammar, this`terminals, this`nonTerminals, this`startSymbol
      ensures grammar == old(grammar) + [rule]
      ensures terminals == old(terminals) + RhsTerminals(rule)
      ensures nonTerminals == old(nonTerminals) + RuleNonTerminals(rule)
      ensures startSymbol == if old(startSymbol) == [] then rule.lhs else old(startSymbol)
    {
      grammar := grammar + [rule];
      nonTerminals := nonTerminals + {rule.lhs};
      var i := 0;
      while i < |rule.rhs|
        invariant 0 <= i <= |rule.rhs|
        invariant grammar == old(grammar) + [rule] && startSymbol == old(startSymbol)
        invariant terminals == old(terminals) + set s | s in rule.rhs[..i] && !StartsUpper(s)
        invariant nonTerminals == old(nonTerminals) + {rule.lhs} + set s | s in rule.rhs[..i] && StartsUpper(s)
      {
        var symbol := rule.rhs[i];
        assert rule.rhs[..i + 1] == rule.rhs[..i] + [symbol];
        if !StartsUpper(symbol) {
          terminals := terminals + {symbol};
        } else {
          nonTerminals := nonTerminals + {symbol};
        }
        i := i + 1;
      }
      assert rule.rhs[..i] == rule.rhs;
      if startSymbol == [] {
        startSymbol := rule.lhs;
      }
    }

    /** `computeFirstOf`: the loop with `break` computes FirstOf over the
        current terminal set and FIRST map. */
    method ComputeFirstOf(symbols: seq<string>) returns (first: set<string>)
      ensures first == FirstOf(terminals, firstSet, symbols)
    {
      first := {};
      var i := 0;
      while i < |symbols|
        invariant 0 <= i <= |symbols|
        invariant first + FirstOf(terminals, firstSet, symbols[i..]) == FirstOf(terminals, firstSet, symbols)
      {
        var symbol := symbols[i];
        assert symbols[i..][0] == symbol && symbols[i..][1..] == symbols[i + 1..];
        if IsTerminal(symbol) {
          first := first + {symbol};
          break;
        } else {
          var firstOfNonTerminal := Lookup(firstSet, symbol);
          first := first + firstOfNonTerminal;
          if Epsilon !in firstOfNonTerminal {
            break;
          }
        }
        i := i + 1;
      }
    }

    /** `computeFirst`: repeat passes over the rules, adding FirstOf of each
        right-hand side to FIRST of its left-hand side, until a pass grows no
        set. The result is the least closed family of FIRST sets above the
        initial one; on already closed sets it changes nothing. */
    method ComputeFirst()
      requires Valid()
      modifies this`firstSet
      ensures Valid()
      ensures Below(old(firstSet), firstSet)
      ensures FirstClosed(grammar, terminals, firstSet)
      ensures forall p :: FirstClosed(grammar, terminals, p) ==> Below(old(firstSet), p) ==> Below(firstSet, p)
      ensures FirstClosed(grammar, terminals, old(firstSet)) ==> SameSets(firstSet, old(firstSet))
    {
      ghost var init := firstSet;
      var changed := true;
      while changed
        invariant Valid()
        invariant Below(init, firstSet)
        invariant !changed ==> FirstClosed(grammar, terminals, firstSet)
        invariant forall p :: FirstClosed(grammar, terminals, p) ==> Below(init, p) ==> Below(firstSet, p)
        decreases Missing(LeftHandSides(grammar), terminals, firstSet), changed
      {
        changed := false;
        ghost var passStart := firstSet;
        var j := 0;
        while j < |grammar|
          invariant 0 <= j <= |grammar|
          invariant Valid()
          invariant FirstProgress(grammar, terminals, init, passStart, firstSet, changed, j)
        {
          var rule := grammar[j];
          var firstOfLhs := Lookup(firstSet, rule.lhs);
          var firstOfRhs := ComputeFirstOf(rule.rhs);
          var oldSize := |firstOfLhs|;
          ghost var before := firstSet;
          firstOfLhs := firstOfLhs + firstOfRhs;
          firstSet := firstSet[rule.lhs := firstOfLhs];
          assert firstSet == AddTo(before, rule.lhs, firstOfRhs);
          FirstRuleStep(grammar, terminals, init, passStart, before, firstSet, changed, |firstOfLhs| > oldSize, j);
          if |firstOfLhs| > oldSize {
            changed := true;
          }
          j := j + 1;
        }
        FirstPassDone(grammar, terminals, init, passStart, firstSet, changed);
      }
    }

    /** `computeFollowOf`: the sweep over every right-hand-side occurrence
        computes FollowOf over the current state. */
    method ComputeFollowOf(nonTerminal: string) returns (follow: set<string>)
      ensures follow == FollowOf(grammar, startSymbol, terminals, firstSet, followSet, nonTerminal)
    {
      follow := {};
      if nonTerminal == startSymbol {
        follow := follow + {EndMarker};
      }
      ghost var base := follow;
      var j := 0;
      while j < |grammar|
        invariant 0 <= j <= |grammar|
        invariant follow == base + FollowInRules(terminals, firstSet, followSet, nonTerminal, grammar[..j])
      {
        var rule := grammar[j];
        ghost var before := follow;
        var i := 0;
        while i < |rule.rhs|
          invariant 0 <= i <= |rule.rhs|
          invariant follow == before + FollowInRhs(terminals, firstSet, followSet, nonTerminal, rule, i)
        {
          var added := OccurrenceContribution(nonTerminal, rule, i);
          follow := follow + added;
          i := i + 1;
        }
        assert grammar[..j + 1][..j] == grammar[..j] && grammar[..j + 1][j] == rule;
        assert FollowInRules(terminals, firstSet, followSet, nonTerminal, grammar[..j + 1])
          == FollowInRules(terminals, firstSet, followSet, nonTerminal, grammar[..j])
             + FollowInRhs(terminals, firstSet, followSet, nonTerminal, rule, |rule.rhs|);
        j := j + 1;
      }
      assert grammar[..j] == grammar;
    }

    /** One occurrence step of `computeFollowOf`: what the right-hand-side
        position `i` of `rule` adds to the FOLLOW set of `nonTerminal`. */
    method OccurrenceContribution(nonTerminal: string, rule: GrammarRule, i: nat) returns (added: set<string>)
      requires i < |rule.rhs|
      ensures added == OccurrenceFollow(terminals, firstSet, followSet, nonTerminal, rule, i)
    {
      added := {};
      if rule.rhs[i] == nonTerminal {
        if i + 1 < |rule.rhs| {
          var firstOfNext := ComputeFirstOf(rule.rhs[i + 1..]);
          added := added + firstOfNext;
          if Epsilon in firstOfNext {
            var followOfLhs := Lookup(followSet, rule.lhs);
            added := added + followOfLhs;
          }
        } else {
          var followOfLhs := Lookup(followSet, rule.lhs);
          added := added + followOfLhs;
        }
      }
    }

    /** `computeFollow`: repeat passes over every occurrence of a nonterminal
        on a right-hand side, adding its FollowOf to its FOLLOW set, until a
        pass grows no set. Only nonterminals that occur on some right-hand
        side are touched, so a start symbol that never occurs there keeps
        its FOLLOW set (empty on a fresh parser, without `$`). The result is
        the least closed family of FOLLOW sets above the initial one. */
    method ComputeFollow()
      requires Valid()
      modifies this`followSet
      ensures Valid()
      ensures Below(old(followSet), followSet)
      ensures forall x :: x !in Occurring(grammar, nonTerminals) ==> Lookup(followSet, x) == Lookup(old(followSet), x)
      ensures FollowClosed(grammar, nonTerminals, startSymbol, terminals, firstSet, followSet)
      ensures forall p :: FollowClosed(grammar, nonTerminals, startSymbol, terminals, firstSet, p) ==>
                          Below(old(followSet), p) ==> Below(followSet, p)
    {
      ghost var init := followSet;
      var changed := true;
      while changed
        invariant Valid()
        invariant FollowSoFar(grammar, nonTerminals, startSymbol, terminals, firstSet, init, followSet)
        invariant !changed ==> FollowClosed(grammar, nonTerminals, startSymbol, terminals, firstSet, followSet)
        decreases Missing(Occurring(grammar, nonTerminals), terminals + {EndMarker}, followSet), changed
      {
        changed := false;
        ghost var passStart := followSet;
        FollowPassStart(grammar, nonTerminals, startSymbol, terminals, firstSet, init, followSet);
        var j := 0;
        while j < |grammar|
          invariant 0 <= j <= |grammar|
          invariant Valid()
          invariant FollowProgress(grammar, nonTerminals, startSymbol, terminals, firstSet, init, passStart,
                                   followSet, changed, j, 0)
        {
          var rule := grammar[j];
          var i := 0;
          while i < |rule.rhs|
            invariant 0 <= i <= |rule.rhs|
            invariant Valid()
            invariant FollowProgress(grammar, nonTerminals, startSymbol, terminals, firstSet, init, passStart,
                                     followSet, changed, j, i)
          {
            ghost var before := followSet;
            var grew := FollowUpdateAt(rule.rhs[i]);
            FollowOccurrenceStep(grammar, nonTerminals, startSymbol, terminals, firstSet, init, passStart,
                                 before, followSet, changed, grew, j, i);
            if grew {
              changed := true;
            }
            i := i + 1;
          }
          FollowNextRule(grammar, nonTerminals, startSymbol, terminals, firstSet, init, passStart, followSet, changed, j);
          j := j + 1;
        }
        FollowPassDone(grammar, nonTerminals, startSymbol, terminals, firstSet, init, passStart, followSet, changed);
      }
    }

    /** One occurrence step of `computeFollow`: a nonterminal `symbol` gets
        its FollowOf added to its FOLLOW set, and `grew` tells whether that
        set got larger; any other symbol is skipped. */
    method FollowUpdateAt(symbol: string) returns (grew: bool)
      modifies this`followSet
      ensures symbol in nonTerminals ==>
        && followSet == AddTo(old(followSet), symbol,
                              FollowOf(grammar, startSymbol, terminals, firstSet, old(followSet), symbol))
        && grew == (|Lookup(followSet, symbol)| > |Lookup(old(followSet), symbol)|)
      ensures symbol !in nonTerminals ==> followSet == old(followSet) && !grew
    {
      grew := false;
      if symbol in nonTerminals {
        var followOfRhs := ComputeFollowOf(symbol);
        var oldSize := |Lookup(followSet, symbol)|;
        followSet := followSet[symbol := Lookup(followSet, symbol) + followOfRhs];
        grew := |Lookup(followSet, symbol)| > oldSize;
      }
    }

    /** `buildParseTable`: for each rule in grammar order, write it under
        every lookahead of Lookaheads; the result is the old table
        overwritten by TableOf. */
    method BuildParseTable()
      requires Valid()
      modifies this`parseTable
      ensures Valid()
      ensures parseTable == old(parseTable) + TableOf(terminals, firstSet, followSet, grammar)
    {
      var j := 0;
      while j < |grammar|
        invariant 0 <= j <= |grammar|
        invariant parseTable == old(parseTable) + TableOf(terminals, firstSet, followSet, grammar[..j])
      {
        AddEntries(grammar[j]);
        TableOfNext(terminals, firstSet, followSet, old(parseTable), grammar, j);
        j := j + 1;
      }
      assert grammar[..j] == grammar;
      TableOfRules(terminals, firstSet, followSet, grammar);
    }

    /** The body of `buildParseTable` for one rule: write it under every
        terminal of FIRST of its right-hand side but `epsilon`, then, when
        that FIRST set holds `epsilon`, under every symbol of FOLLOW of its
        left-hand side. */
    method AddEntries(rule: GrammarRule)
      modifies this`parseTable
      ensures parseTable == old(parseTable) + Entries(rule.lhs, Lookaheads(terminals, firstSet, followSet, rule), rule)
    {
      var firstOfRhs := ComputeFirstOf(rule.rhs);
      var pending := firstOfRhs;
      var done: set<string> := {};
      while pending != {}
        invariant pending <= firstOfRhs
        invariant done == (firstOfRhs - pending) - {Epsilon}
        invariant parseTable == old(parseTable) + Entries(rule.lhs, done, rule)
        decreases pending
      {
        var terminal :| terminal in pending;
        if terminal != Epsilon {
          EntriesAdd(old(parseTable), rule.lhs, done, terminal, rule);
          parseTable := parseTable[(rule.lhs, terminal) := rule];
          done := done + {terminal};
        }
        pending := pending - {terminal};
      }
      ghost var afterFirst := parseTable;
      assert afterFirst == old(parseTable) + Entries(rule.lhs, done, rule);
      ghost var firstPart := done;
      done := {};
      if Epsilon in firstOfRhs {
        var followOfLhs := Lookup(followSet, rule.lhs);
        AddFollowEntries(rule, followOfLhs);
        done := followOfLhs;
      }
      assert firstPart == firstOfRhs - {Epsilon};
      assert done == if Epsilon in firstOfRhs then Lookup(followSet, rule.lhs) else {};
      assert firstPart + done == Lookaheads(terminals, firstSet, followSet, rule);
      EntriesUnion(old(parseTable), rule.lhs, firstPart, done, rule);
    }

    /** The second half of one `buildParseTable` iteration: file `rule`
        under every symbol of `followOfLhs`. */
    method AddFollowEntries(rule: GrammarRule, followOfLhs: set<string>)
      modifies this`parseTable
      ensures parseTable == old(parseTable) + Entries(rule.lhs, followOfLhs, rule)
    {
      var pending := followOfLhs;
      var done: set<string> := {};
      while pending != {}
        invariant pending <= followOfLhs
        invariant done == followOfLhs - pending
        invariant parseTable == old(parseTable) + Entries(rule.lhs, done, rule)
        decreases pending
      {
        var terminal :| terminal in pending;
        EntriesAdd(old(parseTable), rule.lhs, done, terminal, rule);
        parseTable := parseTable[(rule.lhs, terminal) := rule];
        pending := pending - {terminal};
        done := done + {terminal};
      }
    }

    /** `parseTokens`, with at most `fuel` loop iterations: the outcome of
        the automaton run from `$` under the start symbol on the tokens
        followed by the end token. */
    method ParseTokens(tokens: seq<Token>, fuel: nat) returns (outcome: Outcome)
      ensures outcome == Run(parseTable, terminals, Input(tokens), Initial(startSymbol), fuel).outcome
    {
      var parseStack := [EndMarker, startSymbol];
      var index := 0;
      var input := tokens + [EndToken];
      var steps := 0;
      while parseStack != []
        invariant steps <= fuel
        invariant ValidConfig(input, Config(parseStack, index))
        invariant Run(parseTable, terminals, input, Config(parseStack, index), fuel - steps)
                  == Run(parseTable, terminals, input, Initial(startSymbol), fuel)
        decreases fuel - steps
      {
        if steps == fuel {
          return OutOfFuel;
        }
        ghost var c := Config(parseStack, index);
        ghost var r := Step(parseTable, terminals, input, c);
        steps := steps + 1;
        var top := parseStack[|parseStack| - 1];
        var currentToken := input[index].kind;
        if top == EndMarker && currentToken == EndMarker {
          return Accepted;
        } else if top == currentToken {
          parseStack := parseStack[..|parseStack| - 1];
          index := index + 1;
        } else if IsTerminal(top) {
          return SyntaxError(ExpectedButFound(input[index].line, top, input[index].value));
        } else {
          if (top, currentToken) !in parseTable {
            return SyntaxError(NoEntryDiagnostic(input, index));
          }
          parseStack := parseStack[..|parseStack| - 1];
          var rule := parseTable[(top, currentToken)];
          ghost var base := parseStack;
          var k := |rule.rhs|;
          while k > 0
            invariant 0 <= k <= |rule.rhs|
            invariant parseStack == base + Pushes(rule.rhs[k..])
          {
            k := k - 1;
            assert rule.rhs[k..][1..] == rule.rhs[k + 1..];
            if rule.rhs[k] != Epsilon {
              parseStack := parseStack + [rule.rhs[k]];
            }
          }
          assert rule.rhs[0..] == rule.rhs;
        }
        assert r == Continue(Config(parseStack, index));
      }
      return StackExhausted;
    }
  }

  /** The grammar, terminal and nonterminal sets and start symbol are those
      before (`g0`, `t0`, `nt0`, `s0`) after loading `rules`. */
  ghost predicate Loaded(g0: seq<GrammarRule>, t0: set<string>, nt0: set<string>, s0: string,
                         rules: seq<GrammarRule>, g: seq<GrammarRule>, t: set<string>, nt: set<string>, s: string)
  {
    && g == g0 + rules
    && t == t0 + TerminalsOf(rules)
    && nt == nt0 + NonTerminalsOf(rules)
    && s == StartAfter(s0, rules)
  }

  /** Loading line `n` after the first `n` lines gives the state after the
      first `n + 1`. */
  lemma LoadStep(lines: seq<string>, n: nat, g0: seq<GrammarRule>, t0: set<string>, nt0: set<string>, s0: string,
                 g: seq<GrammarRule>, t: set<string>, nt: set<string>, s: string,
                 g': seq<GrammarRule>, t': set<string>, nt': set<string>, s': string)
    requires n < |lines|
    requires Loaded(g0, t0, nt0, s0, RulesOf(lines[..n]), g, t, nt, s)
    requires Loaded(g, t, nt, s, LineRules(lines[n]), g', t', nt', s')
    ensures Loaded(g0, t0, nt0, s0, RulesOf(lines[..n + 1]), g', t', nt', s')
  {
    RulesOfNext(lines, n);
    LoadedAppend(g0, t0, nt0, s0, RulesOf(lines[..n]), LineRules(lines[n]), g, t, nt, s, g', t', nt', s');
  }

  lemma LoadedAppend(g0: seq<GrammarRule>, t0: set<string>, nt0: set<string>, s0: string,
                     rules: seq<GrammarRule>, more: seq<GrammarRule>,
                     g: seq<GrammarRule>, t: set<string>, nt: set<string>, s: string,
                     g': seq<GrammarRule>, t': set<string>, nt': set<string>, s': string)
    requires |more| <= 1
    requires Loaded(g0, t0, nt0, s0, rules, g, t, nt, s)
    requires Loaded(g, t, nt, s, more, g', t', nt', s')
    ensures Loaded(g0, t0, nt0, s0, rules + more, g', t', nt', s')
  {
    LoadedNext(s0, rules, more);
    assert g' == g0 + (rules + more);
  }

  // ------------------------------------------------------- FIRST passes

  /** The state of a `computeFirst` pass before rule `j`: FIRST sets bounded
      by the terminals, grown from `init` and from `passStart`, below every
      closed family above `init`; if the pass has grown a set, fewer pairs
      are missing than at its start; otherwise the sets are still those at
      its start and rules `0 .. j - 1` are closed there. */
  ghost predicate FirstProgress(g: seq<GrammarRule>, terminals: set<string>, init: SymbolSets,
                                passStart: SymbolSets, first: SymbolSets, changed: bool, j: nat)
  {
    && BoundedBy(first, terminals)
    && Below(passStart, first) && Below(init, first)
    && (forall p :: FirstClosed(g, terminals, p) ==> Below(init, p) ==> Below(first, p))
    && (changed ==> Missing(LeftHandSides(g), terminals, first) < Missing(LeftHandSides(g), terminals, passStart))
    && (!changed ==> SameSets(first, passStart)
                     && forall jj :: 0 <= jj < j && jj < |g| ==>
                          FirstOf(terminals, passStart, g[jj].rhs) <= Lookup(passStart, g[jj].lhs))
  }

  /** One update `first[lhs] := first[lhs] + FirstOf(rhs)` for rule `j`,
      with `grew` telling whether that set got larger. */
  lemma FirstRuleStep(g: seq<GrammarRule>, terminals: set<string>, init: SymbolSets, passStart: SymbolSets,
                      before: SymbolSets, after: SymbolSets, changed: bool, grew: bool, j: nat)
    requires j < |g|
    requires FirstProgress(g, terminals, init, passStart, before, changed, j)
    requires after == AddTo(before, g[j].lhs, FirstOf(terminals, before, g[j].rhs))
    requires grew == (|Lookup(after, g[j].lhs)| > |Lookup(before, g[j].lhs)|)
    ensures FirstProgress(g, terminals, init, passStart, after, changed || grew, j + 1)
  {
    var f := FirstOf(terminals, before, g[j].rhs);
    AddToBounded(before, g[j].lhs, f, terminals);
    FirstUpdateLeast(g, terminals, init, before, j);
    assert g[j].lhs in LeftHandSides(g);
    AddToMissing(LeftHandSides(g), terminals, before, g[j].lhs, f, grew);
    if !grew && !changed {
      FirstUpdateClosed(g, terminals, passStart, before, j);
    }
  }

  /** The update for rule `j` stays below every closed family above `init`. */
  lemma FirstUpdateLeast(g: seq<GrammarRule>, terminals: set<string>, init: SymbolSets, before: SymbolSets, j: nat)
    requires j < |g|
    requires forall p :: FirstClosed(g, terminals, p) ==> Below(init, p) ==> Below(before, p)
    ensures forall p :: FirstClosed(g, terminals, p) ==> Below(init, p) ==>
      Below(AddTo(before, g[j].lhs, FirstOf(terminals, before, g[j].rhs)), p)
  {
    forall p | FirstClosed(g, terminals, p) && Below(init, p)
      ensures Below(AddTo(before, g[j].lhs, FirstOf(terminals, before, g[j].rhs)), p)
    {
      FirstOfMonotone(terminals, before, p, g[j].rhs);
    }
  }

  /** In a pass that has grown nothing, an update that grows nothing shows
      rule `j` closed at the start of the pass. */
  lemma FirstUpdateClosed(g: seq<GrammarRule>, terminals: set<string>, passStart: SymbolSets, before: SymbolSets, j: nat)
    requires j < |g|
    requires SameSets(before, passStart)
    requires forall jj :: 0 <= jj < j && jj < |g| ==> FirstOf(terminals, passStart, g[jj].rhs) <= Lookup(passStart, g[jj].lhs)
    requires SameSets(before, AddTo(before, g[j].lhs, FirstOf(terminals, before, g[j].rhs)))
    ensures forall jj :: 0 <= jj < j + 1 && jj < |g| ==> FirstOf(terminals, passStart, g[jj].rhs) <= Lookup(passStart, g[jj].lhs)
  {
    FirstOfSameSets(terminals, before, passStart, g[j].rhs);
  }

  /** At the end of a pass: a pass that grew nothing leaves closed sets, and
      one that grew something leaves fewer missing pairs. */
  lemma FirstPassDone(g: seq<GrammarRule>, terminals: set<string>, init: SymbolSets, passStart: SymbolSets,
                      first: SymbolSets, changed: bool)
    requires FirstProgress(g, terminals, init, passStart, first, changed, |g|)
    ensures BoundedBy(first, terminals) && Below(init, first)
    ensures forall p :: FirstClosed(g, terminals, p) ==> Below(init, p) ==> Below(first, p)
    ensures changed ==> Missing(LeftHandSides(g), terminals, first) < Missing(LeftHandSides(g), terminals, passStart)
    ensures !changed ==> FirstClosed(g, terminals, first)
  {
    if !changed {
      forall jj | 0 <= jj < |g|
        ensures FirstOf(terminals, first, g[jj].rhs) <= Lookup(first, g[jj].lhs)
      {
        FirstOfSameSets(terminals, first, passStart, g[jj].rhs);
      }
    }
  }

  // ------------------------------------------------------ FOLLOW passes

  /** What holds of the FOLLOW sets between passes of `computeFollow`
      started from `init`. */
  ghost predicate FollowSoFar(g: seq<GrammarRule>, nonTerminals: set<string>, start: string,
                              terminals: set<string>, first: SymbolSets, init: SymbolSets, follow: SymbolSets)
  {
    && BoundedBy(follow, terminals + {EndMarker})
    && Below(init, follow)
    && (forall x :: x !in Occurring(g, nonTerminals) ==> Lookup(follow, x) == Lookup(init, x))
    && (forall p :: FollowClosed(g, nonTerminals, start, terminals, first, p) ==> Below(init, p) ==> Below(follow, p))
  }

  /** Every occurrence of a nonterminal before position (j, i) of the sweep
      is closed in `follow`. */
  ghost predicate FollowClosedBefore(g: seq<GrammarRule>, nonTerminals: set<string>, start: string,
                                     terminals: set<string>, first: SymbolSets, follow: SymbolSets, j: nat, i: nat)
  {
    forall jj, kk :: 0 <= jj < |g| && 0 <= kk < |g[jj].rhs| && (jj < j || (jj == j && kk < i))
                     && g[jj].rhs[kk] in nonTerminals ==>
      FollowOf(g, start, terminals, first, follow, g[jj].rhs[kk]) <= Lookup(follow, g[jj].rhs[kk])
  }

  /** The state of a `computeFollow` pass before occurrence (j, i). */
  ghost predicate FollowProgress(g: seq<GrammarRule>, nonTerminals: set<string>, start: string,
                                 terminals: set<string>, first: SymbolSets, init: SymbolSets, passStart: SymbolSets,
                                 follow: SymbolSets, changed: bool, j: nat, i: nat)
  {
    && FollowSoFar(g, nonTerminals, start, terminals, first, init, follow)
    && Below(passStart, follow)
    && (changed ==> Missing(Occurring(g, nonTerminals), terminals + {EndMarker}, follow)
                    < Missing(Occurring(g, nonTerminals), terminals + {EndMarker}, passStart))
    && (!changed ==> SameSets(follow, passStart)
                     && FollowClosedBefore(g, nonTerminals, start, terminals, first, passStart, j, i))
  }

  lemma FollowPassStart(g: seq<GrammarRule>, nonTerminals: set<string>, start: string,
                        terminals: set<string>, first: SymbolSets, init: SymbolSets, follow: SymbolSets)
    requires FollowSoFar(g, nonTerminals, start, terminals, first, init, follow)
    ensures FollowProgress(g, nonTerminals, start, terminals, first, init, follow, follow, false, 0, 0)
  {
  }

  /** One occurrence of the sweep: when it is a nonterminal `x`,
      `follow[x] := follow[x] + FollowOf(x)`, with `grew` telling whether that
      set got larger; otherwise nothing changes. */
  lemma FollowOccurrenceStep(g: seq<GrammarRule>, nonTerminals: set<string>, start: string,
                             terminals: set<string>, first: SymbolSets, init: SymbolSets, passStart: SymbolSets,
                             before: SymbolSets, after: SymbolSets, changed: bool, grew: bool, j: nat, i: nat)
    requires j < |g| && i < |g[j].rhs| && BoundedBy(first, terminals)
    requires FollowProgress(g, nonTerminals, start, terminals, first, init, passStart, before, changed, j, i)
    requires g[j].rhs[i] in nonTerminals ==>
      && after == AddTo(before, g[j].rhs[i], FollowOf(g, start, terminals, first, before, g[j].rhs[i]))
      && grew == (|Lookup(after, g[j].rhs[i])| > |Lookup(before, g[j].rhs[i])|)
    requires g[j].rhs[i] !in nonTerminals ==> after == before && !grew
    ensures FollowProgress(g, nonTerminals, start, terminals, first, init, passStart, after, changed || grew, j, i + 1)
  {
    var x := g[j].rhs[i];
    if x in nonTerminals {
      var f := FollowOf(g, start, terminals, first, before, x);
      assert x in Occurring(g, nonTerminals);
      FollowUpdateSoFar(g, nonTerminals, start, terminals, first, init, before, x);
      AddToMissing(Occurring(g, nonTerminals), terminals + {EndMarker}, before, x, f, grew);
      if !grew && !changed {
        FollowUpdateClosed(g, nonTerminals, start, terminals, first, passStart, before, j, i);
      }
    } else if !changed {
      FollowSkipClosed(g, nonTerminals, start, terminals, first, passStart, j, i);
    }
  }

  /** The update at an occurring nonterminal `x` keeps what holds between passes. */
  lemma FollowUpdateSoFar(g: seq<GrammarRule>, nonTerminals: set<string>, start: string,
                          terminals: set<string>, first: SymbolSets, init: SymbolSets, before: SymbolSets, x: string)
    requires x in Occurring(g, nonTerminals) && BoundedBy(first, terminals)
    requires FollowSoFar(g, nonTerminals, start, terminals, first, init, before)
    ensures FollowSoFar(g, nonTerminals, start, terminals, first, init,
                        AddTo(before, x, FollowOf(g, start, terminals, first, before, x)))
  {
    var f := FollowOf(g, start, terminals, first, before, x);
    AddToBounded(before, x, f, terminals + {EndMarker});
    forall p | FollowClosed(g, nonTerminals, start, terminals, first, p) && Below(init, p)
      ensures Below(AddTo(before, x, f), p)
    {
      FollowOfMonotone(g, start, terminals, first, before, p, x);
    }
  }

  /** In a pass that has grown nothing, an update at (j, i) that grows
      nothing extends the closed occurrences to (j, i + 1). */
  lemma FollowUpdateClosed(g: seq<GrammarRule>, nonTerminals: set<string>, start: string,
                           terminals: set<string>, first: SymbolSets, passStart: SymbolSets, before: SymbolSets,
                           j: nat, i: nat)
    requires j < |g| && i < |g[j].rhs| && g[j].rhs[i] in nonTerminals
    requires SameSets(before, passStart)
    requires FollowClosedBefore(g, nonTerminals, start, terminals, first, passStart, j, i)
    requires SameSets(before, AddTo(before, g[j].rhs[i], FollowOf(g, start, terminals, first, before, g[j].rhs[i])))
    ensures FollowClosedBefore(g, nonTerminals, start, terminals, first, passStart, j, i + 1)
  {
    FollowOfSameSets(g, start, terminals, first, before, passStart, g[j].rhs[i]);
  }

  /** An occurrence of a terminal needs nothing. */
  lemma FollowSkipClosed(g: seq<GrammarRule>, nonTerminals: set<string>, start: string,
                         terminals: set<string>, first: SymbolSets, passStart: SymbolSets, j: nat, i: nat)
    requires j < |g| && i < |g[j].rhs| && g[j].rhs[i] !in nonTerminals
    requires FollowClosedBefore(g, nonTerminals, start, terminals, first, passStart, j, i)
    ensures FollowClosedBefore(g, nonTerminals, start, terminals, first, passStart, j, i + 1)
  {
  }

  /** The end of rule `j` is the start of rule `j + 1`. */
  lemma FollowNextRule(g: seq<GrammarRule>, nonTerminals: set<string>, start: string,
                       terminals: set<string>, first: SymbolSets, init: SymbolSets, passStart: SymbolSets,
                       follow: SymbolSets, changed: bool, j: nat)
    requires j < |g|
    requires FollowProgress(g, nonTerminals, start, terminals, first, init, passStart, follow, changed, j, |g[j].rhs|)
    ensures FollowProgress(g, nonTerminals, start, terminals, first, init, passStart, follow, changed, j + 1, 0)
  {
  }

  /** At the end of a pass: a pass that grew nothing leaves closed sets, and
      one that grew something leaves fewer missing pairs. */
  lemma FollowPassDone(g: seq<GrammarRule>, nonTerminals: set<string>, start: string,
                       terminals: set<string>, first: SymbolSets, init: SymbolSets, passStart: SymbolSets,
                       follow: SymbolSets, changed: bool)
    requires FollowProgress(g, nonTerminals, start, terminals, first, init, passStart, follow, changed, |g|, 0)
    ensures FollowSoFar(g, nonTerminals, start, terminals, first, init, follow)
    ensures changed ==> Missing(Occurring(g, nonTerminals), terminals + {EndMarker}, follow)
                        < Missing(Occurring(g, nonTerminals), terminals + {EndMarker}, passStart)
    ensures !changed ==> FollowClosed(g, nonTerminals, start, terminals, first, follow)
  {
    if !changed {
      forall x | x in Occurring(g, nonTerminals)
        ensures FollowOf(g, start, terminals, first, follow, x) <= Lookup(follow, x)
      {
        var jj, kk :| 0 <= jj < |g| && 0 <= kk < |g[jj].rhs| && g[jj].rhs[kk] in nonTerminals && g[jj].rhs[kk] == x;
        FollowOfSameSets(g, start, terminals, first, follow, passStart, x);
      }
    }
  }
}
