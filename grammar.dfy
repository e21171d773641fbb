/** Grammar model: tokens, rules, the whitespace splitter and the per-line
    rule reader of the LL(1) parser generator, with the case-based
    classification of symbols into terminals and nonterminals. */
module Grammar {

  /** One token of the pre-tokenised input: source line, terminal name
      (the `type` field of the C++ struct) and literal text. */
  datatype Token = Token(line: int, kind: string, value: string)

  /** A production `lhs -> rhs`; rules read from text always have a
      non-empty right-hand side. */
  datatype GrammarRule = GrammarRule(lhs: string, rhs: seq<string>)

  /** The empty-production marker, spelt in lower case, so it is classified
      as a terminal like any other lower-case symbol. */
  const Epsilon: string := "epsilon"
  /** End-of-input marker, both as stack bottom and as the appended token's type. */
  const EndMarker: string := "$"
  const Arrow: string := "->"

  /** The characters `operator>>` on a string stream skips in the "C" locale:
      space, tab, newline, vertical tab, form feed and carriage return. */
  predicate IsSpace(c: char) {
    c == ' ' || '\t' <= c <= '\r'
  }

  predicate NoSpace(w: string) {
    forall i :: 0 <= i < |w| ==> !IsSpace(w[i])
  }

  /** What one extraction `ss >> token` can produce: a non-empty run of
      non-space characters. */
  predicate IsWord(w: string) {
    |w| > 0 && NoSpace(w)
  }

  /** The words completed so far and the word being read, after reading
      `s` left to right. */
  function Scan(s: string): (r: (seq<string>, string))
    ensures forall i :: 0 <= i < |r.0| ==> IsWord(r.0[i])
    ensures NoSpace(r.1)
  {
    if s == [] then ([], [])
    else
      var prev := Scan(s[..|s| - 1]);
      var c := s[|s| - 1];
      if IsSpace(c) then
        (if prev.1 == [] then (prev.0, []) else (prev.0 + [prev.1], []))
      else
        (prev.0, prev.1 + [c])
  }

  /** The whitespace-separated words of a line, in order. */
  function Words(s: string): (ws: seq<string>)
    ensures forall i :: 0 <= i < |ws| ==> IsWord(ws[i])
  {
    var r := Scan(s);
    if r.1 == [] then r.0 else r.0 + [r.1]
  }

  /** Words joined by single spaces: the inverse of Words on well-formed words. */
  function Unwords(ws: seq<string>): string
  {
    if ws == [] then []
    else if |ws| == 1 then ws[0]
    else Unwords(ws[..|ws| - 1]) + " " + ws[|ws| - 1]
  }

  /** `split`: every whitespace-delimited word of the line, in order. */
  method Split(line: string) returns (parts: seq<string>)
    ensures parts == Words(line)
  {
    parts := [];
    var token := "";
    var i := 0;
    while i < |line|
      invariant 0 <= i <= |line|
      invariant Scan(line[..i]) == (parts, token)
    {
      var c := line[i];
      assert line[..i + 1][..i] == line[..i];
      if IsSpace(c) {
        if token != [] {
          parts := parts + [token];
          token := "";
        }
      } else {
        token := token + [c];
      }
      i := i + 1;
    }
    assert line[..|line|] == line;
    if token != [] {
      parts := parts + [token];
    }
  }

  /** Appending non-space characters extends the word being read. */
  lemma {:induction false} ScanAppendWord(p: string, w: string)
    requires NoSpace(w)
    ensures Scan(p + w) == (Scan(p).0, Scan(p).1 + w)
    decreases |w|
  {
    if w == [] {
      assert p + w == p;
      assert Scan(p).1 + w == Scan(p).1;
    } else {
      var w' := w[..|w| - 1];
      ScanAppendWord(p, w');
      assert (p + w)[..|p + w| - 1] == p + w';
      assert Scan(p + w').1 + [w[|w| - 1]] == Scan(p).1 + w;
    }
  }

  /** Scan of `Unwords(ws)`: all but the last word are complete, the last is
      still being read. */
  lemma {:induction false} ScanUnwords(ws: seq<string>)
    requires |ws| > 0
    requires forall i :: 0 <= i < |ws| ==> IsWord(ws[i])
    ensures Scan(Unwords(ws)) == (ws[..|ws| - 1], ws[|ws| - 1])
    decreases |ws|
  {
    if |ws| == 1 {
      ScanAppendWord([], ws[0]);
      assert [] + ws[0] == ws[0];
    } else {
      var init := ws[..|ws| - 1];
      ScanUnwords(init);
      assert init[..|init| - 1] == ws[..|ws| - 2];
      var p := Unwords(init) + " ";
      assert p[..|p| - 1] == Unwords(init);
      assert IsWord(init[|init| - 1]);
      assert init[..|init| - 1] + [init[|init| - 1]] == init;
      assert Scan(p) == (init, []);
      ScanAppendWord(p, ws[|ws| - 1]);
      assert p + ws[|ws| - 1] == Unwords(ws);
      assert [] + ws[|ws| - 1] == ws[|ws| - 1];
      assert ws[..|ws| - 1] == init;
    }
  }

  /** Splitting words joined by spaces gives the words back. */
  lemma {:induction false} WordsUnwords(ws: seq<string>)
    requires forall i :: 0 <= i < |ws| ==> IsWord(ws[i])
    ensures Words(Unwords(ws)) == ws
  {
    if ws != [] {
      ScanUnwords(ws);
      assert ws[..|ws| - 1] + [ws[|ws| - 1]] == ws;
    }
  }

  /** An empty line has no words. */
  lemma WordsOfEmpty()
    ensures Words([]) == []
  {
  }

  /** A single word splits into itself. */
  lemma WordsOfWord(w: string)
    requires IsWord(w)
    ensures Words(w) == [w]
  {
    ScanAppendWord([], w);
    assert [] + w == w;
  }

  /** A whitespace character separates: what comes before it and what comes
      after it split independently, so leading, trailing and repeated
      whitespace of any kind yields no empty word. */
  lemma WordsAtSpace(p: string, c: char, q: string)
    requires IsSpace(c)
    ensures Words(p + [c] + q) == Words(p) + Words(q)
  {
    var x := p + [c];
    assert x[..|x| - 1] == p;
    assert Scan(x) == (Words(p), []);
    ScanAfterBreak(x, q);
    assert Scan(x + q) == (Words(p) + Scan(q).0, Scan(q).1);
  }

  /** Once no word is being read, the rest of the text scans on its own. */
  lemma {:induction false} ScanAfterBreak(x: string, q: string)
    requires Scan(x).1 == []
    ensures Scan(x + q) == (Scan(x).0 + Scan(q).0, Scan(q).1)
    decreases |q|
  {
    if q == [] {
      assert x + q == x;
      assert Scan(q) == ([], []);
      assert Scan(x).0 + [] == Scan(x).0;
    } else {
      var q' := q[..|q| - 1];
      ScanAfterBreak(x, q');
      assert (x + q)[..|x + q| - 1] == x + q';
      assert q[|q| - 1] == (x + q)[|x + q| - 1];
      var s := Scan(q');
      var d := q[|q| - 1];
      var xs := Scan(x).0;
      assert Scan(x + q') == (xs + s.0, s.1);
      if IsSpace(d) {
        if s.1 == [] {
          assert Scan(q) == (s.0, []);
          assert Scan(x + q) == (xs + s.0, []);
        } else {
          assert Scan(q) == (s.0 + [s.1], []);
          assert Scan(x + q) == (xs + s.0 + [s.1], []);
          assert xs + s.0 + [s.1] == xs + (s.0 + [s.1]);
        }
      } else {
        assert Scan(q) == (s.0, s.1 + [d]);
        assert Scan(x + q) == (xs + s.0, s.1 + [d]);
      }
    }
  }

  /** The per-line logic of `loadGrammar`: an empty line, a line with fewer
      than three words, or one whose second word is not `->` gives no rule;
      otherwise the first word is the left-hand side and all words after the
      arrow form the right-hand side. */
  function ParseRule(line: string): (r: Option<GrammarRule>)
    ensures r.Some? ==> IsWord(r.value.lhs) && |r.value.rhs| >= 1
    ensures r.Some? ==> forall i :: 0 <= i < |r.value.rhs| ==> IsWord(r.value.rhs[i])
    ensures r.Some? ==> Words(line) == [r.value.lhs, Arrow] + r.value.rhs
  {
    if line == [] then None
    else
      var parts := Words(line);
      if |parts| < 3 || parts[1] != Arrow then None
      else Some(GrammarRule(parts[0], parts[2..]))
  }

  /** The text form of a rule, `lhs -> s1 s2 ...`. */
  function RuleText(r: GrammarRule): string
  {
    Unwords([r.lhs, Arrow] + r.rhs)
  }

  /** Reading the text form of a well-formed rule gives the rule back. */
  lemma {:induction false} ParseRuleText(r: GrammarRule)
    requires IsWord(r.lhs) && |r.rhs| >= 1
    requires forall i :: 0 <= i < |r.rhs| ==> IsWord(r.rhs[i])
    ensures ParseRule(RuleText(r)) == Some(r)
  {
    var ws := [r.lhs, Arrow] + r.rhs;
    forall i | 0 <= i < |ws| ensures IsWord(ws[i]) {
      if i >= 2 { assert ws[i] == r.rhs[i - 2]; }
    }
    WordsUnwords(ws);
    assert ws[2..] == r.rhs;
    assert |Words(RuleText(r))| > 0;
  }

  /** Lines that are not rules produce nothing. */
  lemma LinesWithoutArrowAreSkipped(line: string)
    requires |Words(line)| < 3 || Words(line)[1] != Arrow
    ensures ParseRule(line) == None
  {
  }

  /** The rules of a file, in file order. */
  function RulesOf(lines: seq<string>): (rules: seq<GrammarRule>)
    ensures |rules| <= |lines|
    ensures forall j :: 0 <= j < |rules| ==> IsWord(rules[j].lhs) && |rules[j].rhs| >= 1
  {
    if lines == [] then []
    else
      var init := RulesOf(lines[..|lines| - 1]);
      match ParseRule(lines[|lines| - 1])
      case Some(r) => init + [r]
      case None => init
  }

  /** The case test of `isupper(sym[0])`, restricted to ASCII. */
  predicate StartsUpper(sym: string) {
    |sym| > 0 && 'A' <= sym[0] <= 'Z'
  }

  /** Right-hand-side symbols that `loadGrammar` files as terminals. */
  function RhsTerminals(r: GrammarRule): set<string> {
    set s | s in r.rhs && !StartsUpper(s)
  }

  /** Symbols that `loadGrammar` files as nonterminals for one rule: the
      left-hand side and every upper-case right-hand-side symbol. */
  function RuleNonTerminals(r: GrammarRule): set<string> {
    {r.lhs} + set s | s in r.rhs && StartsUpper(s)
  }

  function TerminalsOf(rules: seq<GrammarRule>): set<string> {
    if rules == [] then {}
    else TerminalsOf(rules[..|rules| - 1]) + RhsTerminals(rules[|rules| - 1])
  }

  function NonTerminalsOf(rules: seq<GrammarRule>): set<string> {
    if rules == [] then {}
    else NonTerminalsOf(rules[..|rules| - 1]) + RuleNonTerminals(rules[|rules| - 1])
  }

  /** The start symbol after loading `rules` when it was `start` before:
      each rule sets it to its left-hand side while it is still empty. */
  function StartAfter(start: string, rules: seq<GrammarRule>): string {
    if rules == [] then start
    else
      var s := StartAfter(start, rules[..|rules| - 1]);
      if s == [] then rules[|rules| - 1].lhs else s
  }

  /** Since left-hand sides are never empty, the start symbol is the one set
      before, or else the left-hand side of the first rule. */
  lemma {:induction false} StartIsFirstRule(start: string, rules: seq<GrammarRule>)
    requires forall j :: 0 <= j < |rules| ==> rules[j].lhs != []
    ensures StartAfter(start, rules) == if start != [] || rules == [] then start else rules[0].lhs
  {
    if rules != [] {
      var init := rules[..|rules| - 1];
      StartIsFirstRule(start, init);
      if init != [] {
        assert init[0] == rules[0];
      }
    }
  }

  /** The rules one line contributes: its rule, or none. */
  function LineRules(line: string): (rs: seq<GrammarRule>)
    ensures |rs| <= 1
  {
    match ParseRule(line)
    case Some(r) => [r]
    case None => []
  }

  /** The rules of the first `n + 1` lines: those of the first `n`, and
      those of line `n`. */
  lemma RulesOfNext(lines: seq<string>, n: nat)
    requires n < |lines|
    ensures RulesOf(lines[..n + 1]) == RulesOf(lines[..n]) + LineRules(lines[n])
  {
    assert lines[..n + 1][..n] == lines[..n];
  }

  /** The classification and start symbol after at most one more rule. */
  lemma LoadedNext(start: string, rules: seq<GrammarRule>, more: seq<GrammarRule>)
    requires |more| <= 1
    ensures TerminalsOf(rules + more) == TerminalsOf(rules) + TerminalsOf(more)
    ensures NonTerminalsOf(rules + more) == NonTerminalsOf(rules) + NonTerminalsOf(more)
    ensures StartAfter(start, rules + more) == StartAfter(StartAfter(start, rules), more)
  {
    if more == [] {
      assert rules + more == rules;
    } else {
      assert (rules + more)[..|rules|] == rules;
      assert more[..0] == [];
    }
  }

  /** Every left-hand side is a nonterminal; every right-hand-side symbol is
      filed by the case of its first character, so `epsilon` is a terminal. */
  lemma {:induction false} Classification(rules: seq<GrammarRule>)
    ensures forall j :: 0 <= j < |rules| ==> rules[j].lhs in NonTerminalsOf(rules)
    ensures forall j, s :: 0 <= j < |rules| && s in rules[j].rhs ==>
      (if StartsUpper(s) then s in NonTerminalsOf(rules) else s in TerminalsOf(rules))
    ensures forall j :: 0 <= j < |rules| && Epsilon in rules[j].rhs ==> Epsilon in TerminalsOf(rules)
  {
    if rules != [] {
      var init := rules[..|rules| - 1];
      Classification(init);
      forall j | 0 <= j < |rules| - 1 ensures rules[j] == init[j] { }
    }
  }

  /** A symbol filed as a terminal occurs on some right-hand side and does
      not start with an upper-case letter. */
  lemma {:induction false} TerminalsOccur(rules: seq<GrammarRule>, s: string)
    requires s in TerminalsOf(rules)
    ensures !StartsUpper(s)
    ensures exists j :: 0 <= j < |rules| && s in rules[j].rhs
  {
    var init := rules[..|rules| - 1];
    if s in TerminalsOf(init) {
      TerminalsOccur(init, s);
      var j :| 0 <= j < |init| && s in init[j].rhs;
      assert rules[j] == init[j];
    } else {
      assert s in rules[|rules| - 1].rhs;
    }
  }

  /** A symbol is in TerminalsOf exactly when it occurs on some right-hand
      side and does not start with an upper-case letter. */
  lemma TerminalsOfSymbol(rules: seq<GrammarRule>, s: string)
    ensures s in TerminalsOf(rules) <==> !StartsUpper(s) && exists j :: 0 <= j < |rules| && s in rules[j].rhs
  {
    Classification(rules);
    if s in TerminalsOf(rules) {
      TerminalsOccur(rules, s);
    }
  }

  /** The symbols filed for two runs of rules are those of each run. */
  lemma {:induction false} SymbolsOfAppend(a: seq<GrammarRule>, b: seq<GrammarRule>)
    ensures TerminalsOf(a + b) == TerminalsOf(a) + TerminalsOf(b)
    ensures NonTerminalsOf(a + b) == NonTerminalsOf(a) + NonTerminalsOf(b)
    decreases |b|
  {
    if b == [] {
      assert a + b == a;
    } else {
      var b' := b[..|b| - 1];
      SymbolsOfAppend(a, b');
      assert (a + b)[..|a + b| - 1] == a + b';
    }
  }

  datatype Option<T> = None | Some(value: T)
}
