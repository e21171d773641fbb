# LL(1) parser generator and driver, modelled in Dafny

This project models the `LL1Parser` class of `Demo_02/Demo_02.cpp`. The class
runs a five-stage pipeline:

1. Read a grammar file line by line. Each line `LHS -> sym ...` becomes a rule.
2. Compute FIRST sets to a fixed point.
3. Compute FOLLOW sets to a fixed point.
4. Fill a predictive parse table keyed by (nonterminal, terminal).
5. Run a table-driven stack automaton over a token list. It either accepts
   or reports one of two syntax errors.

The model follows the code and its quirks, not the textbook algorithm:

- `epsilon` is spelt in lower case, so it is filed as a terminal.
- FIRST of an empty sequence is `{}`.
- `epsilon` is never removed from a FIRST or FOLLOW set.
- Only nonterminals that occur on some right-hand side get a FOLLOW set. A
  start symbol that never occurs there gets no `$`.
- The shift test comes before the terminal test.
- A later rule overwrites an earlier one on the same table key.

Modules:

- `Grammar` (`grammar.dfy`): tokens, rules, the whitespace splitter, the rule
  reader for one line, and how symbols are classified by their first letter.
- `FirstFollow` (`first_follow.dfy`): FIRST of a sequence (`FirstOf`) and
  FOLLOW of a nonterminal (`FollowOf`) as functions of the current state.
  Each has a loop-free characterisation of its members. The module also
  holds monotonicity and the closure predicates the fixed points stop in.
- `Table` (`table.dfy`): the table that the rules write in grammar order
  (`TableOf`), which keys it has and which rule wins a key.
- `Driver` (`driver.dfy`): one step (`Step`) and a bounded run (`Run`) of the
  parse automaton. Diagnostics are values.
- `LL1` (`ll1_parser.dfy`): the class `LL1Parser` with the source's seven
  fields. Its methods update those fields with the source's loops. Each method
  is proved against the functions above. `IsTerminal` is membership in
  `terminals`.

## Model

| member | source | states |
|---|---|---|
| Grammar.Split | Demo_02/Demo_02.cpp:67-71 | `split` returns the whitespace-separated words of the line, in order (`Words`) |
| Grammar.Words | Demo_02/Demo_02.cpp:67-71 | every word `split` produces is non-empty and free of whitespace |
| Grammar.WordsOfEmpty | Demo_02/Demo_02.cpp:67-71 | an empty line has no words |
| Grammar.WordsOfWord | Demo_02/Demo_02.cpp:67-71 | a run of non-space characters is a single word |
| Grammar.WordsAtSpace | Demo_02/Demo_02.cpp:67-71 | any whitespace character separates: the words of `p c q` are those of `p` followed by those of `q`, so leading, trailing and repeated whitespace yields no empty word; with the two rows above this fixes the words of every line |
| Grammar.WordsUnwords | Demo_02/Demo_02.cpp:67-71 | splitting well-formed words joined by spaces gives the same words back |
| Grammar.ParseRule | Demo_02/Demo_02.cpp:49-55 | an accepted line splits into `lhs`, `->` and a non-empty right-hand side of words |
| Grammar.ParseRuleText | Demo_02/Demo_02.cpp:49-55 | reading the text `lhs -> s1 ... sn` of a well-formed rule gives that rule back |
| Grammar.LinesWithoutArrowAreSkipped | Demo_02/Demo_02.cpp:52 | a line with fewer than three words, or whose second word is not `->`, yields no rule |
| Grammar.RulesOf | Demo_02/Demo_02.cpp:48-56 | the rules of a file come one per accepted line at most; each has a word as its left-hand side and a non-empty right-hand side |
| Grammar.StartIsFirstRule | Demo_02/Demo_02.cpp:62 | the start symbol is the one already set, or else the left-hand side of the first rule; later rules never change it |
| Grammar.Classification | Demo_02/Demo_02.cpp:57-61 | every left-hand side is a nonterminal; a right-hand-side symbol is a nonterminal when its first letter is upper case and a terminal otherwise, so `epsilon` is a terminal |
| Grammar.TerminalsOccur | Demo_02/Demo_02.cpp:58-59 | every terminal occurs on some right-hand side and does not start with an upper-case letter |
| Grammar.TerminalsOfSymbol | Demo_02/Demo_02.cpp:58-59 | a symbol is filed as a terminal exactly when it occurs on some right-hand side and does not start with an upper-case letter |
| Grammar.SymbolsOfAppend | Demo_02/Demo_02.cpp:56-61 | the terminals and nonterminals filed for two runs of rules are the union of those filed for each |
| LL1.LL1Parser.constructor | Demo_02/Demo_02.cpp:24-28 | a new parser has no grammar, empty sets and maps, and no start symbol |
| LL1.LL1Parser.LoadGrammar | Demo_02/Demo_02.cpp:45-64 | appends the rules of the accepted lines in file order; adds their symbols to the terminal and nonterminal sets by case; sets the start symbol from the first rule if none was set; keeps FIRST, FOLLOW and the table consistent; when the terminal and nonterminal sets were those of the old grammar, they are those of the new grammar |
| LL1.LL1Parser.LoadLine | Demo_02/Demo_02.cpp:49-62 | a skipped line changes nothing; an accepted line adds exactly its rule |
| LL1.LL1Parser.AddRule | Demo_02/Demo_02.cpp:53-62 | appends the rule, files the left-hand side and the upper-case symbols as nonterminals and the rest as terminals, and sets the start symbol only when it is empty |
| LL1.LL1Parser.IsTerminal | Demo_02/Demo_02.cpp:74-76 | on a parser whose terminal set is the one loading built from its grammar, a symbol is a terminal exactly when it occurs on some right-hand side and does not start with an upper-case letter |
| FirstFollow.FirstOf | Demo_02/Demo_02.cpp:79-93 | while FIRST sets hold only terminals, FIRST of any sequence holds only terminals |
| FirstFollow.FirstOfMembers | Demo_02/Demo_02.cpp:79-93 | `t` is in FIRST of a sequence exactly when some position contributes `t` (a terminal itself, or a nonterminal's FIRST set) and every symbol before that position is a nonterminal whose FIRST set holds `epsilon` |
| FirstFollow.FirstOfMonotone | Demo_02/Demo_02.cpp:86-89 | larger FIRST sets give a larger FIRST of every sequence |
| LL1.LL1Parser.ComputeFirstOf | Demo_02/Demo_02.cpp:79-93 | the scan with `break` returns FirstOf of the sequence over the current state |
| LL1.LL1Parser.ComputeFirst | Demo_02/Demo_02.cpp:96-109 | terminates; no FIRST set shrinks; on exit no rule can add to FIRST of its left-hand side; the result lies below every closed family above the initial sets; on closed sets it changes nothing |
| FirstFollow.FirstSetsExample | Demo_02/Demo_02.cpp:79-109 | for `S -> A b`, `A -> a`, `A -> epsilon` every closed family has FIRST(A) containing {a, epsilon} and FIRST(S) containing {a, epsilon, b}, and that family is closed |
| FirstFollow.FollowOf | Demo_02/Demo_02.cpp:112-135 | FOLLOW of the start symbol holds `$`; with bounded FIRST and FOLLOW sets the result holds only terminals and `$` |
| FirstFollow.FollowOfMembers | Demo_02/Demo_02.cpp:112-135 | `t` is in FOLLOW(N) exactly when N is the start symbol and `t` is `$`, or some occurrence of N has `t` in FIRST of its suffix (with `epsilon` kept), or the suffix is missing or its FIRST holds `epsilon` and `t` is in FOLLOW of the left-hand side |
| FirstFollow.FollowOfMonotone | Demo_02/Demo_02.cpp:123-129 | larger FOLLOW sets give a larger FOLLOW of every nonterminal |
| LL1.LL1Parser.ComputeFollowOf | Demo_02/Demo_02.cpp:112-135 | the sweep over every right-hand-side occurrence returns FollowOf over the current state |
| LL1.LL1Parser.OccurrenceContribution | Demo_02/Demo_02.cpp:118-131 | one occurrence adds FIRST of its suffix, plus FOLLOW of the left-hand side when there is no suffix or the suffix can vanish |
| LL1.LL1Parser.ComputeFollow | Demo_02/Demo_02.cpp:138-153 | terminates; no FOLLOW set shrinks; symbols that occur on no right-hand side keep their FOLLOW set; on exit every occurring nonterminal's FOLLOW set contains its FollowOf; the result lies below every closed family above the initial sets |
| LL1.LL1Parser.FollowUpdateAt | Demo_02/Demo_02.cpp:144-148 | a nonterminal gets its FollowOf added to its FOLLOW set and reports whether the set grew; any other symbol changes nothing |
| Table.TableOf | Demo_02/Demo_02.cpp:156-171 | every table entry at (N, t) is a rule whose left-hand side is N |
| Table.TableOfKeys | Demo_02/Demo_02.cpp:156-171 | a key is in the table exactly when some rule writes it, through FIRST without `epsilon` or through FOLLOW when FIRST holds `epsilon` |
| Table.TableOfLastWriterWins | Demo_02/Demo_02.cpp:157-168 | the entry at a key is a rule that writes it, and no later rule writes it: the later rule wins a collision |
| Table.TableOfSingleLookahead | Demo_02/Demo_02.cpp:157-168 | a rule with the single lookahead t changes the table of the rules before it only at (its left-hand side, t), which now holds that rule |
| Table.TableOfRules | Demo_02/Demo_02.cpp:161-167 | every entry is one of the grammar's rules |
| Table.FirstEntriesPresent | Demo_02/Demo_02.cpp:158-163 | every non-`epsilon` symbol in FIRST of a rule's right-hand side gives a key for that rule's left-hand side |
| Table.FollowEntriesNeedEpsilon | Demo_02/Demo_02.cpp:164-168 | an entry whose lookahead is `epsilon`, or is not in FIRST of its rule's right-hand side, came from FOLLOW: that FIRST set holds `epsilon` and the lookahead is in FOLLOW of the key's nonterminal |
| LL1.LL1Parser.BuildParseTable | Demo_02/Demo_02.cpp:156-171 | the table becomes the old table overwritten by TableOf of the grammar, keeping every entry's rule on its own nonterminal |
| LL1.LL1Parser.AddEntries | Demo_02/Demo_02.cpp:158-169 | one rule is written under every lookahead of its Lookaheads set |
| LL1.LL1Parser.AddFollowEntries | Demo_02/Demo_02.cpp:165-168 | one rule is written under every symbol of the FOLLOW set of its left-hand side |
| Driver.PushesReadsRhsFromTop | Demo_02/Demo_02.cpp:208-210 | the symbols pushed for a rule, read from the top down, are its right-hand side in order without `epsilon` |
| Driver.NoEntryDiagnostic | Demo_02/Demo_02.cpp:200-205 | a missing entry reports UnexpectedToken; the line is the previous token's when the current line is negative, and the current one otherwise; the text is the previous token's when the current text is `$`, and the current one otherwise; on the first token both come from the current token |
| Driver.Step | Demo_02/Demo_02.cpp:183-211 | accepts exactly on `$` over `$`; otherwise, a top equal to the token type is popped and the position advances, whether or not the top is a terminal; else a terminal top halts with ExpectedButFound(current line, top, current text); else a missing entry halts with NoEntryDiagnostic; else the top is replaced by the entry's right-hand side pushed in reverse without `epsilon`; the position never passes the end token |
| Driver.Run | Demo_02/Demo_02.cpp:183-213 | a run never moves back and never passes the end token; it accepts only with `$` on top over the end token |
| Driver.AcceptsOnlyAtEnd | Demo_02/Demo_02.cpp:186-193 | when no real token has type `$`, a run accepts only after consuming every real token |
| LL1.LL1Parser.ParseTokens | Demo_02/Demo_02.cpp:174-214 | starting from `$` under the start symbol with the end token appended, the loop's outcome is that of Run with the same step bound |
| Driver.AcceptsSingleToken | Demo_02/Demo_02.cpp:174-193 | grammar `S -> a` accepts the tokens `1 a a` |
| Driver.RejectsWrongToken | Demo_02/Demo_02.cpp:199-205 | grammar `S -> a` rejects `1 b b` with UnexpectedToken(1, b) |
| Driver.AcceptsThroughEpsilon | Demo_02/Demo_02.cpp:183-211 | with `S -> A b`, `A -> a`, `A -> epsilon` and its table, `1 b b` is accepted after A expands to nothing |
| Driver.TableSAbIsBuilt | Demo_02/Demo_02.cpp:96-171 | for that grammar, FIRST(S) = {a, epsilon, b}, FIRST(A) = {a, epsilon} and FOLLOW(A) = {b} are closed, and the table built from them is the one the scenario uses, with no `$` entry since S occurs on no right-hand side |
| Driver.BuiltTableAcceptsThroughEpsilon | Demo_02/Demo_02.cpp:156-211 | the table built from that grammar's closed sets accepts `1 b b` |
| Driver.EmptyInputReadsBeforeStart | Demo_02/Demo_02.cpp:202 | with `S -> a` and no tokens, the no-entry branch is reached on position 0, where the code reads position -1 |

A textbook LL(1) parser behaves differently from this code in places. In
each case the model follows the code:

- For grammar `S -> a` and tokens `1 b b`, a textbook parser would report
  "expected 'a' but found 'b'". The code has no table entry for (S, b) and
  reports an unexpected token instead (`Driver.RejectsWrongToken`).
- The textbook algorithm also has several behaviours the code does not
  have. The model does not include them:
  - classifying symbols by whether they occur as a left-hand side;
  - `{epsilon}` as FIRST of an empty sequence;
  - removing `epsilon` from FOLLOW sets;
  - always putting `$` in FOLLOW of the start symbol;
  - reporting table conflicts.

## Left out

- File input: `LoadGrammar` takes the grammar file's lines as a sequence, so
  the `ifstream` and `getline` plumbing is not modelled.
- Output: the error file and the YES/NO console lines are not modelled.
  `ParseTokens` returns the outcome and the diagnostic as values instead of
  the formatted text and the boolean.
- `main`: argument handling, and reading the token file with `>>`
  extraction, are not part of this model. Tokens are given as values.
- Locale: `isupper` is modelled as ASCII `A`..`Z`, and stream whitespace as
  space, tab, newline, vertical tab, form feed and carriage return.
- Iteration order: `std::set` iteration is modelled as an arbitrary choice
  of the next element. Every write inside one rule's loops stores the same
  rule, so the order does not change the table.
- Integer widths: `size_t` counters and set sizes are unbounded integers. No
  realistic grammar reaches their limits.
- LL1.LL1Parser.ParseTokens: the loop need not terminate, for example on a
  left-recursive grammar. The model bounds it with `fuel` and reports
  `OutOfFuel` when the bound is reached.
- LL1.LL1Parser.ParseTokens: on a missing entry at position 0 it uses the
  corrected diagnostic, not the out-of-range read of the code (see Findings).
- LL1.LL1Parser.ComputeFirstOf: reading a missing FIRST set through
  `operator[]` inserts an empty set in the C++ map. The model reads without
  inserting. No later read can tell the two apart.
- LL1.LL1Parser.ComputeFollowOf: the same holds for reading a missing FOLLOW
  set.
- LL1.LL1Parser.AddEntries: the same holds for reading a missing FOLLOW set.

## Findings

| source | as written | input that shows it | evidently intended | confidence | as-written member | corrected member |
|---|---|---|---|---|---|---|
| Demo_02/Demo_02.cpp:202 | on a missing table entry, the line and text come from `input[index - 1]` whenever the current token has a negative line or the value `$`, with no check that `index > 0` | grammar `S -> a` and an empty token list: the first step looks up (S, $), finds no entry at position 0, and reads position -1 (`Driver.EmptyInputReadsBeforeStart`) | use the previous token only when there is one, otherwise the current token | not executed | Driver.NoEntrySourcesAsWritten | Driver.NoEntryDiagnostic |
