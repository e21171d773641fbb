/** FIRST and FOLLOW sets as the parser generator computes them: one
    left-to-right scan for FIRST of a symbol sequence, one sweep over all
    right-hand-side occurrences for FOLLOW of a nonterminal. The fixed-point
    loops that apply them live in the LL1 module; this module states what one
    application yields and the facts the loops need (boundedness,
    monotonicity, a shrinking measure). */
module FirstFollow {
  import opened Grammar

  /** A `std::map<string, set<string>>` of FIRST or FOLLOW sets. */
  type SymbolSets = map<string, set<string>>

  /** `m[x]` read through `operator[]`: a missing key reads as the empty set. */
  function Lookup(m: SymbolSets, x: string): set<string> {
    if x in m then m[x] else {}
  }

  /** Every set of `m` is contained in the corresponding set of `m'`. */
  ghost predicate Below(m: SymbolSets, m': SymbolSets) {
    forall x :: Lookup(m, x) <= Lookup(m', x)
  }

  /** `m` and `m'` hold the same sets; they may differ in which keys hold an
      empty set, which no read can tell apart. */
  ghost predicate SameSets(m: SymbolSets, m': SymbolSets) {
    Below(m, m') && Below(m', m)
  }

  ghost predicate BoundedBy(m: SymbolSets, universe: set<string>) {
    forall x :: Lookup(m, x) <= universe
  }

  // ---------------------------------------------------------------- FIRST

  /** `computeFirstOf`: scan left to right; a terminal is added and ends the
      scan; a nonterminal adds its current FIRST set and the scan goes on only
      if that set holds `epsilon`. `epsilon` is never removed, and the empty
      sequence yields the empty set. */
  function FirstOf(terminals: set<string>, first: SymbolSets, symbols: seq<string>): (r: set<string>)
    ensures BoundedBy(first, terminals) ==> r <= terminals
  {
    if symbols == [] then {}
    else if symbols[0] in terminals then {symbols[0]}
    else
      var f := Lookup(first, symbols[0]);
      f + (if Epsilon in f then FirstOf(terminals, first, symbols[1..]) else {})
  }

  /** A symbol the scan passes over: a nonterminal whose FIRST set holds `epsilon`. */
  predicate Vanishes(terminals: set<string>, first: SymbolSets, x: string) {
    x !in terminals && Epsilon in Lookup(first, x)
  }

  /** Every symbol before position `i` vanishes, so the scan reaches `i`. */
  predicate VanishesBefore(terminals: set<string>, first: SymbolSets, s: seq<string>, i: nat)
    requires i <= |s|
  {
    forall j :: 0 <= j < i ==> Vanishes(terminals, first, s[j])
  }

  /** What the scan adds when it reaches `x`. */
  function Contribution(terminals: set<string>, first: SymbolSets, x: string): set<string> {
    if x in terminals then {x} else Lookup(first, x)
  }

  /** FIRST of a sequence, stated without the scan: `t` is in it exactly when
      some position contributes `t` and every symbol before it vanishes. */
  lemma {:induction false} FirstOfMembers(terminals: set<string>, first: SymbolSets, s: seq<string>, t: string)
    ensures t in FirstOf(terminals, first, s) <==>
      exists i :: 0 <= i < |s| && VanishesBefore(terminals, first, s, i) && t in Contribution(terminals, first, s[i])
    decreases |s|
  {
    if s != [] {
      var rest := s[1..];
      FirstOfMembers(terminals, first, rest, t);
      if t in FirstOf(terminals, first, s) {
        if s[0] in terminals || t in Lookup(first, s[0]) {
          assert VanishesBefore(terminals, first, s, 0) && t in Contribution(terminals, first, s[0]);
        } else {
          var i :| 0 <= i < |rest| && VanishesBefore(terminals, first, rest, i)
                   && t in Contribution(terminals, first, rest[i]);
          assert s[i + 1] == rest[i];
          forall j | 0 <= j < i + 1 ensures Vanishes(terminals, first, s[j]) {
            if j > 0 { assert s[j] == rest[j - 1]; }
          }
          assert VanishesBefore(terminals, first, s, i + 1);
        }
      }
      if exists i :: 0 <= i < |s| && VanishesBefore(terminals, first, s, i)
                     && t in Contribution(terminals, first, s[i]) {
        var i :| 0 <= i < |s| && VanishesBefore(terminals, first, s, i) && t in Contribution(terminals, first, s[i]);
        if i > 0 {
          assert Vanishes(terminals, first, s[0]);
          assert rest[i - 1] == s[i];
          forall j | 0 <= j < i - 1 ensures Vanishes(terminals, first, rest[j]) {
            assert rest[j] == s[j + 1];
          }
          assert VanishesBefore(terminals, first, rest, i - 1);
        }
      }
    }
  }

  /** Larger FIRST sets for the nonterminals give a larger FIRST of any sequence. */
  lemma {:induction false} FirstOfMonotone(terminals: set<string>, first: SymbolSets, first': SymbolSets, s: seq<string>)
    requires Below(first, first')
    ensures FirstOf(terminals, first, s) <= FirstOf(terminals, first', s)
    decreases |s|
  {
    if s != [] && s[0] !in terminals {
      FirstOfMonotone(terminals, first, first', s[1..]);
      assert Lookup(first, s[0]) <= Lookup(first', s[0]);
    }
  }

  lemma FirstOfSameSets(terminals: set<string>, first: SymbolSets, first': SymbolSets, s: seq<string>)
    requires SameSets(first, first')
    ensures FirstOf(terminals, first, s) == FirstOf(terminals, first', s)
  {
    FirstOfMonotone(terminals, first, first', s);
    FirstOfMonotone(terminals, first', first, s);
  }

  /** No rule can add to FIRST of its left-hand side: the state `computeFirst`
      stops in. */
  ghost predicate FirstClosed(g: seq<GrammarRule>, terminals: set<string>, first: SymbolSets) {
    forall j :: 0 <= j < |g| ==> FirstOf(terminals, first, g[j].rhs) <= Lookup(first, g[j].lhs)
  }

  function LeftHandSides(g: seq<GrammarRule>): set<string> {
    set j | 0 <= j < |g| :: g[j].lhs
  }

  // --------------------------------------------------------- termination

  /** A bound holds for any larger universe. */
  lemma BoundedByGrows(m: SymbolSets, universe: set<string>, universe': set<string>)
    requires BoundedBy(m, universe) && universe <= universe'
    ensures BoundedBy(m, universe')
  {
  }

  /** The (symbol, element) pairs that the sets of `m` could still gain over
      `keys` within `universe`; a fixed-point pass that grows a set removes a pair. */
  ghost function Missing(keys: set<string>, universe: set<string>, m: SymbolSets): set<(string, string)> {
    set x, t | x in keys && t in universe && t !in Lookup(m, x) :: (x, t)
  }

  lemma MissingShrinks(keys: set<string>, universe: set<string>, m: SymbolSets, m': SymbolSets)
    requires Below(m, m')
    ensures Missing(keys, universe, m') <= Missing(keys, universe, m)
  {
  }

  lemma MissingStrictlyShrinks(keys: set<string>, universe: set<string>, m: SymbolSets, m': SymbolSets,
                               x: string, t: string)
    requires Below(m, m')
    requires x in keys && t in universe && t !in Lookup(m, x) && t in Lookup(m', x)
    ensures Missing(keys, universe, m') < Missing(keys, universe, m)
  {
    assert (x, t) in Missing(keys, universe, m);
    assert (x, t) !in Missing(keys, universe, m');
  }

  /** `m` with `s` added to the set of `x`: one update of a fixed-point pass. */
  function AddTo(m: SymbolSets, x: string, s: set<string>): (m': SymbolSets)
    ensures Lookup(m', x) == Lookup(m, x) + s
    ensures forall y :: y != x ==> Lookup(m', y) == Lookup(m, y)
    ensures Below(m, m')
  {
    m[x := Lookup(m, x) + s]
  }

  lemma AddToBounded(m: SymbolSets, x: string, s: set<string>, universe: set<string>)
    requires BoundedBy(m, universe) && s <= universe
    ensures BoundedBy(AddTo(m, x, s), universe)
  {
    forall y ensures Lookup(AddTo(m, x, s), y) <= universe {
      if y != x {
        assert Lookup(AddTo(m, x, s), y) == Lookup(m, y);
      }
    }
  }

  /** An update never adds a missing pair; one that grows the set of a key
      removes one; one that does not grow it changes no set. */
  lemma AddToMissing(keys: set<string>, universe: set<string>, m: SymbolSets, x: string, s: set<string>, grew: bool)
    requires x in keys && s <= universe
    requires grew == (|Lookup(m, x) + s| > |Lookup(m, x)|)
    ensures Missing(keys, universe, AddTo(m, x, s)) <= Missing(keys, universe, m)
    ensures grew ==> Missing(keys, universe, AddTo(m, x, s)) < Missing(keys, universe, m)
    ensures !grew ==> SameSets(m, AddTo(m, x, s))
  {
    var m' := AddTo(m, x, s);
    MissingShrinks(keys, universe, m, m');
    if grew {
      var t := GrownElement(Lookup(m, x), Lookup(m', x));
      MissingStrictlyShrinks(keys, universe, m, m', x, t);
    } else {
      SameSize(Lookup(m, x), Lookup(m', x));
    }
  }

  /** A strictly larger superset has an element the smaller set lacks. */
  lemma GrownElement(a: set<string>, b: set<string>) returns (t: string)
    requires a <= b && |b| > |a|
    ensures t in b && t !in a
  {
    var d := b - a;
    assert |d| > 0 by {
      assert b == a + d;
    }
    t :| t in d;
  }

  /** A superset of the same size is the same set. */
  lemma SameSize(a: set<string>, b: set<string>)
    requires a <= b && |b| <= |a|
    ensures a == b
  {
    assert b == a + (b - a);
  }


  // --------------------------------------------------------------- FOLLOW

  /** What the occurrence `r.rhs[i]` adds to FOLLOW(n) in `computeFollowOf`:
      nothing unless it is `n`; FIRST of the suffix (with `epsilon` kept) and,
      if that holds `epsilon`, FOLLOW(lhs); FOLLOW(lhs) when there is no suffix. */
  function OccurrenceFollow(terminals: set<string>, first: SymbolSets, follow: SymbolSets,
                            n: string, r: GrammarRule, i: nat): set<string>
    requires i < |r.rhs|
  {
    if r.rhs[i] != n then {}
    else if i + 1 < |r.rhs| then
      var f := FirstOf(terminals, first, r.rhs[i + 1..]);
      f + (if Epsilon in f then Lookup(follow, r.lhs) else {})
    else Lookup(follow, r.lhs)
  }

  /** The contributions of positions `0 .. i - 1` of one rule. */
  function FollowInRhs(terminals: set<string>, first: SymbolSets, follow: SymbolSets,
                       n: string, r: GrammarRule, i: nat): (s: set<string>)
    requires i <= |r.rhs|
    ensures BoundedBy(first, terminals) && BoundedBy(follow, terminals + {EndMarker}) ==>
      s <= terminals + {EndMarker}
  {
    if i == 0 then {}
    else FollowInRhs(terminals, first, follow, n, r, i - 1) + OccurrenceFollow(terminals, first, follow, n, r, i - 1)
  }

  /** The contributions of every occurrence in `rules`. */
  function FollowInRules(terminals: set<string>, first: SymbolSets, follow: SymbolSets,
                         n: string, rules: seq<GrammarRule>): (s: set<string>)
    ensures BoundedBy(first, terminals) && BoundedBy(follow, terminals + {EndMarker}) ==>
      s <= terminals + {EndMarker}
  {
    if rules == [] then {}
    else
      var r := rules[|rules| - 1];
      FollowInRules(terminals, first, follow, n, rules[..|rules| - 1])
        + FollowInRhs(terminals, first, follow, n, r, |r.rhs|)
  }

  /** `computeFollowOf(n)`: `$` when `n` is the start symbol, plus the
      contribution of every occurrence of `n` on a right-hand side. */
  function FollowOf(g: seq<GrammarRule>, start: string, terminals: set<string>, first: SymbolSets,
                    follow: SymbolSets, n: string): (s: set<string>)
    ensures n == start ==> EndMarker in s
    ensures BoundedBy(first, terminals) && BoundedBy(follow, terminals + {EndMarker}) ==>
      s <= terminals + {EndMarker}
  {
    (if n == start then {EndMarker} else {}) + FollowInRules(terminals, first, follow, n, g)
  }

  /** `t` follows the occurrence `r.rhs[i]` of `n`: it begins the suffix, or
      the suffix is missing or can vanish and `t` follows the left-hand side. */
  ghost predicate FollowsAt(terminals: set<string>, first: SymbolSets, follow: SymbolSets,
                            n: string, r: GrammarRule, i: nat, t: string)
    requires i < |r.rhs|
  {
    r.rhs[i] == n &&
    if i + 1 < |r.rhs| then
      t in FirstOf(terminals, first, r.rhs[i + 1..])
      || (Epsilon in FirstOf(terminals, first, r.rhs[i + 1..]) && t in Lookup(follow, r.lhs))
    else
      t in Lookup(follow, r.lhs)
  }

  lemma {:induction false} FollowInRhsMembers(terminals: set<string>, first: SymbolSets, follow: SymbolSets,
                                              n: string, r: GrammarRule, i: nat, t: string)
    requires i <= |r.rhs|
    ensures t in FollowInRhs(terminals, first, follow, n, r, i) <==>
      exists k :: 0 <= k < i && FollowsAt(terminals, first, follow, n, r, k, t)
  {
    if i > 0 {
      FollowInRhsMembers(terminals, first, follow, n, r, i - 1, t);
      assert t in OccurrenceFollow(terminals, first, follow, n, r, i - 1)
        <==> FollowsAt(terminals, first, follow, n, r, i - 1, t);
    }
  }

  lemma {:induction false} FollowInRulesMembers(terminals: set<string>, first: SymbolSets, follow: SymbolSets,
                                                n: string, rules: seq<GrammarRule>, t: string)
    ensures t in FollowInRules(terminals, first, follow, n, rules) <==>
      exists j, k :: 0 <= j < |rules| && 0 <= k < |rules[j].rhs|
                     && FollowsAt(terminals, first, follow, n, rules[j], k, t)
  {
    if rules != [] {
      var init := rules[..|rules| - 1];
      var r := rules[|rules| - 1];
      FollowInRulesMembers(terminals, first, follow, n, init, t);
      FollowInRhsMembers(terminals, first, follow, n, r, |r.rhs|, t);
      if t in FollowInRules(terminals, first, follow, n, rules) {
        if t in FollowInRules(terminals, first, follow, n, init) {
          var j, k :| 0 <= j < |init| && 0 <= k < |init[j].rhs|
                      && FollowsAt(terminals, first, follow, n, init[j], k, t);
          assert rules[j] == init[j];
        } else {
          var k :| 0 <= k < |r.rhs| && FollowsAt(terminals, first, follow, n, r, k, t);
          assert 0 <= |rules| - 1 < |rules|;
        }
      }
      if exists j, k :: 0 <= j < |rules| && 0 <= k < |rules[j].rhs|
                        && FollowsAt(terminals, first, follow, n, rules[j], k, t) {
        var j, k :| 0 <= j < |rules| && 0 <= k < |rules[j].rhs|
                    && FollowsAt(terminals, first, follow, n, rules[j], k, t);
        if j < |rules| - 1 {
          assert rules[j] == init[j];
        }
      }
    }
  }

  /** FOLLOW(n) stated without loops: `$` if `n` is the start symbol, and
      whatever follows some occurrence of `n` on a right-hand side. */
  lemma FollowOfMembers(g: seq<GrammarRule>, start: string, terminals: set<string>, first: SymbolSets,
                        follow: SymbolSets, n: string, t: string)
    ensures t in FollowOf(g, start, terminals, first, follow, n) <==>
      (n == start && t == EndMarker)
      || exists j, k :: 0 <= j < |g| && 0 <= k < |g[j].rhs| && FollowsAt(terminals, first, follow, n, g[j], k, t)
  {
    FollowInRulesMembers(terminals, first, follow, n, g, t);
  }

  lemma {:induction false} FollowInRhsMonotone(terminals: set<string>, first: SymbolSets,
                                               follow: SymbolSets, follow': SymbolSets,
                                               n: string, r: GrammarRule, i: nat)
    requires Below(follow, follow') && i <= |r.rhs|
    ensures FollowInRhs(terminals, first, follow, n, r, i) <= FollowInRhs(terminals, first, follow', n, r, i)
  {
    if i > 0 {
      FollowInRhsMonotone(terminals, first, follow, follow', n, r, i - 1);
      assert Lookup(follow, r.lhs) <= Lookup(follow', r.lhs);
    }
  }

  lemma {:induction false} FollowInRulesMonotone(terminals: set<string>, first: SymbolSets,
                                                 follow: SymbolSets, follow': SymbolSets,
                                                 n: string, rules: seq<GrammarRule>)
    requires Below(follow, follow')
    ensures FollowInRules(terminals, first, follow, n, rules) <= FollowInRules(terminals, first, follow', n, rules)
  {
    if rules != [] {
      var r := rules[|rules| - 1];
      FollowInRulesMonotone(terminals, first, follow, follow', n, rules[..|rules| - 1]);
      FollowInRhsMonotone(terminals, first, follow, follow', n, r, |r.rhs|);
    }
  }

  /** Larger FOLLOW sets give a larger `computeFollowOf` result. */
  lemma FollowOfMonotone(g: seq<GrammarRule>, start: string, terminals: set<string>, first: SymbolSets,
                         follow: SymbolSets, follow': SymbolSets, n: string)
    requires Below(follow, follow')
    ensures FollowOf(g, start, terminals, first, follow, n) <= FollowOf(g, start, terminals, first, follow', n)
  {
    FollowInRulesMonotone(terminals, first, follow, follow', n, g);
  }

  lemma FollowOfSameSets(g: seq<GrammarRule>, start: string, terminals: set<string>, first: SymbolSets,
                         follow: SymbolSets, follow': SymbolSets, n: string)
    requires SameSets(follow, follow')
    ensures FollowOf(g, start, terminals, first, follow, n) == FollowOf(g, start, terminals, first, follow', n)
  {
    FollowOfMonotone(g, start, terminals, first, follow, follow', n);
    FollowOfMonotone(g, start, terminals, first, follow', follow, n);
  }

  /** The nonterminals `computeFollow` updates: those occurring on some
      right-hand side. */
  function Occurring(g: seq<GrammarRule>, nonTerminals: set<string>): set<string> {
    set j, k | 0 <= j < |g| && 0 <= k < |g[j].rhs| && g[j].rhs[k] in nonTerminals :: g[j].rhs[k]
  }

  /** No occurrence can add to FOLLOW of an occurring nonterminal: the state
      `computeFollow` stops in. */
  ghost predicate FollowClosed(g: seq<GrammarRule>, nonTerminals: set<string>, start: string,
                               terminals: set<string>, first: SymbolSets, follow: SymbolSets) {
    forall x :: x in Occurring(g, nonTerminals) ==>
      FollowOf(g, start, terminals, first, follow, x) <= Lookup(follow, x)
  }

  // -------------------------------------------------------------- example

  /** For `S -> A b`, `A -> a`, `A -> epsilon` the least closed FIRST sets are
      FIRST(A) = {a, epsilon} and FIRST(S) = {a, epsilon, b}: `epsilon` enters
      as a terminal and is not removed when the scan moves on to `b`. */
  lemma FirstSetsExample(p: SymbolSets)
    requires FirstClosed([GrammarRule("S", ["A", "b"]), GrammarRule("A", ["a"]), GrammarRule("A", [Epsilon])],
                         {"b", "a", Epsilon}, p)
    ensures FirstClosed([GrammarRule("S", ["A", "b"]), GrammarRule("A", ["a"]), GrammarRule("A", [Epsilon])],
                        {"b", "a", Epsilon}, map["S" := {"a", Epsilon, "b"}, "A" := {"a", Epsilon}])
    ensures {"a", Epsilon} <= Lookup(p, "A") && {"a", Epsilon, "b"} <= Lookup(p, "S")
  {
    var g := [GrammarRule("S", ["A", "b"]), GrammarRule("A", ["a"]), GrammarRule("A", [Epsilon])];
    var terminals := {"b", "a", Epsilon};
    assert FirstOf(terminals, p, g[1].rhs) <= Lookup(p, "A");
    assert FirstOf(terminals, p, g[2].rhs) <= Lookup(p, "A");
    assert g[0].rhs[1..] == ["b"];
    assert FirstOf(terminals, p, g[0].rhs) <= Lookup(p, "S");
    var e := map["S" := {"a", Epsilon, "b"}, "A" := {"a", Epsilon}];
    assert FirstOf(terminals, e, g[0].rhs) == {"a", Epsilon, "b"};
  }
}
