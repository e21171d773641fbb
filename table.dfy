/** The predictive parse table: a map from (nonterminal, lookahead) to the
    rule to expand, written rule by rule in grammar order so that a later
    rule overwrites an earlier one on the same key. */
module Table {
  import opened Grammar
  import opened FirstFollow

  type ParseTable = map<(string, string), GrammarRule>

  /** The lookaheads `buildParseTable` files rule `r` under: FIRST of its
      right-hand side without `epsilon`, and, when that FIRST set holds
      `epsilon`, all of FOLLOW of its left-hand side (where `epsilon` is not
      filtered out). */
  function Lookaheads(terminals: set<string>, first: SymbolSets, follow: SymbolSets, r: GrammarRule): set<string>
  {
    var f := FirstOf(terminals, first, r.rhs);
    (f - {Epsilon}) + (if Epsilon in f then Lookup(follow, r.lhs) else {})
  }

  /** The entries `(lhs, t) -> r` for every `t` in `lookaheads`. */
  function Entries(lhs: string, lookaheads: set<string>, r: GrammarRule): (m: ParseTable)
    ensures forall k :: k in m <==> k.0 == lhs && k.1 in lookaheads
    ensures forall k :: k in m ==> m[k] == r
  {
    map t | t in lookaheads :: (lhs, t) := r
  }

  /** The table the rules write, later rules overwriting earlier ones. */
  function TableOf(terminals: set<string>, first: SymbolSets, follow: SymbolSets,
                   rules: seq<GrammarRule>): (table: ParseTable)
    ensures forall k :: k in table ==> table[k].lhs == k.0
  {
    if rules == [] then map[]
    else
      var r := rules[|rules| - 1];
      var init := TableOf(terminals, first, follow, rules[..|rules| - 1]);
      init + Entries(r.lhs, Lookaheads(terminals, first, follow, r), r)
  }

  /** Rule `r` writes key `k`. */
  ghost predicate Writes(terminals: set<string>, first: SymbolSets, follow: SymbolSets, r: GrammarRule,
                         k: (string, string)) {
    k.0 == r.lhs && k.1 in Lookaheads(terminals, first, follow, r)
  }

  /** The table at one key: the last rule if it writes the key, otherwise
      the table of the rules before it. */
  lemma TableOfAt(terminals: set<string>, first: SymbolSets, follow: SymbolSets,
                  rules: seq<GrammarRule>, k: (string, string))
    requires rules != []
    ensures var init := TableOf(terminals, first, follow, rules[..|rules| - 1]);
            var table := TableOf(terminals, first, follow, rules);
            var last := rules[|rules| - 1];
            && (k in table <==> Writes(terminals, first, follow, last, k) || k in init)
            && (k in table ==> table[k] == if Writes(terminals, first, follow, last, k) then last else init[k])
  {
  }

  /** A key is in the table exactly when some rule writes it. */
  lemma TableOfKeys(terminals: set<string>, first: SymbolSets, follow: SymbolSets,
                    rules: seq<GrammarRule>, k: (string, string))
    ensures k in TableOf(terminals, first, follow, rules) <==>
      exists j :: 0 <= j < |rules| && Writes(terminals, first, follow, rules[j], k)
  {
    if k in TableOf(terminals, first, follow, rules) {
      KeyHasWriter(terminals, first, follow, rules, k);
    }
    if exists j :: 0 <= j < |rules| && Writes(terminals, first, follow, rules[j], k) {
      var j :| 0 <= j < |rules| && Writes(terminals, first, follow, rules[j], k);
      WriterPutsKey(terminals, first, follow, rules, j, k);
    }
  }

  /** Every key of the table was written by some rule. */
  lemma {:induction false} KeyHasWriter(terminals: set<string>, first: SymbolSets, follow: SymbolSets,
                                        rules: seq<GrammarRule>, k: (string, string))
    requires k in TableOf(terminals, first, follow, rules)
    ensures exists j :: 0 <= j < |rules| && Writes(terminals, first, follow, rules[j], k)
  {
    var n := |rules| - 1;
    TableOfAt(terminals, first, follow, rules, k);
    if !Writes(terminals, first, follow, rules[n], k) {
      var init := rules[..n];
      KeyHasWriter(terminals, first, follow, init, k);
      var j :| 0 <= j < |init| && Writes(terminals, first, follow, init[j], k);
      assert init[j] == rules[j];
    }
  }

  /** A key some rule writes is in the table. */
  lemma {:induction false} WriterPutsKey(terminals: set<string>, first: SymbolSets, follow: SymbolSets,
                                         rules: seq<GrammarRule>, j: nat, k: (string, string))
    requires j < |rules| && Writes(terminals, first, follow, rules[j], k)
    ensures k in TableOf(terminals, first, follow, rules)
  {
    var n := |rules| - 1;
    TableOfAt(terminals, first, follow, rules, k);
    if j < n {
      var init := rules[..n];
      assert init[j] == rules[j];
      WriterPutsKey(terminals, first, follow, init, j, k);
    }
  }

  /** The entry at a key is the LAST rule in grammar order that writes it. */
  lemma {:induction false} TableOfLastWriterWins(terminals: set<string>, first: SymbolSets, follow: SymbolSets,
                                                 rules: seq<GrammarRule>, k: (string, string))
    requires k in TableOf(terminals, first, follow, rules)
    ensures exists j :: 0 <= j < |rules| && TableOf(terminals, first, follow, rules)[k] == rules[j]
                        && Writes(terminals, first, follow, rules[j], k)
                        && forall j' :: j < j' < |rules| ==> !Writes(terminals, first, follow, rules[j'], k)
  {
    var n := |rules| - 1;
    var init := rules[..n];
    TableOfAt(terminals, first, follow, rules, k);
    if !Writes(terminals, first, follow, rules[n], k) {
      TableOfLastWriterWins(terminals, first, follow, init, k);
      var j :| 0 <= j < |init| && TableOf(terminals, first, follow, init)[k] == init[j]
               && Writes(terminals, first, follow, init[j], k)
               && forall j' :: j < j' < |init| ==> !Writes(terminals, first, follow, init[j'], k);
      assert rules[j] == init[j];
      NoLaterWriter(terminals, first, follow, rules, init, j, k);
    }
  }

  /** No rule after `j` writes `k` when none of the earlier rules after `j`
      does and the last one does not. */
  lemma NoLaterWriter(terminals: set<string>, first: SymbolSets, follow: SymbolSets,
                      rules: seq<GrammarRule>, init: seq<GrammarRule>, j: nat, k: (string, string))
    requires j < |rules| - 1 && init == rules[..|rules| - 1]
    requires forall j' :: j < j' < |init| ==> !Writes(terminals, first, follow, init[j'], k)
    requires !Writes(terminals, first, follow, rules[|rules| - 1], k)
    ensures forall j' :: j < j' < |rules| ==> !Writes(terminals, first, follow, rules[j'], k)
  {
    forall j' | j < j' < |rules| - 1 ensures !Writes(terminals, first, follow, rules[j'], k) {
      assert init[j'] == rules[j'];
    }
  }

  /** Every entry of the table is one of the rules. */
  lemma {:induction false} TableOfRules(terminals: set<string>, first: SymbolSets, follow: SymbolSets,
                                        rules: seq<GrammarRule>)
    ensures forall k :: k in TableOf(terminals, first, follow, rules) ==> TableOf(terminals, first, follow, rules)[k] in rules
  {
    if rules != [] {
      var init := rules[..|rules| - 1];
      TableOfRules(terminals, first, follow, init);
      assert forall r :: r in init ==> r in rules;
    }
  }

  /** Every terminal other than `epsilon` in FIRST of a rule's right-hand
      side gets an entry for that rule's left-hand side. */
  lemma FirstEntriesPresent(terminals: set<string>, first: SymbolSets, follow: SymbolSets,
                            rules: seq<GrammarRule>, j: nat, t: string)
    requires j < |rules|
    requires t in FirstOf(terminals, first, rules[j].rhs) && t != Epsilon
    ensures (rules[j].lhs, t) in TableOf(terminals, first, follow, rules)
  {
    TableOfKeys(terminals, first, follow, rules, (rules[j].lhs, t));
  }

  /** An entry reached through FOLLOW belongs to a rule whose right-hand
      side has `epsilon` in its FIRST set. An entry under `epsilon` itself is
      one of these: FIRST entries skip `epsilon`, FOLLOW entries keep it. */
  lemma FollowEntriesNeedEpsilon(terminals: set<string>, first: SymbolSets, follow: SymbolSets,
                                 rules: seq<GrammarRule>, k: (string, string))
    requires k in TableOf(terminals, first, follow, rules)
    requires k.1 !in FirstOf(terminals, first, TableOf(terminals, first, follow, rules)[k].rhs) || k.1 == Epsilon
    ensures Epsilon in FirstOf(terminals, first, TableOf(terminals, first, follow, rules)[k].rhs)
    ensures k.1 in Lookup(follow, k.0)
  {
    TableOfLastWriterWins(terminals, first, follow, rules, k);
  }

  /** Writing one more lookahead extends the written entries. */
  lemma EntriesAdd(m: ParseTable, lhs: string, s: set<string>, t: string, r: GrammarRule)
    ensures (m + Entries(lhs, s, r))[(lhs, t) := r] == m + Entries(lhs, s + {t}, r)
  {
  }

  /** Writing two sets of lookaheads in turn writes their union. */
  lemma EntriesUnion(m: ParseTable, lhs: string, s: set<string>, s': set<string>, r: GrammarRule)
    ensures (m + Entries(lhs, s, r)) + Entries(lhs, s', r) == m + Entries(lhs, s + s', r)
  {
  }

  /** The table of the first `j + 1` rules: that of the first `j`,
      overwritten by rule `j`. */
  lemma TableOfSnoc(terminals: set<string>, first: SymbolSets, follow: SymbolSets,
                    rules: seq<GrammarRule>, j: nat)
    requires j < |rules|
    ensures TableOf(terminals, first, follow, rules[..j + 1])
            == TableOf(terminals, first, follow, rules[..j])
               + Entries(rules[j].lhs, Lookaheads(terminals, first, follow, rules[j]), rules[j])
  {
    assert rules[..j + 1][..j] == rules[..j];
  }

  /** A rule with a single lookahead `t` adds or overwrites the one key
      `(lhs, t)`. */
  lemma TableOfSingleLookahead(terminals: set<string>, first: SymbolSets, follow: SymbolSets,
                               rules: seq<GrammarRule>, j: nat, t: string)
    requires j < |rules|
    requires Lookaheads(terminals, first, follow, rules[j]) == {t}
    ensures TableOf(terminals, first, follow, rules[..j + 1])
            == TableOf(terminals, first, follow, rules[..j])[(rules[j].lhs, t) := rules[j]]
  {
    TableOfSnoc(terminals, first, follow, rules, j);
  }

  /** One more rule written over a table built from a prefix. */
  lemma TableOfNext(terminals: set<string>, first: SymbolSets, follow: SymbolSets, m: ParseTable,
                    rules: seq<GrammarRule>, j: nat)
    requires j < |rules|
    ensures (m + TableOf(terminals, first, follow, rules[..j]))
            + Entries(rules[j].lhs, Lookaheads(terminals, first, follow, rules[j]), rules[j])
            == m + TableOf(terminals, first, follow, rules[..j + 1])
  {
    assert rules[..j + 1][..j] == rules[..j];
  }
}
