/** The rule table `gramatica`: left-hand sides in first-insertion order,
    each with its list of alternatives, and the alphabet read off it. */
module Rules {
  import opened Text

  /** One entry of the rule table: `gramatica[lhs] == alts`. */
  datatype Rule = Rule(lhs: string, alts: seq<string>)

  /** The rule table; JavaScript iterates a plain object's (non-numeric)
      keys in insertion order, which is the order of this sequence. */
  type Grammar = seq<Rule>

  /** The keys of the table, in order. */
  function Lhss(g: Grammar): (keys: seq<string>)
    ensures |keys| == |g|
    ensures forall i :: 0 <= i < |g| ==> keys[i] == g[i].lhs
  {
    if g == [] then [] else [g[0].lhs] + Lhss(g[1..])
  }

  /** The non-terminals: the set of keys (`new Set(Object.keys(gramatica))`). */
  function NonTerminals(g: Grammar): set<string>
  {
    set i | 0 <= i < |g| :: g[i].lhs
  }

  /** No key appears twice: the table is a dictionary. */
  predicate DistinctKeys(g: Grammar) {
    forall i, j :: 0 <= i < j < |g| ==> g[i].lhs != g[j].lhs
  }

  /** `gramatica[key]`, with the empty list for a missing key. */
  function Lookup(g: Grammar, key: string): seq<string>
  {
    if g == [] then []
    else if g[0].lhs == key then g[0].alts
    else Lookup(g[1..], key)
  }

  /** `c` occurs in some alternative of some rule. */
  ghost predicate InSomeAlt(g: Grammar, c: char) {
    exists i, j, k :: 0 <= i < |g| && 0 <= j < |g[i].alts| && 0 <= k < |g[i].alts[j]| && g[i].alts[j][k] == c
  }

  /** Lookup finds the alternatives of the (unique) rule with that key. */
  lemma {:induction false} LookupAt(g: Grammar, i: nat)
    requires DistinctKeys(g)
    requires i < |g|
    ensures Lookup(g, g[i].lhs) == g[i].alts
  {
    if i > 0 {
      assert g[0].lhs != g[i].lhs;
      LookupAt(g[1..], i - 1);
    }
  }

  /** Lookup of a key that is not in the table is empty. */
  lemma {:induction false} LookupMissing(g: Grammar, key: string)
    requires key !in NonTerminals(g)
    ensures Lookup(g, key) == []
  {
    if g != [] {
      assert g[0].lhs in NonTerminals(g);
      assert NonTerminals(g[1..]) <= NonTerminals(g) by {
        forall x | x in NonTerminals(g[1..]) ensures x in NonTerminals(g) {
          var i :| 0 <= i < |g[1..]| && g[1..][i].lhs == x;
          assert g[i + 1].lhs == x;
        }
      }
      LookupMissing(g[1..], key);
    }
  }

  /** The loop at src/grammar.js:34-44 (and script.js:82-92): every
      character of every alternative that is not itself a key is a terminal.
      A character is compared with the keys as a one-character string. */
  method CollectTerminals(g: Grammar) returns (terminals: set<char>)
    ensures forall c :: c in terminals <==> InSomeAlt(g, c) && [c] !in NonTerminals(g)
  {
    var nonTerminals := NonTerminals(g);
    terminals := {};
    var i := 0;
    while i < |g|
      invariant 0 <= i <= |g|
      invariant forall c :: c in terminals ==> InSomeAlt(g, c) && [c] !in nonTerminals
      invariant forall i', j, k :: 0 <= i' < i && 0 <= j < |g[i'].alts| && 0 <= k < |g[i'].alts[j]| && [g[i'].alts[j][k]] !in nonTerminals ==> g[i'].alts[j][k] in terminals
    {
      var j := 0;
      while j < |g[i].alts|
        invariant 0 <= j <= |g[i].alts|
        invariant forall c :: c in terminals ==> InSomeAlt(g, c) && [c] !in nonTerminals
        invariant forall i', j', k :: 0 <= i' < i && 0 <= j' < |g[i'].alts| && 0 <= k < |g[i'].alts[j']| && [g[i'].alts[j'][k]] !in nonTerminals ==> g[i'].alts[j'][k] in terminals
        invariant forall j', k :: 0 <= j' < j && 0 <= k < |g[i].alts[j']| && [g[i].alts[j'][k]] !in nonTerminals ==> g[i].alts[j'][k] in terminals
      {
        var produccion := g[i].alts[j];
        var k := 0;
        while k < |produccion|
          invariant 0 <= k <= |produccion|
          invariant forall c :: c in terminals ==> InSomeAlt(g, c) && [c] !in nonTerminals
          invariant forall i', j', k' :: 0 <= i' < i && 0 <= j' < |g[i'].alts| && 0 <= k' < |g[i'].alts[j']| && [g[i'].alts[j'][k']] !in nonTerminals ==> g[i'].alts[j'][k'] in terminals
          invariant forall j', k' :: 0 <= j' < j && 0 <= k' < |g[i].alts[j']| && [g[i].alts[j'][k']] !in nonTerminals ==> g[i].alts[j'][k'] in terminals
          invariant forall k' :: 0 <= k' < k && [produccion[k']] !in nonTerminals ==> produccion[k'] in terminals
        {
          var simbolo := produccion[k];
          if [simbolo] !in nonTerminals {
            terminals := terminals + {simbolo};
          }
          k := k + 1;
        }
        j := j + 1;
      }
      i := i + 1;
    }
  }
}
