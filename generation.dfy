/** The generator `generar` inside `generarCadenas` (src/grammar.js:221-239,
    and the same code at script.js:157-175): a depth-first recursion over
    sentential forms that adds to a shared set every form of exactly the
    requested length none of whose characters is a key, and expands only
    forms shorter than that length. The source recursion has no depth
    bound: on a cycle such as `S → S` it descends until the call stack
    overflows and the uncaught exception ends the generation with nothing
    shown. Here `fuel` bounds the depth, and the model returns what is
    generated within it. */
module Generation {
  import opened Text
  import opened Rules
  import opened Rewriting
  import Derivation

  /** `![...s].some(c => gramatica[c])`: no character of `s`, taken as a
      one-character string, is a key of the table. */
  predicate NoKeyChar(g: Grammar, s: string) {
    forall k :: 0 <= k < |s| ==> [s[k]] !in NonTerminals(g)
  }

  /** The strings `generar(actual)` adds, when the recursion may go `fuel`
      levels deeper. */
  function Gen(g: Grammar, n: int, actual: string, fuel: nat): set<string>
    decreases fuel, 0, 0
  {
    if |actual| == n then (if NoKeyChar(g, actual) then {actual} else {})
    else if |actual| > n then {}
    else if fuel == 0 then {}
    else GenRules(g, n, actual, |g|, fuel - 1)
  }

  /** The strings added by the outer loop over the first `k` rules. */
  function GenRules(g: Grammar, n: int, actual: string, k: nat, fuel: nat): set<string>
    requires k <= |g|
    decreases fuel, 2, k
  {
    if k == 0 then {}
    else GenRules(g, n, actual, k - 1, fuel) + GenAlts(g, n, actual, k - 1, |g[k - 1].alts|, fuel)
  }

  /** The strings added by the inner loop over the first `m` alternatives
      of rule `i`. */
  function GenAlts(g: Grammar, n: int, actual: string, i: nat, m: nat, fuel: nat): set<string>
    requires i < |g| && m <= |g[i].alts|
    decreases fuel, 1, m
  {
    if m == 0 then {}
    else
      GenAlts(g, n, actual, i, m - 1, fuel) +
      if Contains(actual, g[i].lhs) then Gen(g, n, ReplaceFirst(actual, g[i].lhs, g[i].alts[m - 1]), fuel)
      else {}
  }

  /** Every step of `steps` expands a form shorter than the length asked
      for: the only forms the generator expands. */
  ghost predicate Shorter(steps: seq<Entry>, n: int) {
    forall k :: 0 <= k < |steps| ==> steps[k].Step? && |steps[k].before| < n
  }

  /** What a generated string is: of length `n`, free of key characters,
      and the end of a chain of at most `fuel` rewrites from the start
      symbol through forms shorter than `n`. */
  ghost predicate IsGenerated(g: Grammar, start: string, n: int, fuel: nat, s: string) {
    && |s| == n
    && NoKeyChar(g, s)
    && exists steps :: Chain(g, start, steps, s) && Shorter(steps, n) && |steps| <= fuel
  }

  /** A chain found one level down is a chain of the caller one step
      longer. */
  lemma ShorterExtend(g: Grammar, n: int, actual: string, y: string, s: string, rest: seq<Entry>)
    requires IsRewrite(g, actual, y) && |actual| < n
    requires Chain(g, y, rest, s) && Shorter(rest, n)
    ensures Chain(g, actual, [Step(actual, y)] + rest, s)
    ensures Shorter([Step(actual, y)] + rest, n)
  {
    ChainCons(g, actual, y, rest, s);
    forall k | 0 < k < |rest| + 1 ensures ([Step(actual, y)] + rest)[k] == rest[k - 1] {
    }
  }

  /** Every added string has the length asked for, holds no key character,
      and ends a chain of at most `fuel` rewrites from `actual` through
      forms shorter than that length. */
  lemma {:induction false} GenSound(g: Grammar, n: int, actual: string, fuel: nat, s: string) returns (steps: seq<Entry>)
    requires s in Gen(g, n, actual, fuel)
    ensures |s| == n && NoKeyChar(g, s)
    ensures Chain(g, actual, steps, s) && Shorter(steps, n) && |steps| <= fuel
    decreases fuel, 0, 0
  {
    if |actual| == n {
      steps := [];
      assert Linked(actual, steps, s);
    } else {
      steps := GenRulesSound(g, n, actual, |g|, fuel - 1, s);
    }
  }

  lemma {:induction false} GenRulesSound(g: Grammar, n: int, actual: string, k: nat, fuel: nat, s: string) returns (steps: seq<Entry>)
    requires k <= |g| && |actual| < n
    requires s in GenRules(g, n, actual, k, fuel)
    ensures |s| == n && NoKeyChar(g, s)
    ensures Chain(g, actual, steps, s) && Shorter(steps, n) && |steps| <= fuel + 1
    decreases fuel, 2, k
  {
    if s in GenRules(g, n, actual, k - 1, fuel) {
      steps := GenRulesSound(g, n, actual, k - 1, fuel, s);
    } else {
      steps := GenAltsSound(g, n, actual, k - 1, |g[k - 1].alts|, fuel, s);
    }
  }

  lemma {:induction false} GenAltsSound(g: Grammar, n: int, actual: string, i: nat, m: nat, fuel: nat, s: string) returns (steps: seq<Entry>)
    requires i < |g| && m <= |g[i].alts| && |actual| < n
    requires s in GenAlts(g, n, actual, i, m, fuel)
    ensures |s| == n && NoKeyChar(g, s)
    ensures Chain(g, actual, steps, s) && Shorter(steps, n) && |steps| <= fuel + 1
    decreases fuel, 1, m
  {
    if s in GenAlts(g, n, actual, i, m - 1, fuel) {
      steps := GenAltsSound(g, n, actual, i, m - 1, fuel, s);
    } else {
      var y := ReplaceFirst(actual, g[i].lhs, g[i].alts[m - 1]);
      AltIsRewrite(g, actual, i, m - 1);
      var tail := GenSound(g, n, y, fuel, s);
      ShorterExtend(g, n, actual, y, s, tail);
      steps := [Step(actual, y)] + tail;
    }
  }

  lemma {:induction false} GenAltsContains(g: Grammar, n: int, actual: string, i: nat, m: nat, j: nat, fuel: nat, s: string)
    requires i < |g| && j < m <= |g[i].alts| && Contains(actual, g[i].lhs)
    requires s in Gen(g, n, ReplaceFirst(actual, g[i].lhs, g[i].alts[j]), fuel)
    ensures s in GenAlts(g, n, actual, i, m, fuel)
    decreases m
  {
    if j < m - 1 {
      GenAltsContains(g, n, actual, i, m - 1, j, fuel, s);
    }
  }

  lemma {:induction false} GenRulesContains(g: Grammar, n: int, actual: string, k: nat, i: nat, fuel: nat, s: string)
    requires i < k <= |g|
    requires s in GenAlts(g, n, actual, i, |g[i].alts|, fuel)
    ensures s in GenRules(g, n, actual, k, fuel)
    decreases k
  {
    if i < k - 1 {
      GenRulesContains(g, n, actual, k - 1, i, fuel, s);
    }
  }

  /** The call on a form shorter than `n` adds what the call on any
      rewrite of it adds. */
  lemma RewriteGenerated(g: Grammar, n: int, actual: string, y: string, fuel: nat, s: string)
    requires IsRewrite(g, actual, y) && |actual| < n
    requires s in Gen(g, n, y, fuel)
    ensures s in Gen(g, n, actual, fuel + 1)
  {
    var i, j :| 0 <= i < |g| && 0 <= j < |g[i].alts| && Contains(actual, g[i].lhs) && y == ReplaceFirst(actual, g[i].lhs, g[i].alts[j]);
    GenAltsContains(g, n, actual, i, |g[i].alts|, j, fuel, s);
    GenRulesContains(g, n, actual, |g|, i, fuel, s);
  }

  lemma ShorterTail(steps: seq<Entry>, n: int)
    requires Shorter(steps, n) && steps != []
    ensures Shorter(steps[1..], n)
  {
    forall k | 0 <= k < |steps[1..]| ensures steps[1..][k] == steps[k + 1] {
    }
  }

  /** Every string of length `n` free of key characters that ends a chain
      of at most `fuel` rewrites from `actual` through shorter forms is
      added. */
  lemma {:induction false} GenComplete(g: Grammar, n: int, actual: string, fuel: nat, s: string, steps: seq<Entry>)
    requires |s| == n && NoKeyChar(g, s)
    requires Chain(g, actual, steps, s) && Shorter(steps, n) && |steps| <= fuel
    ensures s in Gen(g, n, actual, fuel)
    decreases |steps|
  {
    if steps == [] {
      assert Linked(actual, steps, s);
    } else {
      ChainUncons(g, actual, steps, s);
      ShorterTail(steps, n);
      var y := steps[0].after;
      GenComplete(g, n, y, fuel - 1, s, steps[1..]);
      RewriteGenerated(g, n, actual, y, fuel - 1, s);
    }
  }

  /** The generator adds exactly the strings of the length asked for, free
      of key characters, that the start symbol derives in at most `fuel`
      steps through shorter forms. */
  lemma GenExact(g: Grammar, start: string, n: int, fuel: nat, s: string)
    ensures s in Gen(g, n, start, fuel) <==> IsGenerated(g, start, n, fuel, s)
  {
    if s in Gen(g, n, start, fuel) {
      var steps := GenSound(g, n, start, fuel, s);
    }
    if IsGenerated(g, start, n, fuel, s) {
      var steps :| Chain(g, start, steps, s) && Shorter(steps, n) && |steps| <= fuel;
      GenComplete(g, n, start, fuel, s, steps);
    }
  }

  /** A generated string is accepted by the membership search run with the
      same fuel: its derivation only expands forms shorter than it. */
  lemma GeneratedIsDerivable(g: Grammar, start: string, n: int, fuel: nat, s: string)
    requires s in Gen(g, n, start, fuel)
    ensures |Derivation.Paths(g, s, start, [Start(start)], fuel)| > 0
  {
    var steps := GenSound(g, n, start, fuel, s);
    assert Derivation.Expanded(steps, s) by {
      forall k | 0 <= k < |steps| ensures steps[k].Step? && |steps[k].before| <= |s| && steps[k].before != s {
        assert |steps[k].before| < n;
      }
    }
    Derivation.PathsComplete(g, s, start, [Start(start)], fuel, steps);
  }

  lemma UnionStep(base: set<string>, a: set<string>, a': set<string>, added: set<string>, prev: set<string>, now: set<string>)
    requires prev == base + a && now == prev + added && a' == a + added
    ensures now == base + a'
  {
  }

  /** The closure state of `generarCadenas`: the grammar, the length asked
      for (`longitud`) and the shared set `generadas`. */
  class Generator {
    const grammar: Grammar
    const length: int
    var generated: set<string>

    /** `let generadas = new Set()`. */
    constructor (g: Grammar, longitud: int)
      ensures grammar == g && length == longitud && generated == {}
    {
      grammar := g;
      length := longitud;
      generated := {};
    }

    /** `generar(actual)`: adds to `generated` the strings of `Gen`. */
    method Generate(actual: string, fuel: nat)
      modifies this
      ensures generated == old(generated) + Gen(grammar, length, actual, fuel)
      decreases fuel, 0
    {
      if |actual| == length {
        var free := NoKeyCharOf(actual);
        if free {
          generated := generated + {actual};
        }
        return;
      }
      if |actual| > length {
        return;
      }
      if fuel == 0 {
        return;
      }
      var i := 0;
      while i < |grammar|
        invariant 0 <= i <= |grammar|
        invariant generated == old(generated) + GenRules(grammar, length, actual, i, fuel - 1)
      {
        ExpandRule(actual, i, fuel - 1);
        i := i + 1;
      }
    }

    /** The inner loop of `generar` over the alternatives of the `i`-th
        key. */
    method ExpandRule(actual: string, i: nat, fuel: nat)
      requires i < |grammar|
      modifies this
      ensures generated == old(generated) + GenAlts(grammar, length, actual, i, |grammar[i].alts|, fuel)
      decreases fuel, 1
    {
      var izq := grammar[i].lhs;
      var producciones := grammar[i].alts;
      var j := 0;
      while j < |producciones|
        invariant 0 <= j <= |producciones|
        invariant generated == old(generated) + GenAlts(grammar, length, actual, i, j, fuel)
      {
        ghost var prev := generated;
        ghost var added: set<string> := {};
        if Contains(actual, izq) {
          var nuevo := ReplaceFirst(actual, izq, producciones[j]);
          Generate(nuevo, fuel);
          added := Gen(grammar, length, nuevo, fuel);
        }
        UnionStep(old(generated), GenAlts(grammar, length, actual, i, j, fuel),
          GenAlts(grammar, length, actual, i, j + 1, fuel), added, prev, generated);
        j := j + 1;
      }
    }

    /** The `some` loop over the characters of `s`, looking each one up as
        a key. */
    method NoKeyCharOf(s: string) returns (free: bool)
      ensures free <==> NoKeyChar(grammar, s)
    {
      var keys := NonTerminals(grammar);
      free := true;
      var k := 0;
      while k < |s|
        invariant 0 <= k <= |s|
        invariant free <==> forall k' :: 0 <= k' < k ==> [s[k']] !in keys
      {
        if [s[k]] in keys {
          free := false;
          break;
        }
        k := k + 1;
      }
    }
  }
}
