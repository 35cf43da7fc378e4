/** The membership search `derivar` inside `validarCadena`
    (src/grammar.js:180-206, and the same code at script.js:116-142): a
    depth-first recursion over sentential forms that pushes each step on a
    shared path stack, records a copy of the stack whenever the form equals
    the target, prunes forms longer than the target, and pops on the way
    back. The source recursion has no depth bound: on a cycle such as
    `S → S` it descends until the call stack overflows and the uncaught
    exception ends the search with nothing shown. Here `fuel` bounds the
    depth, and the model returns what is found within it. */
module Derivation {
  import opened Text
  import opened Rules
  import opened Rewriting

  /** The paths `derivar(actual, stack)` records, in recording order, when
      the recursion may go `fuel` levels deeper. */
  function Paths(g: Grammar, target: string, actual: string, stack: seq<Entry>, fuel: nat): seq<seq<Entry>>
    decreases fuel, 0, 0
  {
    if actual == target then [stack]
    else if |actual| > |target| then []
    else if fuel == 0 then []
    else PathsRules(g, target, actual, stack, |g|, fuel - 1)
  }

  /** The paths recorded by the outer loop over the first `n` rules. */
  function PathsRules(g: Grammar, target: string, actual: string, stack: seq<Entry>, n: nat, fuel: nat): seq<seq<Entry>>
    requires n <= |g|
    decreases fuel, 2, n
  {
    if n == 0 then []
    else PathsRules(g, target, actual, stack, n - 1, fuel) + PathsAlts(g, target, actual, stack, n - 1, |g[n - 1].alts|, fuel)
  }

  /** The paths recorded by the inner loop over the first `m` alternatives
      of rule `i`: one recursive call per alternative while `actual`
      contains the key, with the step pushed on the stack. */
  function PathsAlts(g: Grammar, target: string, actual: string, stack: seq<Entry>, i: nat, m: nat, fuel: nat): seq<seq<Entry>>
    requires i < |g| && m <= |g[i].alts|
    decreases fuel, 1, m
  {
    if m == 0 then []
    else
      PathsAlts(g, target, actual, stack, i, m - 1, fuel) +
      if Contains(actual, g[i].lhs) then
        var y := ReplaceFirst(actual, g[i].lhs, g[i].alts[m - 1]);
        Paths(g, target, y, stack + [Step(actual, y)], fuel)
      else []
  }

  /** Every step of `steps` expands a form the search does expand: one that
      is no longer than the target and differs from it. */
  ghost predicate Expanded(steps: seq<Entry>, target: string) {
    forall k :: 0 <= k < |steps| ==> steps[k].Step? && |steps[k].before| <= |target| && steps[k].before != target
  }

  /** What a recorded path is: the start entry followed by a chain of
      first-occurrence rewrites from the start symbol to the target, of at
      most `fuel` steps, none of which expands a pruned form. */
  ghost predicate IsRecorded(g: Grammar, start: string, target: string, fuel: nat, p: seq<Entry>) {
    && |p| >= 1
    && p[0] == Start(start)
    && Chain(g, start, p[1..], target)
    && Expanded(p[1..], target)
    && |p| - 1 <= fuel
  }

  /** A chain found one level down, behind the caller's step, is a chain
      of the caller one step longer. */
  lemma SoundExtend(g: Grammar, target: string, actual: string, y: string, rest: seq<Entry>)
    requires IsRewrite(g, actual, y) && |actual| <= |target| && actual != target
    requires Chain(g, y, rest, target) && Expanded(rest, target)
    ensures Chain(g, actual, [Step(actual, y)] + rest, target)
    ensures Expanded([Step(actual, y)] + rest, target)
  {
    ChainCons(g, actual, y, rest, target);
    forall k | 0 < k < |rest| + 1 ensures ([Step(actual, y)] + rest)[k] == rest[k - 1] {
    }
  }

  lemma PushAssoc(stack: seq<Entry>, e: Entry, tail: seq<Entry>)
    ensures stack + [e] + tail == stack + ([e] + tail)
  {
  }

  /** Every recorded path is the caller's stack followed by a chain of at
      most `fuel` rewrites from `actual` to the target, none expanding a
      pruned form. */
  lemma {:induction false} PathsSound(g: Grammar, target: string, actual: string, stack: seq<Entry>, fuel: nat, p: seq<Entry>) returns (rest: seq<Entry>)
    requires p in Paths(g, target, actual, stack, fuel)
    ensures p == stack + rest && |rest| <= fuel
    ensures Chain(g, actual, rest, target) && Expanded(rest, target)
    decreases fuel, 0, 0
  {
    if actual == target {
      rest := [];
      assert p == stack + rest;
    } else {
      rest := PathsRulesSound(g, target, actual, stack, |g|, fuel - 1, p);
    }
  }

  lemma {:induction false} PathsRulesSound(g: Grammar, target: string, actual: string, stack: seq<Entry>, n: nat, fuel: nat, p: seq<Entry>) returns (rest: seq<Entry>)
    requires n <= |g| && |actual| <= |target| && actual != target
    requires p in PathsRules(g, target, actual, stack, n, fuel)
    ensures p == stack + rest && |rest| <= fuel + 1
    ensures Chain(g, actual, rest, target) && Expanded(rest, target)
    decreases fuel, 2, n
  {
    if p in PathsRules(g, target, actual, stack, n - 1, fuel) {
      rest := PathsRulesSound(g, target, actual, stack, n - 1, fuel, p);
    } else {
      rest := PathsAltsSound(g, target, actual, stack, n - 1, |g[n - 1].alts|, fuel, p);
    }
  }

  lemma {:induction false} PathsAltsSound(g: Grammar, target: string, actual: string, stack: seq<Entry>, i: nat, m: nat, fuel: nat, p: seq<Entry>) returns (rest: seq<Entry>)
    requires i < |g| && m <= |g[i].alts| && |actual| <= |target| && actual != target
    requires p in PathsAlts(g, target, actual, stack, i, m, fuel)
    ensures p == stack + rest && |rest| <= fuel + 1
    ensures Chain(g, actual, rest, target) && Expanded(rest, target)
    decreases fuel, 1, m
  {
    if p in PathsAlts(g, target, actual, stack, i, m - 1, fuel) {
      rest := PathsAltsSound(g, target, actual, stack, i, m - 1, fuel, p);
    } else {
      var y := ReplaceFirst(actual, g[i].lhs, g[i].alts[m - 1]);
      AltIsRewrite(g, actual, i, m - 1);
      var tail := PathsSound(g, target, y, stack + [Step(actual, y)], fuel, p);
      SoundExtend(g, target, actual, y, tail);
      rest := [Step(actual, y)] + tail;
      PushAssoc(stack, Step(actual, y), tail);
    }
  }

  lemma {:induction false} PathsAltsContains(g: Grammar, target: string, actual: string, stack: seq<Entry>, i: nat, m: nat, j: nat, fuel: nat, p: seq<Entry>)
    requires i < |g| && j < m <= |g[i].alts| && Contains(actual, g[i].lhs)
    requires var y := ReplaceFirst(actual, g[i].lhs, g[i].alts[j]);
      p in Paths(g, target, y, stack + [Step(actual, y)], fuel)
    ensures p in PathsAlts(g, target, actual, stack, i, m, fuel)
    decreases m
  {
    if j < m - 1 {
      PathsAltsContains(g, target, actual, stack, i, m - 1, j, fuel, p);
    }
  }

  lemma {:induction false} PathsRulesContains(g: Grammar, target: string, actual: string, stack: seq<Entry>, n: nat, i: nat, fuel: nat, p: seq<Entry>)
    requires i < n <= |g|
    requires p in PathsAlts(g, target, actual, stack, i, |g[i].alts|, fuel)
    ensures p in PathsRules(g, target, actual, stack, n, fuel)
    decreases n
  {
    if i < n - 1 {
      PathsRulesContains(g, target, actual, stack, n - 1, i, fuel, p);
    }
  }

  /** The call on `actual` records what the call on any rewrite `y` of it
      records with the step pushed, when `actual` is expanded at all. */
  lemma RewriteRecorded(g: Grammar, target: string, actual: string, y: string, stack: seq<Entry>, fuel: nat, p: seq<Entry>)
    requires IsRewrite(g, actual, y) && |actual| <= |target| && actual != target
    requires p in Paths(g, target, y, stack + [Step(actual, y)], fuel)
    ensures p in Paths(g, target, actual, stack, fuel + 1)
  {
    var i, j :| 0 <= i < |g| && 0 <= j < |g[i].alts| && Contains(actual, g[i].lhs) && y == ReplaceFirst(actual, g[i].lhs, g[i].alts[j]);
    PathsAltsContains(g, target, actual, stack, i, |g[i].alts|, j, fuel, p);
    PathsRulesContains(g, target, actual, stack, |g|, i, fuel, p);
  }

  /** The steps after the first of an expanded list are expanded. */
  lemma ExpandedTail(steps: seq<Entry>, target: string)
    requires Expanded(steps, target) && steps != []
    ensures Expanded(steps[1..], target)
  {
    forall k | 0 <= k < |steps[1..]| ensures steps[1..][k] == steps[k + 1] {
    }
  }

  /** Every chain of at most `fuel` rewrites from `actual` to the target
      that expands no pruned form is recorded, behind the caller's stack. */
  lemma {:induction false} PathsComplete(g: Grammar, target: string, actual: string, stack: seq<Entry>, fuel: nat, steps: seq<Entry>)
    requires Chain(g, actual, steps, target)
    requires Expanded(steps, target)
    requires |steps| <= fuel
    ensures stack + steps in Paths(g, target, actual, stack, fuel)
    decreases |steps|
  {
    if steps == [] {
      assert Linked(actual, steps, target);
      assert stack + steps == stack;
    } else {
      ChainUncons(g, actual, steps, target);
      ExpandedTail(steps, target);
      var y := steps[0].after;
      PathsComplete(g, target, y, stack + [steps[0]], fuel - 1, steps[1..]);
      assert (stack + [steps[0]]) + steps[1..] == stack + steps;
      RewriteRecorded(g, target, actual, y, stack, fuel - 1, stack + steps);
    }
  }

  /** The search records exactly the derivations of the target from the
      start symbol that take at most `fuel` steps and never expand a form
      longer than, or equal to, the target. */
  lemma PathsExact(g: Grammar, start: string, target: string, fuel: nat, p: seq<Entry>)
    ensures p in Paths(g, target, start, [Start(start)], fuel) <==> IsRecorded(g, start, target, fuel, p)
  {
    if p in Paths(g, target, start, [Start(start)], fuel) {
      var rest := PathsSound(g, target, start, [Start(start)], fuel, p);
      assert p[1..] == rest;
    }
    if IsRecorded(g, start, target, fuel, p) {
      PathsComplete(g, target, start, [Start(start)], fuel, p[1..]);
      assert [Start(start)] + p[1..] == p;
    }
  }

  lemma AppendAssoc(a: seq<seq<Entry>>, b: seq<seq<Entry>>, c: seq<seq<Entry>>)
    ensures a + b + c == a + (b + c)
  {
  }

  /** The closure state of `validarCadena`: the grammar and the target it
      reads, the path stack `pasos` and the result list `derivaciones`. */
  class Deriver {
    const grammar: Grammar
    const target: string
    var steps: seq<Entry>
    var found: seq<seq<Entry>>

    /** `let derivaciones = []`, with the stack seeded as `[simboloInicial]`. */
    constructor (g: Grammar, cadena: string, start: string)
      ensures grammar == g && target == cadena
      ensures steps == [Start(start)] && found == []
    {
      grammar := g;
      target := cadena;
      steps := [Start(start)];
      found := [];
    }

    /** `derivar(actual, pasos)`: appends to `found` the paths of
        `Paths` and leaves the stack as it found it. */
    method Derive(actual: string, fuel: nat)
      modifies this
      ensures steps == old(steps)
      ensures found == old(found) + Paths(grammar, target, actual, old(steps), fuel)
      decreases fuel, 0
    {
      if actual == target {
        found := found + [steps];
        return;
      }
      if |actual| > |target| {
        return;
      }
      if fuel == 0 {
        return;
      }
      var i := 0;
      while i < |grammar|
        invariant 0 <= i <= |grammar|
        invariant steps == old(steps)
        invariant found == old(found) + PathsRules(grammar, target, actual, old(steps), i, fuel - 1)
      {
        ExpandRule(actual, i, fuel - 1);
        AppendAssoc(old(found), PathsRules(grammar, target, actual, old(steps), i, fuel - 1), PathsAlts(grammar, target, actual, old(steps), i, |grammar[i].alts|, fuel - 1));
        i := i + 1;
      }
    }

    /** The inner loop of `derivar` over the alternatives `producciones`
        of the `i`-th key `izq`: while `actual` contains the key, each
        rewrite is pushed, explored with `fuel` levels left, and popped. */
    method ExpandRule(actual: string, i: nat, fuel: nat)
      requires i < |grammar|
      modifies this
      ensures steps == old(steps)
      ensures found == old(found) + PathsAlts(grammar, target, actual, old(steps), i, |grammar[i].alts|, fuel)
      decreases fuel, 1
    {
      var izq := grammar[i].lhs;
      var producciones := grammar[i].alts;
      var j := 0;
      while j < |producciones|
        invariant 0 <= j <= |producciones|
        invariant steps == old(steps)
        invariant found == old(found) + PathsAlts(grammar, target, actual, old(steps), i, j, fuel)
      {
        var prod := producciones[j];
        ghost var recorded: seq<seq<Entry>> := [];
        if Contains(actual, izq) {
          var nuevo := ReplaceFirst(actual, izq, prod);
          steps := steps + [Step(actual, nuevo)];
          Derive(nuevo, fuel);
          steps := steps[..|steps| - 1];
          recorded := Paths(grammar, target, nuevo, old(steps) + [Step(actual, nuevo)], fuel);
        }
        AppendAssoc(old(found), PathsAlts(grammar, target, actual, old(steps), i, j, fuel), recorded);
        j := j + 1;
      }
    }
  }
}
