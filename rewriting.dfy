/** One rewriting step as both searches perform it (src/grammar.js:193-201,
    232-237; script.js:129-137, 168-173): when the current form contains a
    key, the form with the key's FIRST occurrence replaced by one of its
    alternatives; and chains of such steps. */
module Rewriting {
  import opened Text
  import opened Rules

  /** One entry of the path stack `pasos`: the start symbol it is seeded
      with, or a step from `before` to `after` (the source stores the text
      of the two forms joined by an arrow). */
  datatype Entry = Start(form: string) | Step(before: string, after: string)

  /** `y` is `x` with the first occurrence of some key replaced by one of
      that key's alternatives. */
  ghost predicate IsRewrite(g: Grammar, x: string, y: string) {
    exists i, j :: 0 <= i < |g| && 0 <= j < |g[i].alts| && Contains(x, g[i].lhs) && y == ReplaceFirst(x, g[i].lhs, g[i].alts[j])
  }

  /** Replacing the first occurrence of a key the form contains by one of
      the key's alternatives is a rewrite. */
  lemma AltIsRewrite(g: Grammar, actual: string, i: nat, j: nat)
    requires i < |g| && j < |g[i].alts| && Contains(actual, g[i].lhs)
    ensures IsRewrite(g, actual, ReplaceFirst(actual, g[i].lhs, g[i].alts[j]))
  {
  }

  /** `steps` lead from `from` to `to`: each entry is a step whose
      `before` is the previous form. */
  ghost predicate Linked(from: string, steps: seq<Entry>, to: string)
    decreases |steps|
  {
    if steps == [] then from == to
    else steps[0].Step? && steps[0].before == from && Linked(steps[0].after, steps[1..], to)
  }

  /** `steps` is a chain of rewrites leading from `from` to `to`: linked
      steps whose `after` is a first-occurrence rewrite of their `before`. */
  ghost predicate Chain(g: Grammar, from: string, steps: seq<Entry>, to: string) {
    && Linked(from, steps, to)
    && forall k :: 0 <= k < |steps| ==> steps[k].Step? && IsRewrite(g, steps[k].before, steps[k].after)
  }

  /** One more rewrite in front of a chain. */
  lemma ChainCons(g: Grammar, x: string, y: string, rest: seq<Entry>, to: string)
    requires IsRewrite(g, x, y) && Chain(g, y, rest, to)
    ensures Chain(g, x, [Step(x, y)] + rest, to)
  {
    assert ([Step(x, y)] + rest)[1..] == rest;
  }

  /** A non-empty chain starts with a rewrite of its first form. */
  lemma ChainUncons(g: Grammar, x: string, steps: seq<Entry>, to: string)
    requires Chain(g, x, steps, to) && steps != []
    ensures steps[0] == Step(x, steps[0].after) && IsRewrite(g, x, steps[0].after)
    ensures Chain(g, steps[0].after, steps[1..], to)
  {
    assert steps[0].Step?;
    forall k | 0 <= k < |steps[1..]| ensures steps[1..][k].Step? && IsRewrite(g, steps[1..][k].before, steps[1..][k].after) {
      assert steps[1..][k] == steps[k + 1];
    }
  }
}
