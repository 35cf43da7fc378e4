/** What `procesarGramatica` builds from the rows of the rule form
    (src/grammar.js:10-31, script.js:58-79): blank rows are skipped, every
    right-hand side is split on `|`, and the pieces are appended, in row
    order, to the list of its left-hand side. */
module Ingestion {
  import opened Text
  import opened Rules

  /** One row of the form, as typed: left-hand text and right-hand text. */
  datatype Row = Row(left: string, right: string)

  /** A row contributes when both trimmed sides are non-empty (`izq && der`). */
  predicate Usable(r: Row) {
    Trim(r.left) != [] && Trim(r.right) != []
  }

  /** The index of the rule whose key is `key`, if there is one. */
  function KeyIndex(g: Grammar, key: string): (r: Option<nat>)
    ensures r.Some? ==> r.value < |g| && g[r.value].lhs == key
    ensures r.None? <==> key !in NonTerminals(g)
  {
    if g == [] then None
    else if g[0].lhs == key then Some(0)
    else match KeyIndex(g[1..], key)
      case None =>
        assert NonTerminals(g) == {g[0].lhs} + NonTerminals(g[1..]) by {
          forall x ensures x in NonTerminals(g) <==> x in {g[0].lhs} + NonTerminals(g[1..]) {
            if x in NonTerminals(g) {
              var i :| 0 <= i < |g| && g[i].lhs == x;
              if i > 0 { assert g[1..][i - 1].lhs == x; }
            }
            if x in NonTerminals(g[1..]) {
              var i :| 0 <= i < |g[1..]| && g[1..][i].lhs == x;
              assert g[i + 1].lhs == x;
            }
          }
        }
        None
      case Some(k) => Some(k + 1)
  }

  /** The first key equal to `key` is at `k`. */
  lemma KeyIndexFirst(g: Grammar, key: string, k: nat)
    requires k < |g| && g[k].lhs == key
    requires forall k' :: 0 <= k' < k ==> g[k'].lhs != key
    ensures KeyIndex(g, key) == Some(k)
  {
    if k > 0 {
      KeyIndexFirst(g[1..], key, k - 1);
    }
  }

  /** `if (!gramatica[izq]) gramatica[izq] = []; gramatica[izq].push(...pieces)`. */
  function Added(g: Grammar, lhs: string, pieces: seq<string>): Grammar
  {
    match KeyIndex(g, lhs)
    case Some(k) => g[k := Rule(lhs, g[k].alts + pieces)]
    case None => g + [Rule(lhs, pieces)]
  }

  /** The table after one row. */
  function AddRow(g: Grammar, r: Row): Grammar
  {
    if Usable(r) then Added(g, Trim(r.left), Split(Trim(r.right), '|')) else g
  }

  /** The table after all rows, starting from the emptied table. */
  function Ingested(rows: seq<Row>): Grammar
  {
    if rows == [] then [] else AddRow(Ingested(rows[..|rows| - 1]), rows[|rows| - 1])
  }

  /** The table after the first `index + 1` rows is the table after the
      first `index` rows with row `index` added. */
  lemma IngestedPrefix(rows: seq<Row>, index: nat)
    requires index < |rows|
    ensures Ingested(rows[..index + 1]) == AddRow(Ingested(rows[..index]), rows[index])
  {
    assert rows[..index + 1][..index] == rows[..index];
  }

  /** Reference definition of one key's alternatives: the pieces of every
      usable row with that left-hand side, concatenated in row order. */
  function AltsFor(rows: seq<Row>, key: string): seq<string>
  {
    if rows == [] then []
    else
      var r := rows[|rows| - 1];
      AltsFor(rows[..|rows| - 1], key) + (if Usable(r) && Trim(r.left) == key then Split(Trim(r.right), '|') else [])
  }

  /** Reference definition of the key order: each left-hand side of a usable
      row, the first time it appears. */
  function FirstAppearances(rows: seq<Row>): seq<string>
  {
    if rows == [] then []
    else
      var earlier := FirstAppearances(rows[..|rows| - 1]);
      var r := rows[|rows| - 1];
      if Usable(r) && Trim(r.left) !in earlier then earlier + [Trim(r.left)] else earlier
  }

  /** The shape every table built from rows has: distinct, non-blank keys,
      each with at least one alternative, and no alternative holding `|`. */
  predicate WellFormed(g: Grammar) {
    && DistinctKeys(g)
    && (forall i :: 0 <= i < |g| ==> g[i].lhs != [] && g[i].alts != [])
    && (forall i, j :: 0 <= i < |g| && 0 <= j < |g[i].alts| ==> '|' !in g[i].alts[j])
  }

  /** Appending to the list of an existing key keeps the table well formed. */
  lemma UpdatedWellFormed(g: Grammar, k: nat, pieces: seq<string>)
    requires WellFormed(g) && k < |g|
    requires forall j :: 0 <= j < |pieces| ==> '|' !in pieces[j]
    ensures WellFormed(g[k := Rule(g[k].lhs, g[k].alts + pieces)])
  {
    var g' := g[k := Rule(g[k].lhs, g[k].alts + pieces)];
    forall i, j | 0 <= i < |g'| && 0 <= j < |g'[i].alts| ensures '|' !in g'[i].alts[j] {
      if i == k && j >= |g[k].alts| {
        assert g'[i].alts[j] == pieces[j - |g[k].alts|];
      } else {
        assert g'[i].alts[j] == g[i].alts[j];
      }
    }
  }

  /** Appending a rule for a new key keeps the table well formed. */
  lemma AppendedWellFormed(g: Grammar, lhs: string, pieces: seq<string>)
    requires WellFormed(g) && lhs !in NonTerminals(g)
    requires lhs != [] && pieces != []
    requires forall j :: 0 <= j < |pieces| ==> '|' !in pieces[j]
    ensures WellFormed(g + [Rule(lhs, pieces)])
  {
    forall i | 0 <= i < |g| ensures g[i].lhs != lhs {
      assert g[i].lhs in NonTerminals(g);
    }
  }

  /** Appending pieces keeps the table well formed. */
  lemma AddedWellFormed(g: Grammar, lhs: string, pieces: seq<string>)
    requires WellFormed(g)
    requires lhs != [] && pieces != []
    requires forall j :: 0 <= j < |pieces| ==> '|' !in pieces[j]
    ensures WellFormed(Added(g, lhs, pieces))
  {
    match KeyIndex(g, lhs)
    case Some(k) => UpdatedWellFormed(g, k, pieces);
    case None => AppendedWellFormed(g, lhs, pieces);
  }

  /** Appending to the list of an existing key. */
  lemma UpdatedLookup(g: Grammar, k: nat, pieces: seq<string>, key: string)
    requires DistinctKeys(g) && k < |g|
    ensures Lookup(g[k := Rule(g[k].lhs, g[k].alts + pieces)], key) ==
      Lookup(g, key) + (if key == g[k].lhs then pieces else [])
  {
    var g' := g[k := Rule(g[k].lhs, g[k].alts + pieces)];
    assert DistinctKeys(g') by {
      forall i, j | 0 <= i < j < |g'| ensures g'[i].lhs != g'[j].lhs {
        assert g'[i].lhs == g[i].lhs && g'[j].lhs == g[j].lhs;
      }
    }
    if key in NonTerminals(g) {
      var i :| 0 <= i < |g| && g[i].lhs == key;
      LookupAt(g, i);
      LookupAt(g', i);
    } else {
      LookupMissing(g, key);
      forall i | 0 <= i < |g'| ensures g'[i].lhs != key {
        assert g[i].lhs in NonTerminals(g);
      }
      LookupMissing(g', key);
    }
  }

  /** Appending a rule for a new key. */
  lemma AppendedLookup(g: Grammar, lhs: string, pieces: seq<string>, key: string)
    requires DistinctKeys(g) && lhs !in NonTerminals(g)
    ensures Lookup(g + [Rule(lhs, pieces)], key) == Lookup(g, key) + (if key == lhs then pieces else [])
  {
    var g' := g + [Rule(lhs, pieces)];
    assert DistinctKeys(g') by {
      forall i | 0 <= i < |g| ensures g[i].lhs != lhs {
        assert g[i].lhs in NonTerminals(g);
      }
    }
    if key in NonTerminals(g) {
      var i :| 0 <= i < |g| && g[i].lhs == key;
      LookupAt(g, i);
      LookupAt(g', i);
    } else if key == lhs {
      LookupMissing(g, key);
      LookupAt(g', |g|);
    } else {
      LookupMissing(g, key);
      forall i | 0 <= i < |g'| ensures g'[i].lhs != key {
        if i < |g| { assert g[i].lhs in NonTerminals(g); }
      }
      LookupMissing(g', key);
    }
  }

  /** Appending pieces appends them to exactly one key's list. */
  lemma AddedLookup(g: Grammar, lhs: string, pieces: seq<string>, key: string)
    requires DistinctKeys(g)
    ensures Lookup(Added(g, lhs, pieces), key) == Lookup(g, key) + (if key == lhs then pieces else [])
  {
    match KeyIndex(g, lhs)
    case Some(k) => UpdatedLookup(g, k, pieces, key);
    case None => AppendedLookup(g, lhs, pieces, key);
  }

  /** Appending pieces adds the key at the end when it is new and leaves
      the key order alone otherwise. */
  lemma AddedKeys(g: Grammar, lhs: string, pieces: seq<string>)
    ensures Lhss(Added(g, lhs, pieces)) == if lhs in Lhss(g) then Lhss(g) else Lhss(g) + [lhs]
  {
    var g' := Added(g, lhs, pieces);
    match KeyIndex(g, lhs)
    case Some(k) =>
      assert Lhss(g')[k] == lhs;
      assert Lhss(g') == Lhss(g);
    case None =>
      forall i | 0 <= i < |g| ensures Lhss(g)[i] != lhs {
        assert g[i].lhs in NonTerminals(g);
      }
      assert Lhss(g') == Lhss(g) + [lhs];
  }

  /** The table built from the rows is well formed; each key holds exactly
      the pieces of its rows in row order; the keys are the left-hand sides
      of the usable rows in order of first appearance. */
  lemma {:induction false} IngestedSpec(rows: seq<Row>, key: string)
    ensures WellFormed(Ingested(rows))
    ensures Lookup(Ingested(rows), key) == AltsFor(rows, key)
    ensures Lhss(Ingested(rows)) == FirstAppearances(rows)
  {
    if rows != [] {
      var init := rows[..|rows| - 1];
      var r := rows[|rows| - 1];
      IngestedSpec(init, key);
      if Usable(r) {
        var lhs := Trim(r.left);
        var pieces := Split(Trim(r.right), '|');
        TrimBlank(r.left);
        AddedWellFormed(Ingested(init), lhs, pieces);
        AddedLookup(Ingested(init), lhs, pieces, key);
        AddedKeys(Ingested(init), lhs, pieces);
      }
    }
  }

  /** A row adds exactly one alternative more than it has `|` characters,
      and a blank row adds none. */
  lemma AltsForGrowth(rows: seq<Row>, r: Row, key: string)
    ensures |AltsFor(rows + [r], key)| == |AltsFor(rows, key)| + (if Usable(r) && Trim(r.left) == key then Count(Trim(r.right), '|') + 1 else 0)
  {
    assert (rows + [r])[..|rows|] == rows;
  }

  /** The left-hand side of a usable first row is a key of the table, so a
      start symbol taken from row 0 always names a rule. */
  lemma {:induction false} FirstRowIsKey(rows: seq<Row>)
    requires rows != [] && Usable(rows[0])
    ensures Trim(rows[0].left) in NonTerminals(Ingested(rows))
  {
    var n := |rows|;
    if n == 1 {
      assert Ingested(rows) == AddRow([], rows[0]);
      assert Ingested(rows)[0].lhs == Trim(rows[0].left);
    } else {
      var init := rows[..n - 1];
      assert init[0] == rows[0];
      FirstRowIsKey(init);
      var g := Ingested(init);
      var k := KeyIndex(g, Trim(rows[0].left)).value;
      var g' := Ingested(rows);
      if Usable(rows[n - 1]) {
        match KeyIndex(g, Trim(rows[n - 1].left))
        case Some(m) => assert g'[k].lhs == Trim(rows[0].left);
        case None => assert g'[k].lhs == Trim(rows[0].left);
      } else {
        assert g'[k].lhs == Trim(rows[0].left);
      }
    }
  }
}
