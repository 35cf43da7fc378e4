/** The module-level state of src/grammar.js and script.js — the rule table
    `gramatica` and the start symbol `simboloInicial` — and the operations
    the page buttons run on it, with the form rows, the target string and
    the requested length passed in instead of read from the page. */
module Workspace {
  import opened Text
  import opened Rules
  import opened Ingestion
  import opened Classifier
  import opened LegacyClassifier
  import opened Rewriting
  import opened Derivation
  import opened Generation

  /** What processing shows: nothing (the "only Type 2 or Type 3" alert)
      when the grammar is classified "Tipo 1", otherwise the type, the
      terminals, the non-terminals in key order and the start symbol. */
  datatype Outcome =
    | Rejected
    | Report(kind: ChomskyType, terminals: set<char>, nonTerminals: seq<string>, start: string)

  class Workspace {
    var rules: Grammar
    var start: string

    /** `let gramatica = {}` and `let simboloInicial = ''`. */
    constructor ()
      ensures rules == [] && start == []
    {
      rules := [];
      start := [];
    }

    /** `if (!gramatica[izq]) gramatica[izq] = []; gramatica[izq].push(...pieces)`:
        the property lookup is a search of the keys in order. */
    method PushAlternatives(izq: string, pieces: seq<string>)
      modifies this
      ensures rules == Added(old(rules), izq, pieces)
      ensures start == old(start)
    {
      var k := 0;
      while k < |rules| && rules[k].lhs != izq
        invariant 0 <= k <= |rules|
        invariant forall k' :: 0 <= k' < k ==> rules[k'].lhs != izq
      {
        k := k + 1;
      }
      if k < |rules| {
        KeyIndexFirst(rules, izq, k);
        rules := rules[k := Rule(izq, rules[k].alts + pieces)];
      } else {
        assert izq !in NonTerminals(rules);
        rules := rules + [Rule(izq, pieces)];
      }
    }

    /** The table-building part of `procesarGramatica` (src/grammar.js:10-31,
        script.js:58-79): the table is emptied, every usable row appends
        its pieces, and a usable row 0 sets the start symbol; when row 0 is
        blank the previous start symbol stays. */
    method Ingest(rows: seq<Row>)
      modifies this
      ensures rules == Ingested(rows)
      ensures start == if |rows| > 0 && Usable(rows[0]) then Trim(rows[0].left) else old(start)
    {
      rules := [];
      var index := 0;
      while index < |rows|
        invariant 0 <= index <= |rows|
        invariant rules == Ingested(rows[..index])
        invariant start == if index > 0 && Usable(rows[0]) then Trim(rows[0].left) else old(start)
      {
        var izq := Trim(rows[index].left);
        var der := Trim(rows[index].right);
        IngestedPrefix(rows, index);
        if izq != [] && der != [] {
          PushAlternatives(izq, Split(der, '|'));
          if index == 0 {
            start := izq;
          }
        }
        index := index + 1;
      }
      assert rows[..index] == rows;
    }

    /** `procesarGramatica` of src/grammar.js:8-59: build the table, collect
        the terminals, classify; "Tipo 1" stops with the alert (the table
        and start symbol stay as built), any other type is reported. The
        source calls `determinarTipo` a second time for the report; on the
        same state it returns the same type. */
    method Process(rows: seq<Row>) returns (outcome: Outcome)
      modifies this
      ensures rules == Ingested(rows)
      ensures start == if |rows| > 0 && Usable(rows[0]) then Trim(rows[0].left) else old(start)
      ensures outcome.Rejected? <==> Classification(rules, start) == Type1
      ensures outcome.Report? ==>
        && outcome.kind == Classification(rules, start)
        && outcome.nonTerminals == Lhss(rules)
        && outcome.start == start
        && forall c :: c in outcome.terminals <==> InSomeAlt(rules, c) && [c] !in NonTerminals(rules)
    {
      Ingest(rows);
      var terminals := CollectTerminals(rules);
      var tipo := DetermineType(rules, start);
      if tipo == Type1 {
        return Rejected;
      }
      outcome := Report(tipo, terminals, Lhss(rules), start);
    }

    /** `procesarGramatica` of script.js:56-99: the same table and
        terminals, classified by the older test, and always reported. */
    method ProcessLegacy(rows: seq<Row>) returns (outcome: Outcome)
      modifies this
      ensures rules == Ingested(rows)
      ensures start == if |rows| > 0 && Usable(rows[0]) then Trim(rows[0].left) else old(start)
      ensures outcome.Report?
      ensures outcome.kind == LegacyType(rules) && (outcome.kind == Type2 || outcome.kind == Type3)
      ensures outcome.nonTerminals == Lhss(rules) && outcome.start == start
      ensures forall c :: c in outcome.terminals <==> InSomeAlt(rules, c) && [c] !in NonTerminals(rules)
    {
      Ingest(rows);
      var terminals := CollectTerminals(rules);
      var tipo := LegacyDetermineType(rules);
      outcome := Report(tipo, terminals, Lhss(rules), start);
    }

    /** `validarCadena` (src/grammar.js:180-213, script.js:116-149): the
        recorded derivations of `cadena`, each the start entry followed by
        its steps; they are exactly the bounded derivations the search can
        see. */
    method ValidateString(cadena: string, fuel: nat) returns (derivations: seq<seq<Entry>>)
      ensures derivations == Paths(rules, cadena, start, [Start(start)], fuel)
      ensures forall p :: p in derivations <==> IsRecorded(rules, start, cadena, fuel, p)
    {
      var deriver := new Deriver(rules, cadena, start);
      deriver.Derive(start, fuel);
      derivations := deriver.found;
      forall p ensures p in derivations <==> IsRecorded(rules, start, cadena, fuel, p) {
        PathsExact(rules, start, cadena, fuel, p);
      }
    }

    /** `generarCadenas` (src/grammar.js:216-249, script.js:152-185) with
        the length already parsed: the generated strings, exactly those of
        that length, free of key characters, that the start symbol derives
        within the bound through shorter forms. */
    method GenerateStrings(longitud: int, fuel: nat) returns (generated: set<string>)
      ensures generated == Gen(rules, longitud, start, fuel)
      ensures forall s :: s in generated <==> IsGenerated(rules, start, longitud, fuel, s)
      ensures forall s :: s in generated ==> |s| == longitud && NoKeyChar(rules, s)
    {
      var generator := new Generator(rules, longitud);
      generator.Generate(start, fuel);
      generated := generator.generated;
      forall s ensures s in generated <==> IsGenerated(rules, start, longitud, fuel, s) {
        GenExact(rules, start, longitud, fuel, s);
      }
    }
  }
}
