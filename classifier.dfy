/** `determinarTipo` of src/grammar.js:75-176: three cascading tests on the
    rule table (non-contracting, single-symbol left-hand sides, right- or
    left-linear alternatives) yielding "Tipo 0" to "Tipo 3". */
module Classifier {
  import opened Rules

  /** The labels "Tipo 0", "Tipo 1", "Tipo 2" and "Tipo 3". */
  datatype ChomskyType = Type0 | Type1 | Type2 | Type3

  /** The Greek letter epsilon, U+03B5. */
  const Epsilon: char := '\U{03B5}'

  /** `der === 'ε' || der === ''`: the alternatives the classifier reads as
      the empty production. */
  predicate IsEmptyAlt(der: string) {
    der == [] || der == [Epsilon]
  }

  /** The Type-1 test for one alternative: the empty production only on
      the start symbol, otherwise no shorter than its left-hand side. */
  predicate NonContractingAlt(lhs: string, der: string, start: string) {
    if IsEmptyAlt(der) then lhs == start else |der| >= |lhs|
  }

  predicate NonContracting(g: Grammar, start: string) {
    forall i, j :: 0 <= i < |g| && 0 <= j < |g[i].alts| ==> NonContractingAlt(g[i].lhs, g[i].alts[j], start)
  }

  /** The Type-2 test: every key is a single character. */
  predicate SingleSymbolLhs(g: Grammar) {
    forall i :: 0 <= i < |g| ==> |g[i].lhs| == 1
  }

  predicate IsLower(c: char) { 'a' <= c <= 'z' }
  predicate IsUpper(c: char) { 'A' <= c <= 'Z' }

  predicate AllLower(s: string) {
    forall k :: 0 <= k < |s| ==> IsLower(s[k])
  }

  /** `/^[a-z]+([A-Z])?$/.test(s)`. */
  predicate RightFormat(s: string) {
    || (|s| >= 1 && AllLower(s))
    || (|s| >= 2 && AllLower(s[..|s| - 1]) && IsUpper(s[|s| - 1]))
  }

  /** `/^([A-Z])?[a-z]+$/.test(s)`. */
  predicate LeftFormat(s: string) {
    || (|s| >= 1 && AllLower(s))
    || (|s| >= 2 && IsUpper(s[0]) && AllLower(s[1..]))
  }

  /** The right-linear test for one alternative. */
  predicate RightAlt(lhs: string, der: string, start: string) {
    if IsEmptyAlt(der) then lhs == start else RightFormat(der)
  }

  /** The left-linear test for one alternative. */
  predicate LeftAlt(lhs: string, der: string, start: string) {
    if IsEmptyAlt(der) then lhs == start else LeftFormat(der)
  }

  predicate RightLinear(g: Grammar, start: string) {
    forall i, j :: 0 <= i < |g| && 0 <= j < |g[i].alts| ==> RightAlt(g[i].lhs, g[i].alts[j], start)
  }

  predicate LeftLinear(g: Grammar, start: string) {
    forall i, j :: 0 <= i < |g| && 0 <= j < |g[i].alts| ==> LeftAlt(g[i].lhs, g[i].alts[j], start)
  }

  /** The classification the cascade computes, as a reference definition. */
  function Classification(g: Grammar, start: string): ChomskyType
  {
    if !NonContracting(g, start) then Type0
    else if !SingleSymbolLhs(g) then Type1
    else if RightLinear(g, start) || LeftLinear(g, start) then Type3
    else Type2
  }

  /** The nested loops of src/grammar.js:77-175 with their flags, `break`
      and `continue`. (The terminal set computed at lines 80-92 is never
      used and is not modelled.) */
  method DetermineType(g: Grammar, start: string) returns (t: ChomskyType)
    ensures t == Classification(g, start)
  {
    var tipo := Type0;

    // Type 1: non-contracting, empty production only on the start symbol.
    var esTipo1 := true;
    var i := 0;
    while i < |g|
      invariant 0 <= i <= |g|
      invariant esTipo1
      invariant forall i', j :: 0 <= i' < i && 0 <= j < |g[i'].alts| ==> NonContractingAlt(g[i'].lhs, g[i'].alts[j], start)
    {
      var izq := g[i].lhs;
      var j := 0;
      while j < |g[i].alts|
        invariant 0 <= j <= |g[i].alts|
        invariant esTipo1
        invariant forall j' :: 0 <= j' < j ==> NonContractingAlt(izq, g[i].alts[j'], start)
      {
        var der := g[i].alts[j];
        if IsEmptyAlt(der) {
          if izq != start {
            esTipo1 := false;
            break;
          }
          j := j + 1;
          continue;
        }
        if |der| < |izq| {
          esTipo1 := false;
          break;
        }
        j := j + 1;
      }
      if !esTipo1 {
        assert !NonContractingAlt(g[i].lhs, g[i].alts[j], start);
        break;
      }
      i := i + 1;
    }
    if !esTipo1 {
      return tipo;
    }
    tipo := Type1;

    // Type 2: every left-hand side is a single character.
    var esTipo2 := true;
    i := 0;
    while i < |g|
      invariant 0 <= i <= |g|
      invariant esTipo2
      invariant forall i' :: 0 <= i' < i ==> |g[i'].lhs| == 1
    {
      if |g[i].lhs| != 1 {
        esTipo2 := false;
        break;
      }
      i := i + 1;
    }
    if !esTipo2 {
      return tipo;
    }
    tipo := Type2;

    // Type 3: all right-linear or all left-linear.
    var esRegularDerecha := true;
    var esRegularIzquierda := true;
    i := 0;
    while i < |g|
      invariant 0 <= i <= |g|
      invariant esRegularDerecha ==> forall i', j :: 0 <= i' < i && 0 <= j < |g[i'].alts| ==> RightAlt(g[i'].lhs, g[i'].alts[j], start)
      invariant esRegularIzquierda ==> forall i', j :: 0 <= i' < i && 0 <= j < |g[i'].alts| ==> LeftAlt(g[i'].lhs, g[i'].alts[j], start)
      invariant !esRegularDerecha ==> !RightLinear(g, start)
      invariant !esRegularIzquierda ==> !LeftLinear(g, start)
    {
      var izq := g[i].lhs;
      var j := 0;
      while j < |g[i].alts|
        invariant 0 <= j <= |g[i].alts|
        invariant esRegularDerecha ==> forall i', j' :: 0 <= i' < i && 0 <= j' < |g[i'].alts| ==> RightAlt(g[i'].lhs, g[i'].alts[j'], start)
        invariant esRegularIzquierda ==> forall i', j' :: 0 <= i' < i && 0 <= j' < |g[i'].alts| ==> LeftAlt(g[i'].lhs, g[i'].alts[j'], start)
        invariant esRegularDerecha ==> forall j' :: 0 <= j' < j ==> RightAlt(izq, g[i].alts[j'], start)
        invariant esRegularIzquierda ==> forall j' :: 0 <= j' < j ==> LeftAlt(izq, g[i].alts[j'], start)
        invariant !esRegularDerecha ==> !RightLinear(g, start)
        invariant !esRegularIzquierda ==> !LeftLinear(g, start)
      {
        var der := g[i].alts[j];
        if IsEmptyAlt(der) {
          if izq != start {
            esRegularDerecha := false;
            esRegularIzquierda := false;
            break;
          }
          j := j + 1;
          continue;
        }
        if !RightFormat(der) {
          assert !RightAlt(g[i].lhs, g[i].alts[j], start);
          esRegularDerecha := false;
        }
        if !LeftFormat(der) {
          assert !LeftAlt(g[i].lhs, g[i].alts[j], start);
          esRegularIzquierda := false;
        }
        j := j + 1;
      }
      i := i + 1;
    }
    if esRegularDerecha || esRegularIzquierda {
      tipo := Type3;
    }
    return tipo;
  }

  /** "Tipo 0" exactly when some empty (or `ε`) alternative belongs to a
      left-hand side other than the start symbol, or some other alternative
      is shorter than its left-hand side. */
  lemma Type0Iff(g: Grammar, start: string)
    ensures Classification(g, start) == Type0 <==>
      exists i, j :: 0 <= i < |g| && 0 <= j < |g[i].alts| &&
        ((IsEmptyAlt(g[i].alts[j]) && g[i].lhs != start) || (!IsEmptyAlt(g[i].alts[j]) && |g[i].alts[j]| < |g[i].lhs|))
  {
  }

  /** Past the Type-1 test, "Tipo 1" exactly when some left-hand side is not
      a single character; so "Tipo 2" and "Tipo 3" both mean every
      left-hand side is one character and the grammar is non-contracting. */
  lemma Type1Iff(g: Grammar, start: string)
    requires NonContracting(g, start)
    ensures Classification(g, start) == Type1 <==> exists i :: 0 <= i < |g| && |g[i].lhs| != 1
    ensures Classification(g, start) in {Type2, Type3} ==> SingleSymbolLhs(g)
  {
  }

  /** "Tipo 3" exactly when the grammar passes the Type-1 and Type-2 tests
      and every alternative matches the right-linear pattern (or is an
      empty production of the start symbol), or every one matches the
      left-linear pattern. */
  lemma Type3Iff(g: Grammar, start: string)
    ensures Classification(g, start) == Type3 <==>
      && NonContracting(g, start)
      && SingleSymbolLhs(g)
      && (|| (forall i, j :: 0 <= i < |g| && 0 <= j < |g[i].alts| ==> (IsEmptyAlt(g[i].alts[j]) && g[i].lhs == start) || (!IsEmptyAlt(g[i].alts[j]) && RightFormat(g[i].alts[j])))
          || (forall i, j :: 0 <= i < |g| && 0 <= j < |g[i].alts| ==> (IsEmptyAlt(g[i].alts[j]) && g[i].lhs == start) || (!IsEmptyAlt(g[i].alts[j]) && LeftFormat(g[i].alts[j]))))
  {
  }

  /** A unit production such as `A` matches neither pattern, so a grammar
      with one is at most "Tipo 2". */
  lemma UnitProductionNotRegular(g: Grammar, start: string, i: nat, j: nat)
    requires i < |g| && j < |g[i].alts|
    requires |g[i].alts[j]| == 1 && IsUpper(g[i].alts[j][0])
    ensures Classification(g, start) != Type3
  {
    var der := g[i].alts[j];
    assert !RightFormat(der) && !LeftFormat(der) by {
      assert !IsLower(der[0]);
    }
    assert !IsEmptyAlt(der) by {
      assert der[0] != Epsilon;
    }
    assert !RightAlt(g[i].lhs, der, start) && !LeftAlt(g[i].lhs, der, start);
  }

  /** `S → aS | a` is right-linear: "Tipo 3". */
  lemma RightLinearExample()
    ensures Classification([Rule("S", ["aS", "a"])], "S") == Type3
  {
    var g := [Rule("S", ["aS", "a"])];
    assert RightFormat("aS") by { assert AllLower("aS"[..1]); }
    assert RightFormat("a");
    assert RightLinear(g, "S");
  }

  /** `S → aSb | ε` has the nested form: "Tipo 2", not "Tipo 3". */
  lemma NestedExample()
    ensures Classification([Rule("S", ["aSb", [Epsilon]])], "S") == Type2
  {
    var g := [Rule("S", ["aSb", [Epsilon]])];
    assert !RightFormat("aSb") && !LeftFormat("aSb") by {
      assert !IsLower("aSb"[1]);
      assert !IsLower("aSb"[..2][1]);
      assert !IsUpper("aSb"[0]);
    }
    assert !RightAlt("S", g[0].alts[0], "S");
    assert !LeftAlt("S", g[0].alts[0], "S");
  }

  /** A two-symbol left-hand side `AB → ab` passes the Type-1 test and fails
      the Type-2 test: "Tipo 1". */
  lemma MultiSymbolExample()
    ensures Classification([Rule("AB", ["ab"])], "AB") == Type1
  {
    var g := [Rule("AB", ["ab"])];
    assert !IsEmptyAlt("ab") by { assert "ab"[0] != Epsilon; }
    assert NonContractingAlt("AB", g[0].alts[0], "AB");
    assert |g[0].lhs| != 1;
  }
}
