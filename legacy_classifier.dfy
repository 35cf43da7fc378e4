/** `determinarTipo` of script.js:102-113: start from "Tipo 3" and lower the
    result to "Tipo 2" whenever a left-hand side is longer than one
    character or an alternative holds two upper-case letters on one line. */
module LegacyClassifier {
  import opened Text
  import opened Rules
  import opened Classifier

  /** No line terminator in `t` (the regular-expression `.` matches any
      character except a line terminator). */
  predicate NoLineBreak(t: string) {
    forall k :: 0 <= k < |t| ==> !IsLineTerminator(t[k])
  }

  /** `/[A-Z].*[A-Z]/.test(s)`: two upper-case letters with no line
      terminator between them. */
  predicate UpperPairOnOneLine(s: string) {
    exists a, b :: 0 <= a < b < |s| && IsUpper(s[a]) && IsUpper(s[b]) && NoLineBreak(s[a + 1..b])
  }

  /** The condition of script.js:107 for one alternative of one rule. */
  predicate Demotes(lhs: string, der: string) {
    |lhs| > 1 || UpperPairOnOneLine(der)
  }

  /** The result as a reference definition: "Tipo 2" when some alternative
      of some rule demotes, "Tipo 3" otherwise. */
  function LegacyType(g: Grammar): ChomskyType
  {
    if exists i, j :: 0 <= i < |g| && 0 <= j < |g[i].alts| && Demotes(g[i].lhs, g[i].alts[j]) then Type2 else Type3
  }

  /** The `for ... in` / `forEach` loops of script.js:103-112. */
  method LegacyDetermineType(g: Grammar) returns (t: ChomskyType)
    ensures t == LegacyType(g)
    ensures t == Type2 || t == Type3
  {
    var tipo := Type3;
    var i := 0;
    while i < |g|
      invariant 0 <= i <= |g|
      invariant tipo == Type2 || tipo == Type3
      invariant tipo == Type2 <==> exists i', j :: 0 <= i' < i && 0 <= j < |g[i'].alts| && Demotes(g[i'].lhs, g[i'].alts[j])
    {
      var izq := g[i].lhs;
      var j := 0;
      while j < |g[i].alts|
        invariant 0 <= j <= |g[i].alts|
        invariant tipo == Type2 || tipo == Type3
        invariant tipo == Type2 <==>
          || (exists i', j' :: 0 <= i' < i && 0 <= j' < |g[i'].alts| && Demotes(g[i'].lhs, g[i'].alts[j']))
          || (exists j' :: 0 <= j' < j && Demotes(izq, g[i].alts[j']))
      {
        var der := g[i].alts[j];
        if |izq| > 1 || UpperPairOnOneLine(der) {
          tipo := Type2;
        }
        j := j + 1;
      }
      i := i + 1;
    }
    t := tipo;
  }

  /** Number of upper-case letters in `s`. */
  function CountUpper(s: string): nat
  {
    if s == [] then 0 else (if IsUpper(s[0]) then 1 else 0) + CountUpper(s[1..])
  }

  lemma {:induction false} UpperCounted(s: string, k: nat)
    requires k < |s| && IsUpper(s[k])
    ensures CountUpper(s) >= 1
  {
    if k > 0 {
      UpperCounted(s[1..], k - 1);
    }
  }

  lemma {:induction false} CountedUpper(s: string)
    requires CountUpper(s) >= 1
    ensures exists k :: 0 <= k < |s| && IsUpper(s[k])
  {
    if !IsUpper(s[0]) {
      CountedUpper(s[1..]);
      var k :| 0 <= k < |s[1..]| && IsUpper(s[1..][k]);
      assert IsUpper(s[k + 1]);
    }
  }

  lemma {:induction false} TwoUpperCounted(s: string, a: nat, b: nat)
    requires a < b < |s| && IsUpper(s[a]) && IsUpper(s[b])
    ensures CountUpper(s) >= 2
  {
    if a == 0 {
      UpperCounted(s[1..], b - 1);
    } else {
      TwoUpperCounted(s[1..], a - 1, b - 1);
    }
  }

  lemma NoLineBreakSlice(s: string, x: nat, y: nat)
    requires NoLineBreak(s) && x <= y <= |s|
    ensures NoLineBreak(s[x..y])
  {
    forall m | 0 <= m < y - x ensures !IsLineTerminator(s[x..y][m]) {
      assert s[x..y][m] == s[x + m];
    }
  }

  lemma {:induction false} CountedUpperPair(s: string)
    requires NoLineBreak(s) && CountUpper(s) >= 2
    ensures UpperPairOnOneLine(s)
  {
    var t := s[1..];
    NoLineBreakSlice(s, 1, |s|);
    if IsUpper(s[0]) {
      CountedUpper(t);
      var k :| 0 <= k < |t| && IsUpper(t[k]);
      NoLineBreakSlice(s, 1, k + 1);
      assert IsUpper(s[0]) && IsUpper(s[k + 1]) && NoLineBreak(s[0 + 1..k + 1]);
    } else {
      CountedUpperPair(t);
      var a, b :| 0 <= a < b < |t| && IsUpper(t[a]) && IsUpper(t[b]) && NoLineBreak(t[a + 1..b]);
      assert s[a + 2..b + 1] == t[a + 1..b];
      assert IsUpper(s[a + 1]) && IsUpper(s[b + 1]) && NoLineBreak(s[(a + 1) + 1..b + 1]);
    }
  }

  /** On text without line breaks the regular expression holds exactly when
      the text has at least two upper-case letters. */
  lemma UpperPairIff(s: string)
    requires NoLineBreak(s)
    ensures UpperPairOnOneLine(s) <==> CountUpper(s) >= 2
  {
    if UpperPairOnOneLine(s) {
      var a, b :| 0 <= a < b < |s| && IsUpper(s[a]) && IsUpper(s[b]) && NoLineBreak(s[a + 1..b]);
      TwoUpperCounted(s, a, b);
    }
    if CountUpper(s) >= 2 {
      CountedUpperPair(s);
    }
  }

  /** The counting form of the condition: a key longer than one character
      or at least two upper-case letters in the alternative. */
  predicate Heavy(lhs: string, der: string) {
    |lhs| > 1 || CountUpper(der) >= 2
  }

  /** When no alternative holds a line terminator (LF, CR, LS or PS),
      "Tipo 2" exactly when some key is longer than one character or some
      alternative has two or more upper-case letters. A text input strips
      LF and CR from what is typed, but LS and PS reach the classifier;
      `LineSeparatorExample` shows the count form failing on them. */
  lemma LegacyTypeCount(g: Grammar)
    requires forall i, j :: 0 <= i < |g| && 0 <= j < |g[i].alts| ==> NoLineBreak(g[i].alts[j])
    ensures LegacyType(g) == Type2 <==>
      exists i, j :: 0 <= i < |g| && 0 <= j < |g[i].alts| && Heavy(g[i].lhs, g[i].alts[j])
  {
    if exists i, j :: 0 <= i < |g| && 0 <= j < |g[i].alts| && Demotes(g[i].lhs, g[i].alts[j]) {
      var i, j :| 0 <= i < |g| && 0 <= j < |g[i].alts| && Demotes(g[i].lhs, g[i].alts[j]);
      UpperPairIff(g[i].alts[j]);
      assert Heavy(g[i].lhs, g[i].alts[j]);
    }
    if exists i, j :: 0 <= i < |g| && 0 <= j < |g[i].alts| && Heavy(g[i].lhs, g[i].alts[j]) {
      var i, j :| 0 <= i < |g| && 0 <= j < |g[i].alts| && Heavy(g[i].lhs, g[i].alts[j]);
      UpperPairIff(g[i].alts[j]);
      assert Demotes(g[i].lhs, g[i].alts[j]);
    }
  }

  /** `S → A<LS>B`: two upper-case letters, but a line separator between
      them, so the regular expression does not match and the result is
      "Tipo 3" although the alternative has two upper-case letters. */
  lemma LineSeparatorExample()
    ensures CountUpper(['A', '\U{2028}', 'B']) == 2
    ensures LegacyType([Rule("S", [['A', '\U{2028}', 'B']])]) == Type3
  {
    var s := ['A', '\U{2028}', 'B'];
    assert s[1..][1..][1..] == [];
    assert !UpperPairOnOneLine(s) by {
      forall a, b | 0 <= a < b < |s| && IsUpper(s[a]) && IsUpper(s[b]) ensures !NoLineBreak(s[a + 1..b]) {
        assert a == 0 && b == 2;
        assert s[a + 1..b][0] == '\U{2028}';
      }
    }
    var g := [Rule("S", [s])];
    forall i, j | 0 <= i < |g| && 0 <= j < |g[i].alts| ensures !Demotes(g[i].lhs, g[i].alts[j]) {
    }
  }

  /** The result does not depend on the order of the rules: two tables with
      the same entries are classified alike. */
  lemma LegacyOrderFree(g1: Grammar, g2: Grammar)
    requires forall r :: r in g1 <==> r in g2
    ensures LegacyType(g1) == LegacyType(g2)
  {
    if exists i, j :: 0 <= i < |g1| && 0 <= j < |g1[i].alts| && Demotes(g1[i].lhs, g1[i].alts[j]) {
      var i, j :| 0 <= i < |g1| && 0 <= j < |g1[i].alts| && Demotes(g1[i].lhs, g1[i].alts[j]);
      assert g1[i] in g2;
      var i2 :| 0 <= i2 < |g2| && g2[i2] == g1[i];
      assert Demotes(g2[i2].lhs, g2[i2].alts[j]);
    }
    if exists i, j :: 0 <= i < |g2| && 0 <= j < |g2[i].alts| && Demotes(g2[i].lhs, g2[i].alts[j]) {
      var i, j :| 0 <= i < |g2| && 0 <= j < |g2[i].alts| && Demotes(g2[i].lhs, g2[i].alts[j]);
      assert g2[i] in g1;
      var i1 :| 0 <= i1 < |g1| && g1[i1] == g2[i];
      assert Demotes(g1[i1].lhs, g1[i1].alts[j]);
    }
  }

  /** The two classifiers disagree on `S → aSb | ε`: the legacy one sees a
      single upper-case letter per alternative and answers "Tipo 3". */
  lemma LegacyNestedExample()
    ensures LegacyType([Rule("S", ["aSb", [Epsilon]])]) == Type3
    ensures Classification([Rule("S", ["aSb", [Epsilon]])], "S") == Type2
  {
    NestedExample();
    var g := [Rule("S", ["aSb", [Epsilon]])];
    assert NoLineBreak("aSb") && NoLineBreak([Epsilon]);
    UpperPairIff("aSb");
    UpperPairIff([Epsilon]);
    assert CountUpper("aSb") == 1 by {
      assert "aSb"[1..] == "Sb" && "Sb"[1..] == "b" && "b"[1..] == [];
    }
    assert CountUpper([Epsilon]) == 0;
    forall j | 0 <= j < |g[0].alts| ensures !Demotes(g[0].lhs, g[0].alts[j]) {
    }
  }
}
