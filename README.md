# Grammar engine — a verified model

This project models the grammar engine of a small web tool. A user types
production rules row by row (left-hand side, right-hand side with `|`
between alternatives). The tool then does three things:

- it builds a rule table and a start symbol from those rows;
- it classifies the grammar in the Chomsky hierarchy ("Tipo 0" to "Tipo 3");
- it answers two questions about the grammar:
  - is a given string derivable, and by which derivations (`validarCadena`)?
  - which strings of a given length can be derived (`generarCadenas`)?

The engine exists twice. `src/grammar.js` is the current one. `script.js`
is an older copy with the same table building and the same two searches,
but with a different classifier that is never rejected. Both are modelled.
The shared code is modelled once.

The model is in these modules:

- `Text` (text.dfy): the JavaScript string built-ins the engine depends on.
  - `trim`, with the ECMAScript white-space set;
  - `split` on `|`;
  - `includes`;
  - `replace` with a string pattern, which rewrites the first occurrence only.
- `Rules` (rules.dfy):
  - the rule table as a sequence of `(lhs, alts)` in key-insertion order;
  - dictionary lookup;
  - the loop that collects terminals.
- `Ingestion` (ingestion.dfy): the reference definition of the table built
  from the rows, and its properties.
- `Classifier` (classifier.dfy): `determinarTipo` of `src/grammar.js`.
  - It is a method with the source's flags, `break` and `continue`.
  - It is proved against the reference function `Classification`.
  - Iff-lemmas characterise each outcome.
- `LegacyClassifier` (legacy_classifier.dfy): `determinarTipo` of `script.js`.
- `Rewriting` (rewriting.dfy): one first-occurrence rewriting step, and
  chains of such steps.
- `Derivation` (derivation.dfy): the membership search `derivar`.
  - It is a class `Deriver` holding the closure state: the path stack
    `pasos` and the list of recordings `derivaciones`.
  - It is proved against the function `Paths`, which lists the recordings
    in recording order.
  - `Paths` is characterised exactly, by soundness and completeness lemmas,
    as the chains of rewrites that the search can see.
- `Generation` (generation.dfy): the generator `generar`.
  - It is a class `Generator` holding the shared set `generadas`.
  - It is proved against the function `Gen`, which is characterised
    exactly in the same way.
- `Workspace` (workspace.dfy): the module-level state `gramatica` and
  `simboloInicial` as a class, with the four top-level operations.

Neither search has a depth bound in the source. On a cycle such as
`S → S`, or `A → B` with `B → A`, the recursion descends until the call
stack overflows. The exception is not caught, so the page shows no result,
even for derivations recorded before the overflow. In the model each
search takes a `fuel` parameter that bounds the recursion depth, and
returns what it finds within that bound. Every property is proved for
every fuel.

The page supplies three inputs, which the model takes as parameters:

- the rows;
- the target string;
- the requested length.

The operations return the contents of what the page displays, except where the source search overflows the call stack (see "## Left out"). The order in which the page lists terminals and generated strings is not modelled (see "## Left out").

## Model

| member | source | states |
|---|---|---|
| Text.TrimShape | src/grammar.js:17-18 | the trimmed text is the part of the input between a white-space prefix and a white-space suffix, and it neither starts nor ends with white space |
| Text.TrimBlank | src/grammar.js:21 | a trimmed side is empty (the row is skipped) exactly when the raw text is all white space |
| Text.TrimIdempotent | src/grammar.js:17-18 | trimming an already trimmed text changes nothing |
| Text.Split | src/grammar.js:26 | splitting yields one piece more than there are separators, and no piece contains the separator |
| Text.JoinSplit | src/grammar.js:26 | joining the pieces of a split with `\|` gives back the original right-hand side |
| Text.SplitJoin | src/grammar.js:26 | splitting a `\|`-join of separator-free pieces gives back the pieces |
| Text.IndexFromSpec | src/grammar.js:195-196 | the search returns the first index at or after the start where the pattern occurs, and returns none exactly when there is no occurrence |
| Text.ContainsIff | src/grammar.js:195 | `includes` holds exactly when the pattern occurs at some index |
| Text.ReplaceFirstShape | src/grammar.js:196 | `replace` puts the alternative in place of the first occurrence of the key and keeps the text before and after; the length changes by the length difference |
| Rules.CollectTerminals | src/grammar.js:34-44 | a character is a terminal exactly when it occurs in some alternative and, as a one-character string, is not a key (the same loop is at script.js:82-92) |
| Ingestion.KeyIndex | src/grammar.js:22 | `gramatica[izq]` is found at an index holding that key, and is missing exactly when the key is not in the table |
| Ingestion.AddedWellFormed | src/grammar.js:21-26 | adding a usable row keeps the keys distinct and non-blank, every key with at least one alternative, and no alternative containing `\|` |
| Ingestion.AddedLookup | src/grammar.js:22-26 | adding a row appends its pieces to the list of its own key and changes no other key's list |
| Ingestion.AddedKeys | src/grammar.js:22-23 | a new key goes to the end of the key order; an existing key leaves the order unchanged |
| Ingestion.IngestedSpec | src/grammar.js:16-31 | the table built from the rows is well formed; each key holds exactly the `\|`-pieces of its usable rows in row order; the keys are the usable left-hand sides in order of first appearance (same code at script.js:64-79) |
| Ingestion.AltsForGrowth | src/grammar.js:26 | a usable row adds exactly one more alternative than it has `\|` characters; a blank row adds none |
| Ingestion.FirstRowIsKey | src/grammar.js:29 | a start symbol taken from a usable row 0 is always a key of the table |
| Classifier.DetermineType | src/grammar.js:75-176 | the loops with their flags, `break` and `continue` return exactly the cascade `Classification` |
| Classifier.Type0Iff | src/grammar.js:95-117 | "Tipo 0" exactly when some empty or `ε` alternative belongs to a key other than the start symbol, or some other alternative is shorter than its key |
| Classifier.Type1Iff | src/grammar.js:124-135 | once the Type-1 test passes, "Tipo 1" exactly when some key is not one character long; "Tipo 2" and "Tipo 3" imply that every key is one character |
| Classifier.Type3Iff | src/grammar.js:139-175 | "Tipo 3" exactly when both earlier tests pass and either every alternative is right-linear or every alternative is left-linear; empty alternatives count only on the start symbol |
| Classifier.UnitProductionNotRegular | src/grammar.js:146-166 | an alternative that is a single upper-case letter matches neither pattern, so the result is never "Tipo 3" |
| Classifier.RightLinearExample | src/grammar.js:146 | `S → aS \| a` is "Tipo 3" |
| Classifier.NestedExample | src/grammar.js:139-175 | `S → aSb \| ε` is "Tipo 2" |
| Classifier.MultiSymbolExample | src/grammar.js:124-132 | `AB → ab` passes the Type-1 test and is "Tipo 1" |
| LegacyClassifier.LegacyDetermineType | script.js:102-113 | the loop returns the reference result `LegacyType`, which is only ever "Tipo 2" or "Tipo 3" |
| LegacyClassifier.UpperPairIff | script.js:107 | on text without line terminators (LF, CR, LS, PS), `/[A-Z].*[A-Z]/` matches exactly when the text has at least two upper-case letters |
| LegacyClassifier.LegacyTypeCount | script.js:103-112 | when no alternative has a line terminator (LF, CR, LS, PS), the result is "Tipo 2" exactly when some key is longer than one character or some alternative has two or more upper-case letters |
| LegacyClassifier.LineSeparatorExample | script.js:107 | an alternative `A`, line separator, `B` has two upper-case letters, yet the legacy result is "Tipo 3": the regular expression's `.` does not cross the separator |
| LegacyClassifier.LegacyOrderFree | script.js:103-112 | the result depends only on which rules are in the table, not on their order |
| LegacyClassifier.LegacyNestedExample | script.js:107 | on `S → aSb \| ε` the legacy classifier answers "Tipo 3" where the current one answers "Tipo 2" |
| Derivation.PathsSound | src/grammar.js:185-203 | every recorded path is the caller's stack followed by a chain of at most `fuel` first-occurrence rewrites from the current form to the target, and none of those rewrites expands a form longer than the target or equal to it |
| Derivation.PathsComplete | src/grammar.js:185-203 | every such chain is recorded, behind the caller's stack |
| Derivation.PathsExact | src/grammar.js:185-206 | a path is recorded from the start symbol exactly when it is the start entry followed by a chain from the start symbol to the target, of at most `fuel` steps, that never expands a pruned form |
| Derivation.Deriver.constructor | src/grammar.js:182 | the list of recordings starts empty and the stack starts as the start symbol |
| Derivation.Deriver.Derive | src/grammar.js:185-203 | `derivar` appends to the recordings exactly the paths `Paths`, and restores the stack `pasos` (same code at script.js:121-139) |
| Derivation.Deriver.ExpandRule | src/grammar.js:194-201 | the loop over one key's alternatives pushes each step, recurses, pops the step, and appends that key's share of `Paths` |
| Generation.GenSound | src/grammar.js:221-239 | every added string has exactly the requested length, contains no key character, and ends a chain of at most `fuel` rewrites from the current form through forms shorter than the length |
| Generation.GenComplete | src/grammar.js:221-239 | every such string is added |
| Generation.GenExact | src/grammar.js:221-239 | a string is generated from the start symbol exactly when it has the length, has no key character, and ends such a chain |
| Generation.GeneratedIsDerivable | src/grammar.js:221-239 | every generated string is accepted by the membership search run with the same fuel |
| Generation.Generator.constructor | src/grammar.js:218 | the shared set starts empty |
| Generation.Generator.Generate | src/grammar.js:221-239 | `generar` adds to the shared set exactly the strings `Gen` (same code at script.js:157-175) |
| Generation.Generator.ExpandRule | src/grammar.js:233-237 | the loop over one key's alternatives adds that key's share of `Gen` |
| Generation.Generator.NoKeyCharOf | src/grammar.js:224 | the `some` test reports exactly whether no character of the form is a key |
| Workspace.Workspace.constructor | src/grammar.js:2-5 | the table and the start symbol start empty |
| Workspace.Workspace.PushAlternatives | src/grammar.js:22-26 | the pieces are appended under the key, creating the key at the end when it is missing; the start symbol is unchanged |
| Workspace.Workspace.Ingest | src/grammar.js:10-31 | the table becomes the one built from the rows; the start symbol becomes the trimmed left side of row 0 when row 0 is usable, and otherwise keeps its previous value |
| Workspace.Workspace.Process | src/grammar.js:8-59 | the result is rejected exactly when the classification is "Tipo 1" ("Tipo 0" is reported); otherwise the report carries the type, the keys in key order, the start symbol and exactly the terminals |
| Workspace.Workspace.ProcessLegacy | script.js:56-99 | the result is always reported, with the legacy type ("Tipo 2" or "Tipo 3"), the keys in key order, the start symbol and exactly the terminals |
| Workspace.Workspace.ValidateString | src/grammar.js:180-213 | the derivations are exactly the start entry followed by bounded chains of rewrites from the start symbol to the string (same code at script.js:116-149) |
| Workspace.Workspace.GenerateStrings | src/grammar.js:216-249 | the generated strings are exactly the strings of the requested length, free of key characters, derivable within the bound through shorter forms (same code at script.js:152-185) |

## Left out

- Everything on the page is left out:
  - reading the form (src/grammar.js:13, 17-18, 181, 217);
  - the `alert` and the text written to the page (src/grammar.js:50-58, 209-212, 245-248, and the matching lines of script.js);
  - row creation and removal (src/dom.js, script.js:8-53);
  - event wiring (main.js, script.js:188).
  The rows, the target string and the length are parameters, and each operation returns the contents the page would display.
- Workspace.Workspace.Process, Workspace.Workspace.ProcessLegacy and Workspace.Workspace.GenerateStrings: the terminals and the generated strings are returned as sets. The page lists them in the insertion order of a JavaScript `Set` (src/grammar.js:56, 247): terminals in order of first occurrence, generated strings in discovery order. That display order is not modelled. The non-terminals are returned in key order, as shown.
- The text of a path entry is left out. The source stores each step as the two forms joined by " → " and joins a path the same way for display. The model keeps the two forms as a pair, `Step(before, after)`.
- Workspace.Workspace.GenerateStrings: `parseInt` on the typed length is not modelled. The length is an `int`, so a negative length generates nothing. A `NaN` length, which makes every length comparison false, is not modelled.
- Text.ReplaceFirst: the replacement is taken literally. JavaScript's special replacement patterns (`$&`, `$$`, ...) inside an alternative are not modelled.
- Rules: the table is a sequence in key-insertion order. Two JavaScript object behaviours are not modelled:
  - integer-like keys, which JavaScript enumerates first;
  - keys that name inherited properties such as `constructor`, `__proto__` or `toString`, for which `!gramatica[izq]` is false. `gramatica[izq].push` (src/grammar.js:26) is then not a function, so `procesarGramatica` throws a `TypeError` and stops before classifying or displaying anything.
- Strings are sequences of characters. The source mixes two notions of length:
  - `length` counts UTF-16 code units;
  - spreading a string (`[...s]`) iterates code points.
  The model does not distinguish them.
- The `terminales` set that `determinarTipo` computes (src/grammar.js:80-92) is never used, and it is not modelled.
- The commented-out classifier at src/grammar.js:62-73 has the same text as the legacy classifier of script.js:102-113. That classifier is modelled once, as `LegacyClassifier`.
- `procesarGramatica` calls `determinarTipo` a second time for the display (src/grammar.js:55). On the same state that call returns the same type, so the model reports the first result.
- Derivation.Deriver.Derive and Generation.Generator.Generate: the source recursion (src/grammar.js:198, 235) has no depth bound. On a cycle of rewrites that never lengthens the form, it descends until the call stack overflows. The resulting exception is uncaught, so the page shows no result (src/grammar.js:209-212 and 245-248 never run). The model instead bounds both methods by `fuel` and returns what is found within it. Every statement about them holds for each fuel. The stack-overflow exception, and the empty display it causes, are not modelled.
- LegacyClassifier.LegacyTypeCount: the count form is stated only for alternatives without LF, CR, LS or PS. A text input strips LF and CR, but LS and PS can reach the classifier from the page; with one between two upper-case letters the regular expression does not match (`LineSeparatorExample`). `LegacyType` itself covers that case through `UpperPairOnOneLine`.
- Behaviour the code does not have, so the model does not have it either:
  - breadth-first search, visited sets, step or result caps, batch scheduling and sorted output;
  - epsilon normalisation during ingestion: `ε` is an ordinary character there and in both searches. Only the classifier treats `''` and `ε` as the empty production (src/grammar.js:99, 153);
  - a start symbol taken from the first non-blank row: it comes from row 0 only;
  - rejection of "Tipo 0" grammars: only "Tipo 1" is rejected, and even then the table and start symbol stay loaded;
  - a saved-file format.
