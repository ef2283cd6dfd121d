# cubecalc Boolean engine in Dafny

This project models the Boolean-logic engine of cubecalc, a teaching tool. The engine does the following:

- It parses a propositional formula from text.
- It evaluates the formula under an assignment and enumerates its truth table.
- It builds the disjunctive normal form (DNF) of the formula from the true rows.
- It represents product terms as ternary *cubes* (digits 0, 1 and don't-care) and rebuilds a sum of products from a list of cubes.
- It runs the consensus method: a growing table of cubes in which every active row is combined with the active rows before it. Rows that another row covers are cancelled.

The model has six modules, one for each part of the engine:

| module | file | models |
|---|---|---|
| `Common` | `common.dfy` | JavaScript values, truthiness and the plain objects used as assignments (keys in insertion order, `obj[k] = v`) |
| `Cubes` | `cubes.dfy` | the cube class: constructor normalisation, `fromAssignment`, `toAssignment`, the complementary-digit and consensus tests, `getConsensusWith`, `covers`, `getLength` and `equals` |
| `LegacyCubes` | `legacy_cubes.dfy` | the older cube class: `intersect`, `getCoveredCubes` and `toString`; its other operations are the same code as the newer class and are the `Cubes` members |
| `Formulas` | `formulas.dfy` | `Atom`/`Not`/`And`/`Or`, `evaluate`, `isAtomic`, `collectAtoms`, `generateAssignments`, `getAllTrueAssignments`, `productTermFromAssignment`, `getDNF` and `formulaFromCubes` |
| `Parser` | `parser.dfy` | the tokenizer and the recursive-descent grammar as functions, and the `FormulaParser` class proved to compute them |
| `ConsensusTable` | `consensus.dfy` | one `processConsensus` step on values, the table invariant it keeps, and the `Consensus` class that runs the loops in place |

Failures the source signals with `throw` become `Err` results. A reading past the end of the other cube gives JavaScript `undefined`, which the model treats as a value of its own (`Cell.Undef`). An atom created at the end of the input carries the name `null` (`AtomName.Missing`), and it reads the property key `"null"`.

## Model

| member | source | states |
|---|---|---|
| Common.LookupAt | js/booleanLogic/formula.js:173-175 | in an assignment with distinct keys, reading the key of entry `i` gives that entry's value |
| Common.LookupAbsent | js/booleanLogic/formula.js:173-175 | reading a key that the assignment does not hold gives `undefined` |
| Common.PutLookup | js/booleanLogic/formula.js:15 | after `a[k] = v`, key `k` reads `v` and every other key reads as before |
| Common.PutShape | js/booleanLogic/formula.js:15 | writing an existing key keeps the key order; a new key goes last; distinct keys stay distinct; the only new entry is `(k, v)` |
| Common.PutNewKey | js/booleanLogic/formula.js:15 | writing a key that is not yet present appends exactly that entry |
| Common.EncodeBits | js/booleanLogic/formula.js:10-15 | every pattern of `n` bits is the pattern `i & (1 << j)` of some `i < 2^n` |
| Cubes.Make | js/cube/cube.js:12-23 | one digit per argument: 0 or 1 exactly for the numbers 0 and 1, don't-care for any other value |
| Cubes.MakeOfDigits | js/cube/cube.js:12-23 | building a cube from its own digits gives the same cube |
| Cubes.FromAssignment | js/cube/cube.js:31-38 | one digit per entry, in key order: 1 exactly for `true`, 0 exactly for `false`, don't-care for anything else |
| Cubes.ToAssignment | js/cube/cube.js:46-59 | it succeeds exactly when there is one name per digit, and the keys of the result are distinct |
| Cubes.AssignDigitsMeaning | js/cube/cube.js:50-58 | with distinct names, the keys are the names of the defined positions in order; each reads its digit as the number 0 or 1, and a don't-care position's name reads `undefined` |
| Cubes.ToAssignmentThenFromAssignment | js/cube/cube.js:31-59 | `fromAssignment(toAssignment(names))` has only don't-cares, so the two are not inverse |
| Cubes.HasComplementaryDigitWith | js/cube/cube.js:82-86 | true exactly when some position inside both cubes holds 1 against 0 or 0 against 1 |
| Cubes.ComplementarySymmetric | js/cube/cube.js:82-86 | for cubes of equal length, the test does not depend on their order |
| Cubes.HasConsensusWith | js/cube/cube.js:93-98 | true exactly when at most one position holds a defined digit against a different value that is not don't-care; past the end of the other cube, `undefined` is such a value |
| Cubes.GetConsensusWith | js/cube/cube.js:105-116 | the result is as long as the receiver. Equal digits pass through, two different defined digits become don't-care, and a don't-care takes the other digit. Past the end of the other cube, every position becomes don't-care |
| Cubes.ConsensusCommutative | js/cube/cube.js:105-116 | for cubes of equal length, the consensus does not depend on their order |
| Cubes.ConsensusSound | js/cube/cube.js:93-116 | take two cubes that have a consensus; every point covered by the consensus is covered by one of the two |
| Cubes.ConsensusCoveredByParentsWhenNoConflict | js/cube/cube.js:105-116 | without complementary digits, both cubes cover the consensus |
| Cubes.ScanCovers | js/cube/cube.js:123-128 | the scan up to the shorter length returns true exactly when every defined digit of the receiver is matched by the other cube |
| Cubes.CoversReflexive | js/cube/cube.js:123-128 | every cube covers itself |
| Cubes.CoversTransitive | js/cube/cube.js:123-128 | among cubes of one length, covering is transitive |
| Cubes.GetLength | js/cube/cube.js:130-132 | the number of digits |
| Cubes.Equals | js/cube/cube.js:138-141 | true exactly when both cubes have the same length and the same digits |
| Cubes.EqualsIffMutualCovers | js/cube/cube.js:123-141 | for cubes of equal length, equality is covering in both directions |
| LegacyCubes.Intersect | js/cube.js:97-110 | `undefined` exactly when some position holds 0 against 1 or lies past the end of the other cube. Otherwise the result is as long as the receiver, a don't-care takes the other digit and equal digits pass through |
| LegacyCubes.IntersectCommutative | js/cube.js:97-110 | for cubes of equal length, the intersection does not depend on their order |
| LegacyCubes.IntersectCoveredByBoth | js/cube.js:97-110 | both cubes cover their intersection |
| LegacyCubes.IntersectPoints | js/cube.js:56-110 | a point lies in both cubes exactly when the intersection exists and covers it |
| LegacyCubes.Generate | js/cube.js:74-85 | `generateCubes(index, current)` yields 2^k cubes, where k is the number of don't-cares from `index` on; each is `current` followed by the remaining digits, with every don't-care replaced by 0 or 1 |
| LegacyCubes.GenerateDistinct | js/cube.js:74-85 | the generated cubes are pairwise different |
| LegacyCubes.GenerateComplete | js/cube.js:74-85 | every such completion of `current` is generated |
| LegacyCubes.GetCoveredCubes | js/cube.js:67-90 | for a cube with k don't-cares, 2^k pairwise different points of the cube's length, each covered by the cube |
| LegacyCubes.GetCoveredCubesComplete | js/cube.js:67-90 | every point of the cube's length that the cube covers is among them |
| LegacyCubes.CoversIffPointsContained | js/cube.js:56-90 | for cubes of equal length, `a` covers `b` exactly when every point of `b` is a point of `a` |
| LegacyCubes.ConsensusIsIntersection | js/cube.js:97-149 | for cubes of equal length without complementary digits, the intersection exists and is the consensus |
| LegacyCubes.ToString | js/cube.js:116-118 | the result is parenthesised and `2n + 1` characters long for `n > 0` digits (`()` for none). Digit `i` is printed as `0`, `1` or `-` at place `2i + 1`, and a comma separates neighbouring digits |
| LegacyCubes.ToStringInjective | js/cube.js:116-118 | different cubes print differently |
| Formulas.Evaluate | js/booleanLogic/formula.js:173-254 | an atom whose key the assignment does not hold is false. `Not`, `And` and `Or` give the truthiness of `!`, `&&` and `||` applied to their operands' values |
| Formulas.EvaluateAtom | js/booleanLogic/formula.js:173-175 | in an assignment with distinct keys, an atom is true exactly when its key is present with a truthy value |
| Formulas.IsAtomic | js/booleanLogic/formula.js:62-65 | true exactly for an atom; `Not` is not atomic because its left operand is the placeholder `Atom('')`, not null |
| Formulas.EvaluateLocal | js/booleanLogic/formula.js:173-175 | the value of a formula depends only on the truthiness of the keys its atoms read |
| Formulas.Dedup | js/booleanLogic/formula.js:114-117 | the same members, each once |
| Formulas.DedupOfDedups | js/booleanLogic/formula.js:114-117 | deduplicating two deduplicated lists joined together gives the same as deduplicating the joined lists |
| Formulas.CollectAtoms | js/booleanLogic/formula.js:110-118 | the atom names in first-occurrence order, left to right and depth first, each once, never the placeholder's empty name |
| Formulas.BitAssignmentShape | js/booleanLogic/formula.js:13-16 | every generated assignment has the atoms' keys in first-write order, each once, and only boolean values |
| Formulas.BitAssignmentMeaning | js/booleanLogic/formula.js:12-16 | with distinct keys, assignment `i` holds atom `j` at place `j` with the value of bit `j` of `i` |
| Formulas.GenerateAssignments | js/booleanLogic/formula.js:8-21 | the nested loops build exactly the 2^n specified assignments: assignment `i` gets bit `j` of `i` written under atom `j` |
| Formulas.RowFor | js/booleanLogic/formula.js:8-21 | every assignment agrees, on the atoms' keys, with some generated assignment |
| Formulas.GetAllTrueAssignments | js/booleanLogic/formula.js:71-73 | exactly the generated assignments on which the formula is true |
| Formulas.ProductTermFromAssignment | js/booleanLogic/formula.js:99-104 | no term exactly for the empty assignment |
| Formulas.ProductTermFactors | js/booleanLogic/formula.js:99-104 | the operands of the left-nested conjunction are the entries' literals, one per entry, in key order: the atom for a truthy value, its negation otherwise |
| Formulas.ProductTermMeaning | js/booleanLogic/formula.js:99-104 | the term is true on exactly the assignments that agree in truthiness with every entry |
| Formulas.ProductTermIsProduct | js/booleanLogic/formula.js:99-104 | the term is a left-nested conjunction of atoms and negated atoms |
| Formulas.OrChainMeaning | js/booleanLogic/formula.js:138-141 | the left-nested disjunction is true exactly when one of its terms is |
| Formulas.JoinWithOr | js/booleanLogic/formula.js:137-142 | the loop builds the left-nested disjunction of the terms |
| Formulas.CollectTrueTerms | js/booleanLogic/formula.js:127-133 | the loop keeps the product terms of the true rows, each at the place of its first occurrence |
| Formulas.TrueTermsMembers | js/booleanLogic/formula.js:127-133 | the kept terms are exactly the product terms of the true rows, with no repeats |
| Formulas.TrueTermsShape | js/booleanLogic/formula.js:127-136 | there is no term exactly when the formula is false on every row; every term is a product |
| Formulas.GetDNF | js/booleanLogic/formula.js:124-143 | the method computes the DNF of the formula |
| Formulas.DNFShape | js/booleanLogic/formula.js:124-143 | null exactly when no generated assignment satisfies the formula; otherwise a left-nested sum of products |
| Formulas.DNFSound | js/booleanLogic/formula.js:124-143 | wherever the DNF is true, so is the formula |
| Formulas.DNFCoversTrueRow | js/booleanLogic/formula.js:124-143 | the DNF is true on every assignment that agrees with a true row |
| Formulas.DNFEquivalent | js/booleanLogic/formula.js:124-143 | the DNF agrees with the formula on every generated assignment |
| Formulas.DNFEquivalentEverywhere | js/booleanLogic/formula.js:124-143 | suppose the atoms' keys are distinct and the empty key is falsy. Then the DNF agrees with the formula on every assignment, and with no DNF the formula is false everywhere |
| Formulas.AgreesWithCube | js/cube/cube.js:46-59 | an assignment agrees with a cube's `toAssignment` exactly when it lies in the cube |
| Formulas.CubeTermMeaning | js/booleanLogic/formula.js:85-86 | the product term of a cube is true exactly on the assignments that lie in the cube |
| Formulas.FormulaFromCubes | js/booleanLogic/formula.js:81-92 | the length error exactly for cubes of unequal length; the name-count error exactly for a name list of the wrong length; nothing for no cubes. Otherwise the result is the left-nested disjunction of the cubes' product terms, in cube order. It is a sum of products, true exactly on the assignments that lie in some cube |
| Parser.Lex | js/booleanLogic/formulaParser.js:33-43 | no token exactly when only white space is left, with the input unchanged. Otherwise, after the leading white space, the token is a whole word run or one other character, and the rest of the input follows it |
| Parser.SpaceThenTokens | js/booleanLogic/formulaParser.js:33-43 | white space in front changes no token |
| Parser.TokenThenSpace | js/booleanLogic/formulaParser.js:33-43 | a token followed by a space is read as that token, then the rest |
| Parser.TokensOfJoin | js/booleanLogic/formulaParser.js:33-43 | tokens joined with spaces are read back as the same list |
| Parser.PExp | js/booleanLogic/formulaParser.js:63-72 | `parseExp` on a token list. It leaves at most the tokens it was given; ExpLeavesSuffix and ExpRoundTrip say more |
| Parser.PTerm | js/booleanLogic/formulaParser.js:78-87 | `parseTerm` on a token list. It leaves at most the tokens it was given; TermLeavesSuffix and TermRoundTrip say more |
| Parser.PFac | js/booleanLogic/formulaParser.js:93-108 | `parseFac` on a token list. It leaves at most the tokens it was given; FacLeavesSuffix and FacRoundTrip say more |
| Parser.PParse | js/booleanLogic/formulaParser.js:115-121 | a formula only when the expression uses every token; otherwise either a leftover token of the input or the expression's own error, which is always a missing `)` |
| Parser.ExpLeavesSuffix | js/booleanLogic/formulaParser.js:63-72 | `parseExp` leaves a suffix of its tokens, and takes at least one token when there is one. Its only error is a `(` whose `)` is missing |
| Parser.TermLeavesSuffix | js/booleanLogic/formulaParser.js:78-87 | the same for `parseTerm` |
| Parser.FacLeavesSuffix | js/booleanLogic/formulaParser.js:93-108 | the same for `parseFac`: at the end of the input it takes nothing and returns the `null` atom |
| Parser.ExpRoundTrip | js/booleanLogic/formulaParser.js:63-72 | `parseExp` on the printed tokens of a formula gives back the formula, provided the following tokens cannot continue it; it leaves those tokens |
| Parser.TermRoundTrip | js/booleanLogic/formulaParser.js:78-87 | the same for `parseTerm` and a formula printed as a term |
| Parser.FacRoundTrip | js/booleanLogic/formulaParser.js:93-108 | the same for `parseFac` and a formula printed as a factor |
| Parser.ParsePrinted | js/booleanLogic/formulaParser.js:115-121 | parsing the printed text of a formula gives the formula back |
| Parser.DanglingAnd | js/booleanLogic/formulaParser.js:103-107 | the tokens `x and` parse without error to `And(x, Atom(null))` |
| Parser.DanglingAndText | js/booleanLogic/formulaParser.js:24-27 | the text `x and` parses to `And(x, Atom(null))` |
| Parser.UnclosedParenthesis | js/booleanLogic/formulaParser.js:51-57 | `( x` fails in `match(')')` because the lookahead is null |
| Parser.TwoAtoms | js/booleanLogic/formulaParser.js:115-121 | `x y` fails at the end, reporting the leftover token `y` |
| Parser.FormulaParser.constructor | js/booleanLogic/formulaParser.js:24-27 | the lookahead followed by the tokens of the rest of the input is the token list of the whole input |
| Parser.FormulaParser.Next | js/booleanLogic/formulaParser.js:33-43 | returns the next token and drops the matched text. When only white space is left, it returns null and leaves the input as it was |
| Parser.FormulaParser.Match | js/booleanLogic/formulaParser.js:51-57 | succeeds exactly when the lookahead is the expected token, and then advances by one token; otherwise it fails with both tokens and nothing changes |
| Parser.FormulaParser.ParseExp | js/booleanLogic/formulaParser.js:63-72 | fails or succeeds as the grammar function does; on success it returns its formula and leaves its remaining tokens |
| Parser.FormulaParser.ParseTerm | js/booleanLogic/formulaParser.js:78-87 | the same for terms |
| Parser.FormulaParser.ParseFac | js/booleanLogic/formulaParser.js:93-108 | the same for factors |
| Parser.FormulaParser.Parse | js/booleanLogic/formulaParser.js:115-121 | an expression that must use up every token, or the first error |
| ConsensusTable.FindCovering | js/cube/consensus.js:58-62 | -1 exactly when no active row covers the cube; otherwise the first active row that covers it |
| ConsensusTable.CancelCoveredShape | js/cube/consensus.js:66-72 | the sweep keeps every row's cube and parents, cancels exactly the active rows covered by the consensus, and writes only the given mark |
| ConsensusTable.ProcessRows | js/cube/consensus.js:45-79 | the statements of `processConsensus` compute the specified step on the table and the counter |
| ConsensusTable.ProcessKeepsInv | js/cube/consensus.js:45-79 | one step keeps the table invariant. All rows have one width, and the seed rows come first. Each later row is the consensus of the two earlier rows it names. Every row is covered by an active row, and no active consensus row is covered by another active row. A cancelled row holds either the index of an earlier row covering it or a counter value above the seeds. Rows are only appended, and they are only ever cancelled, never revived |
| ConsensusTable.CoveredBySeed | js/cube/consensus.js:45-79 | every point covered by any row of the table is covered by a seed |
| ConsensusTable.SameFunction | js/cube/consensus.js:36-95 | a point is covered by a seed exactly when it is covered by an active row |
| ConsensusTable.ProcessPairs | js/cube/consensus.js:45-79 | after the step for rows `l` and `g`, their consensus (if they have one) is a cube of the table |
| ConsensusTable.DoneIsClosed | js/cube/consensus.js:74-78 | a table in which every pair of rows has been paired is closed under consensus: every two active rows with a consensus have it covered by an active row |
| ConsensusTable.MeasureDrops | js/cube/consensus.js:82-92 | pairing an active row either adds a cube never seen before or appends only cancelled rows, so the outer loop ends |
| ConsensusTable.SeedTableInv | js/cube/consensus.js:17-30 | the seed table meets the table invariant |
| ConsensusTable.OppositeSeedsNotClosed | js/cube/consensus.js:17-30 | the seed table of `(1)` and `(0)` is not closed under consensus |
| ConsensusTable.TwoOppositeSeeds | js/cube/consensus.js:82-94 | `consensus()` on the cubes `(1)` and `(0)` returns the seed table unchanged, which is not closed |
| ConsensusTable.Consensus.Create | js/cube/consensus.js:17-30 | fails exactly when some cube's length differs from the first cube's; otherwise one active row per cube, in order, meeting the table invariant |
| ConsensusTable.Consensus.ProcessConsensus | js/cube/consensus.js:45-79 | updates the table and the counter as the step specifies, keeps the invariant, and leaves every earlier row's cube and parents as they were |
| ConsensusTable.PairDownStep | js/cube/consensus.js:85-89 | the inner loop's first turn (row `l`, if active, paired with row `g`) followed by the remaining turns gives the whole loop |
| ConsensusTable.Consensus.PairWith | js/cube/consensus.js:86-88 | if row `l` is still active, the table and the counter become the step for `l` and `g`; otherwise nothing changes. The invariant is kept |
| ConsensusTable.Consensus.PairWithEarlier | js/cube/consensus.js:85-89 | the new table and counter are exactly those of the downward scan from `g - 1` to 0, in which each row still active at its turn is paired with row `g`. It keeps the invariant, and every row before `g` ends paired with `g`; for `g = 0` nothing changes |
| ConsensusTable.Consensus.SweepGlobal | js/cube/consensus.js:83-91 | one turn of the outer loop. If row `g` is active, the table and counter become those of the downward scan for `g`; otherwise nothing changes. It extends the paired rows to `g + 1` and makes the termination measure drop |
| ConsensusTable.Consensus.Run | js/cube/consensus.js:82-94 | ends with the invariant and with active rows covering exactly the seeds' points. Every pair of rows before the last is paired, and a two-row table comes back unchanged |
| ConsensusTable.Consensus.RunToEnd | js/cube/consensus.js:82-94 | the corrected loop: the same invariant and the same points, and the table is closed under consensus |

## Left out

- Numbers other than 0 and 1, strings and objects reach the engine only through the cube constructor and truthiness. The model's `Value` has only booleans, integers, `null` and `undefined`.
- Formulas.GenerateAssignments: requires that no atom name is made only of decimal digits. A JavaScript object lists its array-index keys (canonical numerals below 2^32 - 1) first, in numeric order, and the model keeps insertion order. The exclusion is wider than needed: JavaScript keeps names such as `007` in insertion order.
- Formulas.GenerateAssignments, Formulas.GetAllTrueAssignments and Formulas.GetDNF: also require that no atom is named `__proto__`. In JavaScript, `assignment['__proto__'] = b` sets the prototype instead of adding a key, so the rows stay empty and the atom reads an object, which is truthy.
- Common.LookupAbsent: an assignment is a plain list of own keys. In JavaScript, a key the object does not hold but inherits from `Object.prototype` (such as `toString` or `constructor`) reads a function, which is truthy, and not `undefined`.
- Formulas.Evaluate: the clause that an atom with a missing key is false does not hold in JavaScript for those inherited names. The same goes for Formulas.DNFEquivalentEverywhere on assignments that do not hold every atom's key.
- Formulas.GetAllTrueAssignments: the contract states membership, not that the rows keep their generation order. The order follows from `Filter` but is not stated.
- Common.Bit: `1 << j` is a 32-bit shift in JavaScript and wraps from 31 atoms on; the model uses unbounded bits.
- Formulas.GetDNF: requires `HasDNF`. A formula without atoms that is true on `{}` makes `productTermFromAssignment({})` return null, and then `term.toString()` throws a `TypeError`.
- Formulas.GetDNF: duplicate product terms are removed by structural equality instead of by `toString()`. The terms come from assignments with different values, so they print differently, and formula `toString` is not part of this model.
- Formulas.FormulaFromCubes: requires every cube to hold a defined digit. For an all-don't-care cube the source puts a null operand into the `Or` chain, which no model formula represents. The method also requires variable names that are not made only of digits, as above.
- ConsensusTable.Consensus.Create: requires at least one cube; with none, `cubes[0].getLength()` throws a `TypeError`.
- ConsensusTable.Consensus.Run: the result is not proved to hold every prime implicant of the seeds. The invariant, the covered points and the pairing are proved. The exact final table is fixed only by the body: the contract does not state it as a function of the seeds. Each outer turn is stated exactly by SweepGlobal.
- ConsensusTable.Consensus.RunToEnd: as for Run, the exact final table is fixed only by the body; closure under consensus is proved.
- The counter `nextNumber` is a parameter and result of `ProcessConsensus` instead of a closure variable. The `forEach` sweep works on a local copy of the table, which is then stored back.
- `consensus()` returns the live table array; the model returns it as a value.
- `Cube.add` is not part of this model. It is unused, and it passes an unspread array to the constructor.
- The formula `toString` and the formula symbols are not part of this model.
- `evaluate` returns raw JavaScript values, and the model keeps only their truthiness, which is all the engine's callers use.
- The tokenizer works on characters. JavaScript strings are UTF-16 code units, and its `\w` is ASCII only, as here.
- The legacy cube's constructor, `fromAssignment`, `covers`, `equals`, `hasComplementaryDigitWith`, `hasConsensusWith` and `getConsensusWith` (js/cube.js:12-33, 56-61, 120-149) are the same code as the newer class, and the `Cubes` members model them.

## Findings

| source | as written | input that shows it | evidently intended | confidence | as-written member | corrected member |
|---|---|---|---|---|---|---|
| js/cube/consensus.js:82 | the outer loop runs while `globalPointer < length - 1`, so the last row of the table is never paired with the rows before it | the cubes `(1)` and `(0)`: the table comes back with both seeds active, and their consensus `(-)` is never added | `globalPointer < length`, so that the table ends closed under consensus | high (not executed) | ConsensusTable.TwoOppositeSeeds | ConsensusTable.Consensus.RunToEnd |
