# Golly rule engines and cell lists in Dafny

This project models three parts of Golly, the Game of Life simulator.

- **Life-like rules** (`gollybase/liferules.cpp`). The `liferules` class parses a rule string into lookup tables. Three syntaxes are accepted:
  - totalistic rules such as `B3/S23`;
  - non-totalistic (Hensel) rules such as `B2a/S12-k`;
  - one-dimensional Wolfram rules such as `W110`.

  The class also supports the Moore, hexagonal and von Neumann neighbourhoods, and an optional `:T…` grid suffix. It fills the 512-entry 3x3 map, builds the canonical rule name, emulates B0 rules with alternating even and odd tables, and compiles the 3x3 map into the 65536-entry 4x4 map.
- **Rule trees** (`ruletreealgo.cpp`). `ruletreealgo::setrule` reads a `.tree` rule table. It uses the built-in Life tree when the name is B3/S23. It validates the header and the node lines, then installs the node arrays `a`, `b` and `base`. `slowcalc` walks the tree for one cell.
- **Cell lists** (`wxpython.cpp`). These are the Python-script helpers that build flat cell lists:
  - `AddTwoInts`, `AddState` and `AddPadding`;
  - `g.parse` for visual and RLE text;
  - `g.transform` and `g.join`;
  - the new-state arithmetic of `g.putcells` in its xor, not, copy and or modes.

  A one-state list has an even length (x, y pairs). A multi-state list has an odd length (x, y, state triples, padded with a final 0).

The code that changes state step by step is written as imperative Dafny:
- the `LifeRules` class holds the tables as arrays;
- the `RuleTree` class holds the installed tree;
- the `PyList` class is the Python list that the helpers append to.

Each method is proved against a specification function, such as `TotalisticStep`, `RuleMap`, `Compile4x4`, `CanonicalName`, `Load`, `Walk`, `Parsed`, `Transformed` or `Joined`. Lemmas state what those functions mean: their symmetries, inverses and round trips, and the soundness of the tree loader.

Grid sizing (`setgridsize`, `canonicalsuffix`) belongs to the algorithm base class and is not part of this model. Its answer is passed in as a `Result<string>`. An `Err` is the error message; an `Ok` is the canonical suffix. The contents of a `.tree` file are passed in as `Option<seq<string>>`; `None` means the file could not be opened. The neighbourhood masks MOORE, HEXAGONAL and VON_NEUMANN are declared in `liferules.h`, which is not part of this model. They are a `Masks` value given to the `LifeRules` constructor, with the relations the code relies on stated as `ValidMasks`.

The rule parser takes a flag, `fixed`:
- `Parse(m, rule, false)` is the parser as written.
- `Parse(m, rule, true)` adds the two corrections listed under Findings. The engine's `SetRule` uses this corrected parser.

Likewise, the tree reader's `checked` flag adds the node checks that the loader as written lacks. `Load` is the corrected loader. `AcceptedAsWritten` holds the two final checks of the original.

## Model

| member | source | states |
|---|---|---|
| LifeRuleEngine.CountBits | gollybase/liferules.cpp:85-89 | counting the neighbour bits of a 9-bit pattern gives exactly its population count `Pop9` |
| LifeRuleEngine.LifeRules.constructor | gollybase/liferules.cpp:30-57 | a new engine has an empty canonical name, Moore neighbourhood with 8 neighbours, no rule bits or letter bits, an all-zero 3x3 map and all-zero 4x4 maps |
| LifeRuleEngine.LifeRules.SetTotalistic | gollybase/liferules.cpp:63-96 | the new tables are `TotalisticStep` of the old ones: every pattern with the given centre state and the given masked neighbour count is set to 1 |
| RuleTables.TotalisticStepAt | gollybase/liferules.cpp:63-96 | an entry becomes 1 exactly when its centre bit matches birth or survival and its masked neighbour count equals the value; every other entry is kept |
| RuleBits.FlipPermutesCells | gollybase/liferules.cpp:99-101 | `flipBits` swaps the top and bottom rows of the 3x3 pattern cell by cell and keeps the middle row |
| RuleBits.FlipTwice | gollybase/liferules.cpp:99-101 | flipping twice gives back the pattern |
| RuleBits.RotatePermutesCells | gollybase/liferules.cpp:104-108 | `rotateBits90Clockwise` moves each of the nine cells to its place after a quarter turn clockwise |
| RuleBits.RotateFourTimes | gollybase/liferules.cpp:104-108 | four quarter turns give back the pattern |
| RuleBits.RotateAfterFlip | gollybase/liferules.cpp:99-108 | a turn after a flip equals a flip after three turns, so the eight images form the dihedral group |
| RuleBits.SymmetriesKeepCentreAndCount | gollybase/liferules.cpp:99-108 | rotating or flipping keeps the centre cell and the number of live neighbours |
| RuleBits.OrbitClosed | gollybase/liferules.cpp:111-129 | the set of eight images painted by `setSymmetrical512` is closed under rotation and flip |
| RuleBits.ImageKeepsCentreAndCount | gollybase/liferules.cpp:111-129 | each of the eight images has the centre and neighbour count of the original pattern |
| LifeRuleEngine.LifeRules.SetSymmetrical512 | gollybase/liferules.cpp:111-129 | the 3x3 map becomes `Symmetrical512Step` of the old map: the pattern and all its rotations and reflections get the value |
| RuleTables.Symmetrical512At | gollybase/liferules.cpp:111-129 | after the step an entry holds the value exactly when it is in the orbit of the pattern; other entries are unchanged |
| RuleTables.Symmetrical512KeepsSymmetry | gollybase/liferules.cpp:111-129 | a map that is invariant under rotation and flip stays so after the step |
| LifeRuleEngine.LifeRules.SetSymmetrical | gollybase/liferules.cpp:132-170 | the tables become `SymmetricalStep` of the old tables: a totalistic digit for counts 0 and 8, otherwise the lettered pattern's orbit, with the rule bit and the letter or negated-letter bit recorded |
| RuleTables.SymmetricalStepScope | gollybase/liferules.cpp:132-170 | an entry changed by the step has the requested centre state and exactly the requested neighbour count |
| RuleTables.LetterTargetShape | gollybase/liferules.cpp:150-167 | the pattern chosen for a digit and letter, with the centre added for survival, has that centre state and that many live neighbours |
| RuleTables.SymmetricalStepKeepsSymmetry | gollybase/liferules.cpp:132-170 | a symmetric map stays symmetric after a letter or digit is set |
| Hensel.TablesAgree | gollybase/liferules.cpp:44-56 | for each neighbour count 1 to 4, the letter row and the neighbourhood row have the same length, and each letter row is a prefix of the canonical letter order |
| Hensel.LetterPatternShape | gollybase/liferules.cpp:150-164 | the pattern named by a valid digit and letter has no centre cell and exactly that many live neighbours, including the counts 5 to 7 obtained by inversion |
| Hensel.FlippedShape | gollybase/liferules.cpp:150-164 | inverting the eight neighbour bits of a k-neighbour pattern gives an 8-k neighbour pattern without a centre |
| Hensel.LetterOrderFacts | gollybase/liferules.cpp:44-48 | every canonical letter is a lower-case letter found at its own position |
| LifeRuleEngine.LifeRules.SetTotalisticRuleFromString | gollybase/liferules.cpp:173-186 | the tables become `TotalisticFromString` of the old ones: each digit of the part is applied with `setTotalistic` |
| RuleTables.TotalisticFromStringTable | gollybase/liferules.cpp:173-186 | an entry is set to 1 exactly when its centre matches and the part contains its neighbour count as a digit; letter bits are untouched |
| RuleTables.TotalisticFromStringRulebits | gollybase/liferules.cpp:173-186 | the rule bits gain exactly the bit of each digit of the part, at offset 0 for birth or 9 for survival |
| RuleTables.DigitBitsMeaning | gollybase/liferules.cpp:173-186 | bit k of the digit bits is set exactly when k is at or past the offset and the part contains the digit k minus the offset |
| RuleTables.TotalisticFromStringKeepsSymmetry | gollybase/liferules.cpp:173-186 | a symmetric map stays symmetric after a totalistic part is applied |
| LifeRuleEngine.LifeRules.SetRuleFromString | gollybase/liferules.cpp:189-261 | the tables become `RuleFromString` of the old ones, which is defined (Some) for the part |
| LifeRuleEngine.LifeRules.SetLetterRun | gollybase/liferules.cpp:236-258 | consuming the letters after a digit (with an optional minus) updates the tables exactly as `LetterRun` describes and stops at the next digit |
| RuleSyntax.LettersFitExact | gollybase/liferules.cpp:189-261 | `RuleFromString` is defined exactly when every letter exists for the digit it follows |
| RuleSyntax.RunFitsExact | gollybase/liferules.cpp:236-258 | a letter run is defined exactly when each letter exists for its digit |
| RuleTables.RuleFromStringKeepsSymmetry | gollybase/liferules.cpp:189-261 | a symmetric map stays symmetric after a non-totalistic part is applied |
| RuleTables.LetterRunKeepsSymmetry | gollybase/liferules.cpp:236-258 | a symmetric map stays symmetric after a letter run is applied |
| LifeRuleEngine.LifeRules.CreateWolframMap | gollybase/liferules.cpp:264-276 | the 3x3 map becomes `WolframTable(wolfram)` |
| RuleTables.WolframTableMeaning | gollybase/liferules.cpp:264-276 | an entry is 1 exactly when the centre cell is already live, or when the Wolfram number has the bit indexed by the three top-row cells |
| RuleTables.WolframEvenQuiescent | gollybase/liferules.cpp:725-735 | an empty top row and dead centre give 0 exactly when the Wolfram number is even, which is why odd numbers are refused |
| LifeRuleEngine.LifeRules.CreateRuleMap | gollybase/liferules.cpp:279-298 | the tables become `RuleMap` of the old ones: reset the 3x3 map, then apply the birth and survival parts, totalistic or lettered |
| RuleTables.TotalisticRuleMapMeaning | gollybase/liferules.cpp:279-298 | for a totalistic rule the map is 0/1 and an entry is 1 exactly when the survival digits (live centre) or the birth digits (dead centre) contain its neighbour count |
| RuleTables.TotalisticRuleBits | gollybase/liferules.cpp:279-298 | the rule bits of a totalistic rule map are the birth digits at offset 0 and the survival digits at offset 9 |
| RuleTables.RuleBitsMeaning | gollybase/liferules.cpp:279-298 | bit k of those rule bits is set exactly when it was set before, or k is a birth digit, or k-9 is a survival digit |
| RuleTables.MooreRuleMapSymmetric | gollybase/liferules.cpp:279-298 | every Moore rule map built from the parts is invariant under rotation and flip |
| LifeRuleEngine.LifeRules.CreateCanonicalName | gollybase/liferules.cpp:301-381 | the canonical name is `CanonicalName` of the settings and tables: `W<n>` for Wolfram rules, otherwise `B…/S…` with letters, an H or V suffix, and the grid suffix |
| CanonicalNames.DecimalRoundTrip | gollybase/liferules.cpp:305-307 | the decimal text of a Wolfram number is all digits and reads back as the same number |
| CanonicalNames.LettersMeaning | gollybase/liferules.cpp:315-328 | a letter appears in the name of a digit exactly when its letter bit is set |
| CanonicalNames.LettersOrdered | gollybase/liferules.cpp:315-328 | the letters of a digit are written in canonical letter order |
| CanonicalNames.TotalisticPartName | gollybase/liferules.cpp:312-357 | without letters, a part of the name is ascending, uses only digits up to the neighbour count, and contains exactly the digits whose rule bit is set |
| CanonicalNames.CanonicalTotalistic | gollybase/liferules.cpp:301-381 | the canonical birth and survival parts of a totalistic rule are ascending and hold exactly the digits that were given |
| LifeRuleEngine.LifeRules.ConvertTo4x4Map | gollybase/liferules.cpp:384-418 | the chosen 4x4 map becomes `Compile4x4` of the 3x3 map |
| RuleTables.Entry4x4Meaning | gollybase/liferules.cpp:384-418 | each 4x4 entry holds, in bits 5, 4, 1 and 0, the 3x3 map's value for the four 3x3 windows of the 4x4 block |
| RuleBits.WindowsAreSubBlocks | gollybase/liferules.cpp:384-418 | each of the four windows is the 3x3 sub-block at its corner of the 4x4 block |
| LifeRuleEngine.LifeRules.CreateB0SmaxRuleMap | gollybase/liferules.cpp:443-472 | the tables become the rule map of `SmaxParts` of the birth and survival parts |
| B0Rules.SmaxPartsMeaning | gollybase/liferules.cpp:443-472 | a B0-and-Smax rule becomes birth = counts n-d not in survival, survival = counts n-d not in birth |
| B0Rules.SmaxTableInverts | gollybase/liferules.cpp:443-472 | on the inverted pattern the new table gives the complement of the original rule, so one generation with inverted states emulates the B0 rule |
| LifeRuleEngine.LifeRules.CreateB0OddRuleMap | gollybase/liferules.cpp:474-503 | the tables become the rule map of `OddParts` of the birth and survival parts |
| B0Rules.OddPartsMeaning | gollybase/liferules.cpp:474-503 | the odd-generation rule has birth = survival mirrored (n-d) and survival = birth mirrored |
| B0Rules.OddTableRestores | gollybase/liferules.cpp:474-503 | on the inverted pattern the odd table gives the original rule's value, which undoes the even generation's inversion |
| LifeRuleEngine.LifeRules.CreateB0EvenRuleMap | gollybase/liferules.cpp:505-533 | the tables become the rule map of `EvenParts` of the birth and survival parts |
| B0Rules.EvenPartsMeaning | gollybase/liferules.cpp:505-533 | the even-generation rule has birth = counts missing from birth and survival = counts missing from survival |
| B0Rules.EvenTableInverts | gollybase/liferules.cpp:505-533 | the even table is the complement of the original rule's table |
| B0Rules.InvertCounts | gollybase/liferules.cpp:443-533 | inverting a pattern flips its centre and turns a count c into n-c, where n is the neighbourhood size |
| B0Rules.PickedDigits | gollybase/liferules.cpp:443-533 | the digit-selection loop keeps a digit (or its mirror n-d) exactly when it is present or absent as requested |
| B0Rules.EvenExample | gollybase/liferules.cpp:505-533 | B03/S23 gives the even rule B1245678/S0145678 |
| B0Rules.OddExample | gollybase/liferules.cpp:474-503 | B03/S23 gives the odd rule B65/S85 |
| B0Rules.SmaxExample | gollybase/liferules.cpp:443-472 | B03/S238 gives the rule B874321/S7643210 |
| LifeRuleEngine.LifeRules.SetRule | gollybase/liferules.cpp:536-914 | settings are those of the corrected parse (Findings rows 1-2); the error is the corrected parse's, the grid's or the install's failure; on error no table, name or 4x4 map changes; on success the Wolfram, plain, B0-Smax or alternating B0 rule is installed with its canonical name |
| LifeRuleEngine.LifeRules.ResetFields | gollybase/liferules.cpp:554-560 | setrule starts from no Wolfram number, Moore neighbourhood, 8 neighbours, totalistic, no rule bits and no letter bits |
| RuleSyntax.BeforeColon | gollybase/liferules.cpp:565-570 | only the text before the first colon is parsed; the result is a colon-free prefix that ends at that colon |
| RuleSyntax.ToLower | gollybase/liferules.cpp:575 | upper-case letters are lowered and every other character is kept |
| RuleSyntax.ScanKeepsInvariant | gollybase/liferules.cpp:573-697 | the character scan keeps its invariant: each marker position names that marker, at most one H or V, every digit at most the recorded maximum, and a totalistic rule has only digits and markers |
| RuleSyntax.ParseWellFormed | gollybase/liferules.cpp:536-853 | a successful parse gives an even Wolfram number up to 254 with Moore neighbourhood, or parts whose digits fit the neighbourhood, non-totalistic only with Moore, and with the corrected parser every letter valid for its digit |
| RuleSyntax.CheckWolframWellFormed | gollybase/liferules.cpp:723-735 | an accepted Wolfram rule is an even number from 0 to 254 with no birth or survival part |
| RuleSyntax.CheckLife | gollybase/liferules.cpp:736-852 | the B/S split keeps the scanned settings, accepts a non-totalistic rule only with Moore neighbourhood, and with the corrected parser only when every letter fits its digit |
| RuleSyntax.CheckLifeDigits | gollybase/liferules.cpp:756-761 | an accepted totalistic rule has no digit above the neighbour count |
| RuleSyntax.CheckParts | gollybase/liferules.cpp:835-852 | the final checks keep the settings and parts and accept a non-totalistic rule only with Moore neighbourhood and both parts starting with a digit |
| LifeRuleEngine.LifeRules.GetRule | gollybase/liferules.cpp:920-922 | returns the stored canonical name |
| LifeRuleEngine.LifeRules.IsRegularLife | gollybase/liferules.cpp:925-927 | true exactly for Moore, totalistic, non-Wolfram rules whose rule bits are B3/S23 |
| CanonicalNames.LifeBitsMeaning | gollybase/liferules.cpp:924-927 | the constant 0x1808 has exactly bits 3, 11 and 12 set |
| CanonicalNames.RegularLifeDigits | gollybase/liferules.cpp:924-927 | rule bits equal to 0x1808 mean birth exactly on 3 and survival exactly on 2 or 3 |
| CanonicalNames.LifeIsRegular | gollybase/liferules.cpp:924-927 | the rule map of B3/S23 has rule bits 0x1808 |
| RuleSyntax.LetterPastRowAsWritten | gollybase/liferules.cpp:164 | the parser as written accepts a digit followed by a letter past that digit's row, which the letter update cannot handle |
| RuleSyntax.LetterPastRowCorrected | gollybase/liferules.cpp:236-258 | the corrected parser rejects that rule with "Letter not valid for numeric value." |
| RuleSyntax.Wolfram9AsWritten | gollybase/liferules.cpp:44 | the scan as written rejects the digit 9 after W with "Bad character found." |
| RuleSyntax.Wolfram9Corrected | gollybase/liferules.cpp:670-691 | the corrected scan accepts 9 in a Wolfram number |
| RuleSyntax.Wolfram90Accepted | gollybase/liferules.cpp:725-735 | with 9 accepted, W90 parses as Wolfram rule 90 |
| RuleTreeAlgo.RuleTree.NumCellStates | ruletreealgo.cpp:38-40 | the number of cell states is the installed `num_states`, 0 before any rule or 2 to 256 |
| DefaultTree.DefaultTreeIsLife | ruletreealgo.cpp:45-51 | the built-in tree loads, and walking it for any nine 0/1 cells gives the Life rule: born on 3, survives on 2 or 3 |
| DefaultTree.DefaultLoads | ruletreealgo.cpp:45-51 | the built-in data passes the loader with 2 states, 8 neighbours and 32 nodes, and can be evaluated |
| DefaultTree.DefaultRead | ruletreealgo.cpp:45-51 | reading the built-in lines stores exactly the 32 layered nodes of the Life tree |
| DefaultTree.FollowLife | ruletreealgo.cpp:45-51 | following any node of the Life tree from a partial count gives Life of the total count and the centre |
| DefaultTree.TrackedLife | ruletreealgo.cpp:45-51 | a loader that stores the Life tree walks every 9-cell neighbourhood to Life of the neighbour sum and the centre |
| DefaultTree.LoadedLife | ruletreealgo.cpp:45-51 | any line set that loads to the Life tree is evaluated by slowcalc's walk as Life |
| DefaultTree.Life | ruletreealgo.cpp:45-51 | the Life function is 1 exactly on count 3, or count 2 with a live centre |
| DefaultTree.DefaultRuleOutcome | ruletreealgo.cpp:75-102 | a default rule name needs no file: setrule installs the built-in tree under the name plus the grid suffix |
| DefaultTree.DefaultNames | ruletreealgo.cpp:75-77 | b3s23, B3/S23, b3/S23 and 23/3 name the built-in rule; B3/S23/ and S23/B3 do not |
| DefaultTree.SameIgnoringCaseLower | ruletreealgo.cpp:75-76 | the case-insensitive comparison holds exactly when both strings lower-case to the same string |
| DefaultTree.DefaultNamesExact | ruletreealgo.cpp:75-77 | for every string: it names the built-in rule exactly when it lower-cases to b3/s23 or b3s23, or is exactly 23/3 |
| RuleTrees.RuleName | ruletreealgo.cpp:69-72 | the rule name is the colon-free text before the first colon |
| RuleTreeAlgo.RuleTree.SetRule | ruletreealgo.cpp:67-208 | on an error (rule length too long, file not found, a grid error or an error of the corrected `Load`, Findings rows 3-4) none of the RuleTree's own fields change (the grid collaborator's state is outside the model); on success fresh arrays hold the tree the corrected `Load` accepted and the rule name gains the grid suffix |
| RuleTreeAlgo.RuleTree.LoadTree | ruletreealgo.cpp:105-193 | loading leaves the object unchanged on error and otherwise installs exactly the corrected `Load(lines)` (Findings rows 3-4) |
| RuleTreeAlgo.RuleTree.ReadAndCheck | ruletreealgo.cpp:106-174 | reading and the final checks agree with `Load`, and success gives at least one node |
| RuleTreeAlgo.RuleTree.ReadAll | ruletreealgo.cpp:112-168 | the line loop computes `ReadLines` from the empty loader |
| RuleTreeAlgo.RuleTree.ReadOne | ruletreealgo.cpp:122-167 | one line is read as `ReadLine`: comments and blanks skipped, header values recorded, node lines added |
| RuleTreeAlgo.RuleTree.ReadNode | ruletreealgo.cpp:126-166 | a node line is checked against the basic values and its level, then its values are added |
| RuleTreeAlgo.RuleTree.ReadValues | ruletreealgo.cpp:141-166 | the value loop computes `Values` from the character after the level digit |
| RuleTreeAlgo.RuleTree.SkipBlanks | ruletreealgo.cpp:142-143 | skipping stops at the first character above a space or at the end of the line |
| RuleTreeAlgo.RuleTree.ReadToken | ruletreealgo.cpp:144-150 | a token is read exactly when it is all digits, and its value is its decimal value |
| RuleTreeAlgo.RuleTree.Install | ruletreealgo.cpp:175-193 | installing copies the node arrays into fresh arrays, sets the header values and takes base from the last node |
| RuleTreeAlgo.RuleTree.constructor | ruletreealgo.cpp:218-222 | a new ruletree has no arrays, base 0 and zero neighbours, states and nodes |
| RuleTreeAlgo.RuleTree.SlowCalc | ruletreealgo.cpp:235-241 | for in-range states the walk stays in bounds and returns `Walk` over the 5- or 9-cell neighbourhood, a state below `num_states` |
| RuleTrees.Walk | ruletreealgo.cpp:235-241 | a walk through a tree that reaches leaf level returns a state below the number of states |
| RuleTrees.Neighbourhood | ruletreealgo.cpp:237-240 | the walk order has 5 cells for von Neumann and 9 for Moore, with the centre last |
| RuleTreeAlgo.VonNeumannWalk | ruletreealgo.cpp:237-238 | the von Neumann expression of slowcalc indexes a and b in bounds and equals the walk over n, w, e, s, c |
| RuleTreeAlgo.MooreWalk | ruletreealgo.cpp:239-240 | the Moore expression of slowcalc indexes a and b in bounds and equals the walk over nw, ne, sw, se, n, w, e, s, c |
| RuleTrees.LoadEvaluable | ruletreealgo.cpp:105-192 | every tree accepted by the corrected loader can be evaluated: from base, every neighbourhood walk stays in bounds |
| RuleTrees.NodeLineSound | ruletreealgo.cpp:131-166 | adding a checked node line keeps every stored node walkable to its level |
| RuleTrees.ReadLinesSound | ruletreealgo.cpp:112-168 | reading any sequence of lines with checks keeps the loader sound |
| RuleTrees.ReachesGrow | ruletreealgo.cpp:138-160 | appending values to dat and datb keeps earlier nodes walkable |
| RuleTrees.AddValuesOk | ruletreealgo.cpp:151-161 | adding a node's values succeeds exactly when each value is a valid state (level 1) or an existing node (higher levels) |
| RuleTrees.ValuesSpaced | ruletreealgo.cpp:141-163 | reading space-separated decimal values is the same as adding those values one by one |
| RuleTrees.ScanDecimal | ruletreealgo.cpp:123-125 | the integer scan reads back any decimal text as its number |
| RuleTrees.HeaderRoundTrip | ruletreealgo.cpp:123-125 | a header line `key=n` reads back as n for its key |
| RuleTrees.HeaderMismatch | ruletreealgo.cpp:123-125 | a line that differs from the key before the `=` is not that header |
| RuleTrees.ReadHeader | ruletreealgo.cpp:122-125 | a `num_states`, `num_neighbors` or `num_nodes` line records that value and nothing else, tried in that order |
| RuleTrees.NodeTextLine | ruletreealgo.cpp:131-166 | the text of a valid node line is read as that node: its offset, level and values are stored |
| RuleTrees.NodeTextRejected | ruletreealgo.cpp:151-161 | a node line with one invalid value is rejected |
| RuleTrees.ReadLayered | ruletreealgo.cpp:112-168 | reading the texts of layered nodes stores exactly those nodes and keeps the header values |
| RuleTrees.WalkFollow | ruletreealgo.cpp:235-241 | walking the stored arrays equals following the node structure the lines describe |
| TreeFindings.SelfNamed | ruletreealgo.cpp:157-160 | the loader as written accepts a level-4 node that names itself |
| TreeFindings.SelfNamedRejected | ruletreealgo.cpp:157-160 | the corrected loader rejects that line |
| TreeFindings.K8NotEvaluable | ruletreealgo.cpp:235-241 | the tree read from that file cannot be walked in bounds |
| TreeFindings.LevelUncheckedAsWritten | ruletreealgo.cpp:151-174 | the five-line file passes every check as written, yet its tree cannot be walked in bounds |
| TreeFindings.LevelCheckedRejects | ruletreealgo.cpp:151-174 | the corrected loader rejects that file |
| TreeFindings.EmptyAsWritten | ruletreealgo.cpp:171-174 | a file with num_neighbors=999 and num_nodes=0 passes both final checks with no node at all, so base has no node to come from |
| TreeFindings.EmptyCheckedRejects | ruletreealgo.cpp:126-129 | the corrected loader rejects that file with "Bad basic values" |
| CellLists.PyList.constructor | wxpython.cpp:819 | a new output list is empty |
| CellLists.PyList.AddTwoInts | wxpython.cpp:342-354 | the list gains x then y at its end |
| CellLists.PyList.AddState | wxpython.cpp:358-364 | the list gains the state at its end |
| CellLists.PyList.AddPadding | wxpython.cpp:368-380 | the list becomes `Padded` of itself |
| CellLists.Padded | wxpython.cpp:368-380 | padding leaves an empty list empty, otherwise gives odd length by appending at most one 0, and keeps the list as a prefix |
| CellLists.DecodePadded | wxpython.cpp:368-380 | padding a list of triples does not change the cells it holds |
| CellLists.DecodeEncode | wxpython.cpp:342-380 | decoding an encoded list gives back its cells (multi-state) or its live cells (one-state) |
| CellLists.EncodeAppend | wxpython.cpp:342-364 | encoding two cell sequences one after the other is the concatenation of their encodings |
| CellLists.CellsOfWritten | wxpython.cpp:342-380 | a list written by the helpers reads back as its cells, and is multi-state exactly when written with states and non-empty |
| CellLists.OneStateLive | wxpython.cpp:919-921 | the cells of a one-state list are all live |
| CellLists.Parse | wxpython.cpp:802-896 | `g.parse` computes `Parsed`: visual text when a `*` is present, RLE otherwise |
| CellLists.ParseVisual | wxpython.cpp:823-836 | the visual branch writes the transformed position of each `*` |
| CellLists.VisualCount | wxpython.cpp:823-836 | the visual branch yields exactly one cell per `*` |
| CellLists.ParseVisualCells | wxpython.cpp:823-836 | visual text always parses to a one-state list with one live cell per `*` |
| CellLists.FindMultiChar | wxpython.cpp:838-847 | the list is multi-state exactly when the text has `.`, a letter p to y, or a letter A to X |
| CellLists.ParseRle | wxpython.cpp:848-893 | the RLE branch computes `Parsed`, including the illegal two-letter state error |
| CellLists.AddRun | wxpython.cpp:862-886 | a run of n cells appends their transformed positions (with states for a multi-state list) and advances x by n |
| CellLists.Letter | wxpython.cpp:871-872 | the states A to X are 1 to 24 |
| CellLists.TwoLetterState | wxpython.cpp:873-877 | a two-letter state is 25 to 264, and the two letters are recovered from it |
| CellLists.RleStates | wxpython.cpp:848-891 | RLE cells have states 1 to 264, and only state 1 without multi-state characters |
| CellLists.ParseStates | wxpython.cpp:802-896 | parsed cells have states 1 to 264; the list is multi-state exactly for non-visual text with multi-state characters and at least one cell |
| CellLists.RleError | wxpython.cpp:873-881 | an RLE error is the illegal multi-char state message and needs a p to y letter in the text |
| CellLists.ParseError | wxpython.cpp:802-896 | `g.parse` fails only with that message, and only for non-visual text with a p to y letter |
| CellLists.ParseIsTransform | wxpython.cpp:802-896 | parsing with an affine map equals parsing plainly and then transforming |
| CellLists.GliderParse | wxpython.cpp:848-891 | `bo$2bo$3o!` parses to the five transformed glider cells |
| CellLists.MultiStateParse | wxpython.cpp:848-893 | `A.B!` parses to two cells with states 1 and 2, padded with a 0 |
| CellLists.BadStateParse | wxpython.cpp:873-881 | `2pZ!` fails with the illegal multi-char state message |
| CellLists.Transform | wxpython.cpp:901-940 | `g.transform` computes `Transformed` |
| CellLists.TransformCells | wxpython.cpp:901-940 | the cells of a transformed list are the moved cells, as many as before, and it is multi-state exactly when the input was and had cells |
| CellLists.TransformWritten | wxpython.cpp:901-940 | transforming a written list equals writing the moved cells |
| CellLists.TransformIdentity | wxpython.cpp:901-940 | the identity transformation keeps the cells |
| CellLists.TransformTwice | wxpython.cpp:901-940 | two transformations in a row equal one transformation by their composition |
| CellLists.Join | wxpython.cpp:1210-1270 | `g.join` computes `Joined` |
| CellLists.AppendCells | wxpython.cpp:1227-1265 | each copy loop appends the encoding of the input list's cells, with states when the output is multi-state |
| CellLists.JoinCells | wxpython.cpp:1210-1270 | the joined list holds the first list's cells followed by the second's, and is multi-state exactly when either input was and some cell exists |
| CellLists.NewState | wxpython.cpp:1050-1122 | the state that putcells writes stays in range for every mode: xor cancels equal states and keeps the old state on overflow, not inverts, copy and or use the given state |
| CellLists.BitXorCancel | wxpython.cpp:1067 | xoring twice with the same value restores the other operand |
| CellLists.XorTwiceRestores | wxpython.cpp:1050-1092 | putting the same cell twice in xor mode restores the cell's state |
| CellLists.NotTwiceRestores | wxpython.cpp:1099-1113 | inverting twice in not mode gives back the given state; a one-state list in not mode writes 0 |

## Left out

- I/O: `.tree` files, `fgets` and `fopen` are not modelled; the file's lines are a parameter, and `None` stands for "File not found".
- The 4096-byte `fgets` line split and `MAXFILELEN` are left out: each line of the file is taken whole.
- NUL characters inside lines and signed `char` comparisons are not modelled.
- The path-length check and the `/` and `\` replacement in `OpenTreeFile` are left out, because the file name only matters to the file system.
- `setgridsize` and `canonicalsuffix` belong to the base algorithm class: their answer is a parameter. The suffix is appended when the grid answer is `Ok`. The source appends it when `gridwd > 0 || gridht > 0`, so the collaborator is taken to answer `Ok("")` for an unbounded grid.
- `ghashbase::setrule` is not part of this model.
- "Out of memory in ruletree allocation" is left out because allocation cannot fail in the model.
- The `getrule` and `DefaultRule` accessors of ruletreealgo, and the liferules destructor, are left out; they do not change or check anything.
- Integer overflow is not modelled, because integers here are unbounded:
  - the RLE repeat prefix;
  - `v * 10` in the tree reader;
  - `mnum_nodes * mnum_states`;
  - the affine arithmetic of parse, transform and putcells;
  - the `long` to `int` narrowing of `newx` and `newy`.
- RuleSyntax.Decimal: the Wolfram number is read without the 32-bit wrap-around of `wolfram = 10 * wolfram + ...` (gollybase/liferules.cpp:726-728). A number of ten or more digits overflows there, and a wrapped value in 0 to 254 would be accepted; the model rejects every such number with "Wolfram rule must be an even number from 0 to 254.".
- RuleSyntax.CheckLife and RuleSyntax.Trim: the tidy rule string has no length bound here. The program copies it into `tidystring[MAXRULESIZE]` (gollybase/liferules.cpp:538) without a length check and keeps its length in a signed `char len` (gollybase/liferules.cpp:541), so for a tidy string of 128 or more characters `t[len - 1]` (gollybase/liferules.cpp:740-747) reads and writes outside the buffer, and at exactly 256 characters the end-of-rule neighbourhood check is skipped. That behaviour is undefined; the model describes tidy strings shorter than 128 characters and shorter than MAXRULESIZE.
- RuleTreeAlgo.RuleTree.SetRule: the grid collaborator is told the grid size (ruletreealgo.cpp:95-104) before any line of the tree is read, so a later load error leaves the grid changed in the program; the model keeps only the RuleTree's own fields unchanged on an error.
- RuleTrees.ScanInt and RuleTrees.HeaderValue: the `sscanf` `%d` header reads (ruletreealgo.cpp:123-125) keep the full value. An out-of-range value is undefined there and in practice truncated to `int`, so a huge `num_states` gives "Bad basic values" in the model and a small wrapped value in the program.
- Python object handling is left out: non-integer items, `PyArg_ParseTuple` failures and reference counting.
- `PythonScriptAborted` polling is left out, because it is an external interrupt.
- putcells' access to the universe is left out, because the universe is another component: `getcell`, `setcell`, the `BAD_STATE` error, `ChangeCell` and `endofpattern`. Only the new state that putcells computes is modelled.
- CellLists.NewState: a one-state list in xor mode over a cell whose state is 2 or more yields a negative state, which `setcell` then rejects. The range guarantee is therefore stated only for a current state of at most 1 in that mode.
- LifeRuleEngine.LifeRules.SetRuleFromString requires every letter to exist for the digit it follows. The source reads past the letter row otherwise (see Findings); the corrected parser guarantees the requirement.
- LifeRuleEngine.LifeRules.SetSymmetrical requires the letter index to exist for the digit, for the same reason.
- Canonical names are not idempotent when a digit has both normal and negated letters. The model states this behaviour as written: "B2a2-e/S" names "B2a-e/S", which names "B2a/S".
- The MOORE, HEXAGONAL and VON_NEUMANN values are constructor parameters. Only the relations stated in `ValidMasks` are assumed of them.
- Trailing blanks on a tree node line read one extra value 0. This is modelled as written.

## Findings

| source | as written | input that shows it | evidently intended | confidence | as-written member | corrected member |
|---|---|---|---|---|---|---|
| gollybase/liferules.cpp:164 | `setSymmetrical` looks up `rule_neighborhoods[nindex][lindex]` without checking that the letter exists for that digit, and the checks at 835-852 do not catch it | `B1z/S`: letter z has index 12, but digit 1 has only 2 letters | reject a letter that is not valid for its digit | not executed | RuleSyntax.LetterPastRowAsWritten | RuleSyntax.LetterPastRowCorrected |
| gollybase/liferules.cpp:44 | `valid_rule_letters` holds only `012345678`, so the digit 9 is a "Bad character found." even in a Wolfram number | `W90` (also 190 to 198 and the other even numbers with a 9) | accept 9 in a Wolfram number | not executed | RuleSyntax.Wolfram9AsWritten | RuleSyntax.Wolfram9Corrected |
| ruletreealgo.cpp:157-160 | a node value is only checked against the number of nodes read so far, which includes the node itself, and never against the level below | num_states=2, num_neighbors=4, num_nodes=5, nodes `1 0 0`, `2 0 0`, `3 1 1`, `4 3 3`, `5 3 3`: node 3 names itself and `slowcalc` indexes `b` out of bounds | check that a value names a node one level down with the right number of values | not executed | TreeFindings.LevelUncheckedAsWritten | RuleTrees.LoadEvaluable |
| ruletreealgo.cpp:171-192 | the final checks pass for a file with no node lines, and `base` is then read from an empty `noff` | the lines `num_neighbors=999` and `num_nodes=0` | reject a file with bad basic values or no last node | not executed | TreeFindings.EmptyAsWritten | TreeFindings.EmptyCheckedRejects |
