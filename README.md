# HowNet word similarity, modelled in Dafny

`hownet.py` scores how similar two Chinese words are from their HowNet definitions, in the
style of Liu Qun and Li Sujian's measure. Each sense of a word is one glossary line
`word pos definition`. The definition is a comma-separated list of *atoms*:

- sememes (`human|人`);
- concrete words in parentheses;
- relational atoms `name=value`;
- atoms carrying a logic marker (`~`, `^`) or a relation symbol (`# % $ * + & @ ? !`).

A definition wrapped in braces marks a function word. Sememes form a taxonomy: every
sememe has a parent, and a top sememe is its own parent. Two sememes score
`alpha / (d + alpha)`, where `d` is the number of steps to their nearest common ancestor.
Lists of atoms are matched greedily, pair by pair. Keyed collections are matched key by
key. A sense's four parts are combined by a weighted cascade of running products. Two words
score the highest score of any pair of their senses.

The model has one Dafny module per part of the program:

- `Text`: Python 2's byte-string `strip`, `split(c)`, `split(c, 1)`, `split(None, 2)` and the
  slice `[1:-1]`, with the properties the parser relies on.
- `Atoms`: the `Atom` record. `Atom.parse` is a step-by-step method proved equal to a parse
  function. `Atom.__str__` is that function's inverse on printable atoms: parsing the text
  between its quotes gives the atom back. An atom is printable when its markers are valid,
  it has no relation name, its `eng` is non-empty, holds no `|`, has no whitespace at either
  end and does not start with a marker or `(`, and its `chi`, if any, is likewise non-empty,
  free of `|` and unspaced at both ends. Other atoms need not read back: `a|` parses with an
  empty `chi`, which `__str__` leaves out, so its spelling `a` parses without one.
- `Words`: the `Word` class and its `add_*` methods, which update its lists and dictionaries
  in place. `Primitive.parse_word` is a method holding the source's loop over `parts_r`. It
  is proved against a parse function of the whole line, and that function is related to the
  comma-separated pieces of the definition.
- `Taxonomy`: `is_top`, `get_parents` (a loop, proved equal to a chain function) and
  `similar`, with its bounds, its symmetry and the nearest-common-ancestor property.
- `Similarity`: `similar_inner`, `similar_list`, `similar_map`, `_similar_word` and
  `similar_word`. The loops of `similar_list` and `similar_map`, and the straight-line method
  for `_similar_word`, are proved equal to specification functions. The loops of `similar_word` are proved to return
  the maximum of the sense scores: an upper bound of all of them that one of them attains.
  The ranges and edge values of the specification functions are proved as lemmas.
- `Lexicon`: the glossary half of `Primitive.init`. Each line is stripped and parsed, and its
  sense is appended to its headword's list. This is proved equal to a fold. The fold keeps, for
  every headword, exactly the senses of its lines, in line order.

`Wrappers` holds the `Option` and `Result` types. Every `IndexError` the parser can raise
becomes a `ParseError`:

- `EmptyToken`: an atom's text is empty.
- `TooFewTokens`: a line has fewer than three whitespace-separated tokens.
- `MissingValue`: a relational field in parentheses loses its only `=` when its first and
  last characters are dropped, as in `(name=`.

## Model

| member | source | states |
|---|---|---|
| Text.Strip | hownet.py:187 | `strip()` never lengthens its input, and the result neither starts nor ends with whitespace |
| Text.StripParts | hownet.py:187 | the input is some whitespace, then `strip()`'s result, then more whitespace: nothing else is removed |
| Text.StripKeepsFirst | hownet.py:187-190 | a definition that starts with a non-whitespace byte keeps that byte first after `strip()`, so the test `parts[0] == '{'` is well defined |
| Text.Split | hownet.py:49 | `split(c)` yields at least one piece; the first piece is the text before the first `c`; without a `c` the string is the only piece |
| Text.SplitJoin | hownet.py:49 | `split` loses nothing: joining the pieces with the separator gives back the string |
| Text.SplitPiecesLack | hownet.py:49 | no piece of `split(c)` contains `c` |
| Text.SplitOnce | hownet.py:194 | `split(c, 1)` gives two pieces exactly when `c` occurs, and then the string is piece, `c`, piece with no `c` in the first piece; otherwise it gives the string itself |
| Text.SplitStrip | hownet.py:194-219 | stripping the definition before splitting it on `,` does not change the stripped pieces |
| Text.Inner | hownet.py:38 | `s[1:-1]` is what lies between the first and last characters, and is empty for strings shorter than two |
| Text.SplitHeader | hownet.py:183-187 | `split(None, 2)` with three pieces: the pieces are non-empty and the third does not start with whitespace |
| Text.SplitHeaderTokens | hownet.py:183-185 | the headword and the tag hold no whitespace |
| Text.TokensFrom | hownet.py:156 | reference definition of `split()`: the maximal runs of non-whitespace bytes, in order; every token is non-empty and holds no whitespace |
| Text.SplitHeaderIsTokens | hownet.py:183-187 | `split(None, 2)` fails exactly when `split()` gives fewer than three tokens; otherwise its first two pieces are the first two tokens and `split()` of its third piece gives exactly the remaining tokens |
| Text.SplitHeaderParts | hownet.py:183-187 | the line is leading whitespace, the headword, non-empty whitespace, the tag, non-empty whitespace, then the third piece: the cuts fall on whitespace only |
| Atoms.AtomOf | hownet.py:35-53 | the parse fails, with `EmptyToken` only, on an empty text; a parsed atom is concrete exactly when so requested or its text starts with `(`, has valid markers, no relation name, and no `\|` in `eng` or `chi` |
| Atoms.WithLogic | hownet.py:41-53 | after the concrete check, the parse keeps the concrete flag, reads valid markers, and fails only with `EmptyToken` |
| Atoms.WithSymbol | hownet.py:45-53 | after the logic marker, the parse keeps that marker and the concrete flag, and fails only with `EmptyToken` |
| Atoms.WithNames | hownet.py:49-53 | `eng` and `chi` hold no `\|`, and `chi` is set exactly when the text holds a `\|` |
| Atoms.NamesKeepTwo | hownet.py:49-53 | only the first two `\|`-pieces are read: in `x\|y\|z` with no `\|` in `x` or `y`, `eng` is stripped `x`, `chi` is stripped `y`, and `z` is dropped |
| Atoms.ParseAtom | hownet.py:35-53 | the step-by-step `Atom.parse` on a fresh atom, its last step being the `\|`-split of `ReadNames`, returns exactly the parse function's result, error included |
| Atoms.Spelling | hownet.py:56-71 | definition of the text `__str__` puts between its quotes: `name=` for a non-empty relation name, the markers, `eng`, `\|chi` for a non-empty `chi`, in parentheses when concrete; its meaning is given by `Atoms.SpellingRoundTrip` |
| Atoms.StrRoundTrip | hownet.py:55-73 | for a printable atom, the text between the quotes of `__str__` parses back to the atom |
| Atoms.SpellingRoundTrip | hownet.py:35-73 | for every printable atom (`Atoms.Printable`, defined above), parsing its spelling gives the atom back (round trip) |
| Atoms.BodyRead | hownet.py:41-53 | an atom's markers and names, parsed with its own concrete flag, give the atom back |
| Atoms.WrappedRead | hownet.py:37-39 | unspaced text in parentheses is read as concrete, with only the parentheses dropped |
| Atoms.ConcreteUnwrapped | hownet.py:37-39 | parsing the spelling of a concrete atom drops exactly the parentheses `__str__` added |
| Atoms.LogicRoundTrip | hownet.py:41-43 | the logic marker `__str__` writes is read back, and nothing else is consumed with it |
| Atoms.LogicConsumed | hownet.py:41-43 | a logic marker is consumed alone |
| Atoms.NoLogic | hownet.py:41-43 | without a logic marker the parse goes straight on to the relation symbol |
| Atoms.SymbolRoundTrip | hownet.py:45-47 | the relation symbol `__str__` writes is read back, and nothing else is consumed with it |
| Atoms.SymbolConsumed | hownet.py:45-47 | a relation symbol followed by unspaced text is consumed alone |
| Atoms.NoSymbol | hownet.py:45-47 | without a relation symbol the parse goes straight on to the names |
| Atoms.NamesRoundTrip | hownet.py:49-53 | `eng\|chi` as `__str__` writes it is read back as `eng` and `chi` |
| Atoms.TailSplit | hownet.py:64-67 | `eng\|chi` splits on `\|` into exactly `eng` and `chi` |
| Atoms.SpellingLacks | hownet.py:55-73 | for an atom without a relation name, a character missing from its markers and names, and not a parenthesis, is missing from its spelling |
| Atoms.RelationalSpelling | hownet.py:57-58 | a relational atom is spelled as its name, `=`, then its markers and names, in parentheses when concrete |
| Words.SlotOf | hownet.py:94-101 | an atom with a relation name goes to the relational map under that name; otherwise one with a relation symbol goes to the symbol map under its logic marker (if any) followed by the symbol; every other atom goes to the other primitives |
| Words.SelectSnoc | hownet.py:94-116 | filing one more atom appends it to its own slot and to no other |
| Words.SelectNone | hownet.py:94-116 | a slot no atom is filed into stays empty |
| Words.SelectSound | hownet.py:94-116 | a slot holds only atoms filed into that slot |
| Words.SelectComplete | hownet.py:94-116 | every atom added is found in the slot it was filed into |
| Words.GroupedSnoc | hownet.py:106-116 | filing one more atom into a map touches only its own key |
| Words.GroupedIsSelect | hownet.py:106-116 | each map lists, under each key, exactly the atoms filed under that key, in order, and has the key exactly when that list is non-empty |
| Words.Word.constructor | hownet.py:78-92 | a new sense has empty headword and tag, is not a function word, and has no primitives |
| Words.Word.AddOtherPrimitive | hownet.py:103-104 | appends the atom to the other primitives |
| Words.Word.AddRelationalPrimitive | hownet.py:106-110 | appends the atom to the key's list, creating the list when the key is absent; other keys are unchanged |
| Words.Word.AddSymbolPrimitive | hownet.py:112-116 | as above, for the symbol map |
| Words.Word.AddPrimitive | hownet.py:94-101 | files the atom into exactly the collection its slot names; the other two are unchanged; a sense that held atoms `added` then holds `added + [a]` |
| Words.Word.Label | hownet.py:184-191 | sets the headword, the tag and the kind, so that the sense holds the parsed line |
| Words.Segments | hownet.py:194-221 | the fields the loop visits from the pieces `parts_r`: at least one while pieces remain; which ones is given by `Words.FieldsAreStrippedPieces` |
| Words.Fields | hownet.py:194-221 | the loop over `parts_r` visits at least one field |
| Words.FieldsAreStrippedPieces | hownet.py:194-221 | the loop visits every comma-separated piece of the definition once, stripped, in order |
| Words.FieldsCut | hownet.py:197-219 | the first field is the stripped text before the first comma; the loop goes on with the rest, stripped |
| Words.FieldAtom | hownet.py:203-213 | a field without `=` is read as a plain atom; a field with `=` becomes an atom with a relation name, and one without does not; which name and value are read is stated by `Words.FieldKeepsTwo`, `Words.WrappedFieldKeepsTwo` and `Words.RelationNameIsEng` |
| Words.ParseField | hownet.py:203-213 | the step-by-step reading of a later field returns exactly `FieldAtom`'s result, error included |
| Words.PlainFieldRoundTrip | hownet.py:203-213 | a later field spelled by `__str__` without `=` is read back as the atom |
| Words.RelationalRoundTrip | hownet.py:203-211 | the field `name=value` that `__str__` spells for a relational atom is read back as that atom |
| Words.FieldKeepsTwo | hownet.py:203-213 | only the first two `=`-pieces of a field are read: `x=y=z`, with no `=` in `x` or `y` and no leading `(`, is `y` parsed and named by the `eng` of `x` parsed, with that error order, and `z` is dropped |
| Words.WrappedFieldKeepsTwo | hownet.py:203-213 | the same for `(x=y=z)` with no whitespace at its inner ends: the value `y` is read as concrete and `z` is dropped |
| Words.RelationNameIsEng | hownet.py:203-213 | the relation name is the `eng` of the atom the name spells, without its markers or `\|chi`: `~host=value=...` names the relation `host` |
| Words.FieldOfPair | hownet.py:203-211 | `name=value`, or `(name=value)` for a concrete value, is read as the value's atom with relation name `name` |
| Words.PairSplit | hownet.py:208 | `name=value` splits on `=` into the name and the value |
| Words.NameRead | hownet.py:209-211 | a relation tag is read as a plain atom whose `eng` is the tag itself |
| Words.ReadEach | hownet.py:196-221 | reading items one by one yields one result per item |
| Words.ReadEachPointwise | hownet.py:196-221 | when all items are read, each result is that item's own reading |
| Words.ReadEachAllParse | hownet.py:196-221 | all items are read when each of them is |
| Words.ReadEachStop | hownet.py:196-221 | once an item fails, the whole fails with that item's error |
| Words.ReadEachNext | hownet.py:196-221 | one more item either extends the results or decides the error of the whole |
| Words.Leading | hownet.py:199-215 | the first item is read by one rule and the others by another, one result each |
| Words.Steps | hownet.py:196-221 | the loop with its `first` flag, after `k` items, has read `k - 1` later items |
| Words.StepsLead | hownet.py:196-221 | the loop's first item and later items so far are those read by the two rules |
| Words.StepsStop | hownet.py:196-221 | a later item that fails in the loop makes the whole definition fail with its error |
| Words.StepsAll | hownet.py:196-221 | once the loop has read every item, its result is the first-then-later reading of all of them |
| Words.EntryOf | hownet.py:181-223 | a line without three whitespace-separated tokens fails with `TooFewTokens` |
| Words.FieldsDefinition | hownet.py:196-221 | a definition that parses has one later atom per field after the first |
| Words.DefinitionIsPieces | hownet.py:187-221 | a definition body parses exactly when its first stripped piece parses as a plain atom and every later stripped piece parses as a field; its atoms are then those of the pieces, one by one |
| Words.FieldsDefinitionPointwise | hownet.py:196-221 | a definition succeeds exactly when every field does, and its atoms are the fields' atoms |
| Words.NoBlankField | hownet.py:197-213 | in a definition that parses, no comma-separated piece is blank |
| Words.ParseWord | hownet.py:181-223 | `parse_word` fails exactly when the line's parse does, with the same error; otherwise it returns a new sense holding the parsed headword, tag, kind and atoms |
| Words.ParseSense | hownet.py:182-223 | after the header, the sense built is the parse of the definition, or the definition's error |
| Words.DefinitionParts | hownet.py:187-192 | the body is the stripped definition, with the braces dropped and the rest stripped again when it starts with `{`; that is also when the sense is a function word |
| Words.NextField | hownet.py:217-221 | one turn strips the first piece and splits the stripped rest once on `,`; the fields still to visit shrink |
| Words.FillField | hownet.py:196-220 | one turn makes the next field the first primitive or files it; a failing field is the definition's error |
| Words.FillDefinition | hownet.py:193-221 | the loop fails exactly when the definition does, with its error; otherwise the sense holds the first primitive and exactly the later atoms, each filed into its slot |
| Words.FillFields | hownet.py:196-221 | the `while` loop over `parts_r` reads every field in order, stopping at the first that fails |
| Taxonomy.Chain | hownet.py:237-253 | the walk from an id starts at that id and has at most one more element than its fuel |
| Taxonomy.IsTop | hownet.py:231-235 | definition: a node is top when it is its own parent; `Taxonomy.ParentsWalk` shows `get_parents` stops at the first such node |
| Taxonomy.ChainLinks | hownet.py:244-251 | every id of the walk is a node, each next id is the parent of the one before, and the walk stops at the first top node |
| Taxonomy.ChainFuel | hownet.py:248-251 | the walk depends only on the parent links, not on the fuel allowed |
| Taxonomy.ChainAt | hownet.py:248-251 | every suffix of a walk is the walk of its first id |
| Taxonomy.ChainDistinct | hownet.py:248-251 | a walk never visits the same id twice |
| Taxonomy.ChainsMerge | hownet.py:262-265 | two walks that meet go on together |
| Taxonomy.Parents | hownet.py:237-253 | reference definition of `get_parents`: empty exactly for an unknown tag, otherwise starting at the tag's id |
| Taxonomy.ParentsWalk | hownet.py:231-253 | `get_parents` is empty exactly for an unknown tag; otherwise it starts at the tag's id, climbs parent links and ends at the first top node |
| Taxonomy.GetParents | hownet.py:237-253 | the loop of `get_parents` returns exactly the tag's chain |
| Taxonomy.SharedFrom | hownet.py:262-263 | the first position of the first chain whose id is in the second, or none when no id is shared |
| Taxonomy.IndexOf | hownet.py:264 | `l.index(x)` is the first position of `x` |
| Taxonomy.Steps | hownet.py:262-264 | the distance the loop of `similar` finds: none exactly when the chains share no id |
| Taxonomy.Score | hownet.py:265-267 | `alpha / (d + alpha)` lies in (0, 1] and is 1 exactly at distance 0 |
| Taxonomy.Similar | hownet.py:255-267 | `similar` lies in (0, 1] |
| Taxonomy.SimilarUnknown | hownet.py:266-267 | an unknown tag is at the default distance 20 from every tag, itself included |
| Taxonomy.StepsEmpty | hownet.py:262-267 | an empty chain shares nothing, so it falls to the default distance |
| Taxonomy.SimilarOne | hownet.py:255-267 | two known tags score 1 exactly when they name the same sememe |
| Taxonomy.SimilarSelf | hownet.py:255-267 | a known tag scores 1 against itself |
| Taxonomy.StepsNearest | hownet.py:262-265 | the first shared id found is the nearest common ancestor: no shared id lies fewer steps away |
| Taxonomy.StepsBound | hownet.py:262-265 | scanning the other chain first finds a shared id at no more steps |
| Taxonomy.StepsSymmetric | hownet.py:262-265 | the steps do not depend on which chain is scanned first |
| Taxonomy.SimilarSymmetric | hownet.py:255-267 | `similar(a, b) == similar(b, a)` |
| Similarity.SimilarInner | hownet.py:309-326 | the atom score lies in [0, 1] |
| Similarity.SimilarInnerSymmetric | hownet.py:309-326 | the atom score does not depend on the order of the atoms |
| Similarity.SimilarInnerSelf | hownet.py:309-326 | an atom scores 1 against itself when it is concrete or its tag is known, and the default-distance score otherwise |
| Similarity.RowBestSpec | hownet.py:346-351 | the inner scan keeps or strictly improves the best so far, and every pair in play from the scan's start scores no more than the result |
| Similarity.TableBestSpec | hownet.py:345-351 | the same for the outer scan, with pairs taken row by row |
| Similarity.BestPairIsFirstMax | hownet.py:342-351 | one round picks the first pair in play, row by row, with the highest score, provided it scores above 0; otherwise it picks nothing and scores 0 |
| Similarity.GreedyBounds | hownet.py:342-356 | each greedy round adds a score in [0, 1] |
| Similarity.Greedy | hownet.py:342-356 | reference definition of the rounds of `similar_list`: each round adds the best pair's score and removes that pair; bounded by `Similarity.GreedyBounds` |
| Similarity.ListSimilarity | hownet.py:329-358 | reference definition of `similar_list`; its range and edge values are `Similarity.ListSimilarityBounds` |
| Similarity.ListSimilarityBounds | hownet.py:329-358 | the list score lies in [0, 1]; it is 1 for two empty lists and `delta` when exactly one list is empty |
| Similarity.FractionBounds | hownet.py:358 | the closing formula of `similar_list` lies in [0, 1] and is `delta` when no round was played |
| Similarity.ScanRow | hownet.py:346-351 | the loop `for atom2 in l2` computes the inner scan |
| Similarity.ScanTable | hownet.py:345-351 | the loop `for atom1 in l1` computes the round's best pair |
| Similarity.SimilarList | hownet.py:329-358 | `similar_list`, with its rounds and removals, returns the list score |
| Similarity.ScoresBounds | hownet.py:371-375 | every key of the first map contributes a score in [0, 1], and nothing when the second map lacks it |
| Similarity.TotalRemove | hownet.py:371-375 | a sum over keys can take any key first |
| Similarity.TotalBounds | hownet.py:371-377 | scores in [0, 1] that are zero off the shared keys add up to at most the number of shared keys |
| Similarity.SharedCount | hownet.py:370-375 | the number of shared keys is at most the size of either map |
| Similarity.SharedTotal | hownet.py:369-377 | the shared scores lie between 0 and the shared count, and are 0 for disjoint maps |
| Similarity.MapSimilarity | hownet.py:361-377 | reference definition of `similar_map` over the unordered set of keys; its range and edge values are `Similarity.MapSimilarityBounds` and `Similarity.MapSimilarityDisjoint` |
| Similarity.MapSimilarityIs | hownet.py:361-377 | for maps not both empty, the denominator is positive and the score is the closing formula over the shared scores |
| Similarity.SharedBelow | hownet.py:377 | the denominator `total - count` is positive unless both maps are empty |
| Similarity.MapSimilarityBounds | hownet.py:361-377 | the map score lies in [0, 1], and is 1 for two empty maps |
| Similarity.BoundedShares | hownet.py:377 | shared scores within bounds give a map score in [0, 1] |
| Similarity.MapSimilarityDisjoint | hownet.py:361-377 | two maps with no key in common, not both empty, score `delta` |
| Similarity.NoShares | hownet.py:377 | with no shared key the closing formula gives `delta` |
| Similarity.MapFraction | hownet.py:377 | the closing formula lies in [0, 1] and is `delta` with no shared key |
| Similarity.CountStep | hownet.py:373-375 | visiting one more key raises the count by one exactly when the second map has that key |
| Similarity.OrderIrrelevant | hownet.py:371-375 | whatever order the dictionary yields its keys in, the loop's sum and count are the unordered sum and the number of shared keys |
| Similarity.SumShared | hownet.py:369-375 | the loop over `m1.items()` adds up the list scores of the shared keys and counts them |
| Similarity.AllVisited | hownet.py:371-375 | once every key is visited, each once, the loop's sum and count are final |
| Similarity.SimilarMap | hownet.py:361-377 | `similar_map` returns the map score |
| Similarity.Cascade | hownet.py:396-405 | the running products of `_similar_word` give the weighted score |
| Similarity.WeightedBounds | hownet.py:396-407 | with four scores in [0, 1], the weighted score lies between `beta1 * p` and `p`, and is 1 when all four are 1 |
| Similarity.ProductsShrink | hownet.py:396-405 | each factor in [0, 1] shrinks the running product |
| Similarity.WeightsAddUp | hownet.py:295-302 | the four weights add up to exactly 1, so a non-increasing run of terms weighted by them lies between `beta1` times its first term and its first term |
| Similarity.SenseSimilarityBounds | hownet.py:380-407 | a sense score lies in [0, 1]; senses of the same kind score between `beta1` times and once the score of their first primitives |
| Similarity.SenseSimilarity | hownet.py:380-407 | reference definition of `_similar_word`: 0 across kinds, else the weighted cascade; its range is `Similarity.SenseSimilarityBounds` |
| Similarity.SimilarSense | hownet.py:380-407 | `_similar_word` returns the sense score: 0 across kinds, else the weighted cascade |
| Similarity.SimilarRow | hownet.py:414-417 | the inner loop's maximum bounds every score of the row, and is the start value or one of them |
| Similarity.SimilarWord | hownet.py:409-419 | no result exactly when a word is unknown or has no senses; otherwise the result bounds the score of every pair of senses and is the score of one of them |
| Lexicon.File | hownet.py:175-178 | the headword's list is created when new and the sense appended; no other headword changes |
| Lexicon.GatherNext | hownet.py:172-178 | one more line files its sense last |
| Lexicon.GatherIsSensesFor | hownet.py:172-178 | the loaded lexicon lists, for every headword, the senses of exactly its lines, in line order, and has the headword exactly when that list is non-empty |
| Lexicon.SensesForSome | hownet.py:172-178 | a headword has senses exactly when some line has that headword |
| Lexicon.GlossaryWords | hownet.py:169-178 | a loaded lexicon knows a headword exactly when some line has it, never lists a headword with no senses, and lists that headword's senses in line order |
| Lexicon.Glossary | hownet.py:169-178 | reference definition of the glossary load: the first failing line's error, or the fold of all parsed lines; its content is `Lexicon.GlossaryWords` |
| Lexicon.ReadLine | hownet.py:173 | `parse_word(line.strip())` gives the line's headword and sense, or the line's error |
| Lexicon.LoadLine | hownet.py:172-178 | one turn of the loading loop either extends the lexicon with the line's sense or yields the error of the whole load |
| Lexicon.LoadGlossary | hownet.py:169-178 | the loading loop returns the error of the first line that does not parse, or the lexicon of all the lines |

## Left out

- File I/O and the class-level caches of `Primitive.init` (hownet.py:146-178, 269): the
  glossary lines are a parameter of `Lexicon.LoadGlossary`, and the taxonomy is a parameter
  of every similarity operation. The `is None` guards are not modelled: each load runs once.
- Loading `WHOLE.DAT` (hownet.py:154-167): decimal `int()` parsing of ids and the `eng|chi`
  split of each taxonomy line are not modelled. The taxonomy is given as two maps, id to node
  and English tag to id.
- `print_list`, `Word.__str__` and the `WordType` table (hownet.py:4-15, 118-136, 271-291):
  they only format or are never read by the similarity code.
- The `__main__` demonstration (hownet.py:421-458): it only prints results.
- Floating point: scores are exact reals, so rounding is not modelled.
- `copy.deepcopy` and `list.remove` in `similar_list`: the working copies are the original
  lists with a set of removed positions. `Atom` defines no `__eq__`, so `remove` compares by
  identity. Every atom `parse_word` builds is a distinct object, so `remove` takes out exactly
  the picked element, and the others keep their order. Marking the picked position removed
  gives the same remaining elements in the same order. Lists that hold one atom object twice
  are not modelled: `parse_word` never builds them.
- Dictionary iteration order in `similar_map`: it is a ghost `order`, and
  `Similarity.OrderIrrelevant` shows that the result does not depend on it.
- Aliasing: the lexicon keeps a `Sense` value, a snapshot of each parsed `Word`, rather than
  the object itself. Nothing changes a `Word` after loading.
- Taxonomy.GetParents: requires `Forest` (every known tag's parent links reach a top node
  and every id is a node). On other data the source loops forever or raises an error. The
  walk carries a fuel bound of the number of nodes, which `Forest` makes sufficient.
- Similarity.SimilarSense: the first primitives are always compared through the taxonomy
  by their English tags, even when concrete, as `_similar_word` does (hownet.py:388). The
  comment on `gamma` (hownet.py:303) suggests concrete words get their own rule, but the
  code applies that rule only inside `similar_inner`, so the model follows the code.
- Words.ParseWord: the headword, tag and kind are set only once the definition has parsed,
  whereas the source sets them first. On failure the source raises, so nothing observes the
  difference.
- Words.Fields: its contract only says there is at least one field. Which fields there are
  is stated by `Words.FieldsAreStrippedPieces`.
- Similarity.SimilarList: symmetry is not claimed for list, map or word scores. The greedy
  tie-breaking (first pair found wins) makes them depend on argument order.
- Similarity.SimilarInnerSelf: self-similarity 1 holds only for concrete atoms and known
  tags. An unknown tag scores `alpha / (20 + alpha)` against itself, as the source does.
- Error values: the source raises `IndexError` for an empty atom, a short line and a
  parenthesised relational field whose `=` was its last character. The model returns those as `ParseError` values
  and does not model exception propagation further.
