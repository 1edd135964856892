# Earley chart parser, modelled in Dafny

This project models the Earley recogniser and tree builder of
`earley-parser.py`. A grammar is a list of rules `head → body`. The parser
object keeps a chart: one column of states per token boundary.

`parse` works as follows:

- it seeds column 0 with the augmented rule `γ → • S`;
- it visits every column in turn, entry by entry, while the column grows;
- for each entry it predicts, scans or completes;
- it accepts when `γ → S •` begun at 0 is in the last column;
- it rebuilds a parse tree from the first complete `S` state there that matched
  at least one symbol.

The files follow the source's structure:

- `grammar.dfy` (module `Grammar`): `Rule`, `State`, `next_symbol`,
  `is_complete`, the nonterminal test, and the constants `γ` and `S`.
- `chart.dfy` (module `EarleyChart`): `_add_to_chart` as a function on chart
  values. It also holds:
  - the chart invariant that every insertion keeps: no repeats in a column,
    `len(backpointers) == dot <= |body|`, `start <=` column, and spans that
    tile [start, column];
  - every matched symbol backed by a complete state or a token;
  - the closure predicates of a finished chart;
  - the finite universe of states per column that bounds the growing loops.
- `steps.dfy` (module `EarleySteps`): `complete`, `predict` and the parse
  worklist, written as functions on chart values. Each one is specified, and
  lemmas say what the resulting charts contain.
- `tree.dfy` (module `Tree`): `ParseTree`, `_build_tree`, and the round trip
  "the leaves of a rebuilt tree are the tokens its state spans".
- `parser.dfy` (module `Parser`): the class `EarleyParser`, whose `chart` field
  the methods update in place. The loops are those of the source:
  - `complete` re-reads the length of a column it may be appending to;
  - `predict` runs over the rules;
  - `parse` has nested `for i` / `while j < len(chart[i])` loops.

  Each method is proved to leave exactly the chart that a function on chart
  values describes: `EarleyChart.Added` for `AddToChart` and `Scan`, and the
  matching function of `EarleySteps` for the others.

Termination of the growing loops needs no fuel. A column never holds two equal
states, and every state it holds lies in a finite set: a rule, a dot within
the body, a start within [0, column] and spans within [0, column]. So a column
is never longer than that set is large.

## Model

| member | source | states |
|---|---|---|
| Grammar.State.NextSymbol | earley-parser.py:24-29 | the next symbol exists exactly when `dot < len(body)`, and then it is `body[dot]` |
| Grammar.State.IsComplete | earley-parser.py:31-33 | a state is complete exactly when it has no next symbol |
| Grammar.Initial | earley-parser.py:113 | a predicted state has the rule, dot 0, the given start and no backpointers; it is complete exactly when the body is empty |
| Grammar.Advance | earley-parser.py:126-131 | the advanced state keeps rule and start, has `dot + 1`, and has the old backpointers followed by the new span; it is complete exactly when `dot + 1` reaches the body's end |
| Grammar.Expands | earley-parser.py:191 | the parse loop predicts exactly when the state is incomplete and the symbol after the dot is a nonterminal |
| Grammar.ScanMatches | earley-parser.py:122-124 | `scan` acts exactly when the state is incomplete, a token is left, and that token is non-empty and equals the symbol after the dot |
| Grammar.Accepting | earley-parser.py:208-209 | a state accepts exactly when it is a complete `γ` state begun at 0 |
| Grammar.TreeRoot | earley-parser.py:213-214 | a root is exactly a complete `S` state begun at 0 with at least one backpointer |
| EarleyChart.Added | earley-parser.py:146-151 | `_add_to_chart` leaves the chart unchanged when `pos` is out of range or `st` is already there; otherwise it only appends: other columns are unchanged; each column keeps its old entries as a prefix and gains at most one; `st` is in column `pos` afterwards when `pos` is in range; a column without repeats stays without repeats |
| EarleyChart.AddedIdempotent | earley-parser.py:146-151 | adding the same state twice is the same as adding it once |
| EarleyChart.AddedAppends | earley-parser.py:150-151 | a state absent from column `pos` is appended at its end, and the column grows by exactly one |
| Parser.EarleyParser.AddToChart | earley-parser.py:146-151 | the method leaves exactly the chart `Added` describes, including the no-op when `pos >= len(chart)` |
| EarleyChart.AddedKeepsInv | earley-parser.py:146-151 | adding a well-shaped, justified state keeps the chart invariant |
| EarleyChart.EntryShape | earley-parser.py:126-131 | every stored state has `len(backpointers) == dot <= len(body)` and `start <=` its column; `start` equals the column when `dot == 0`; the first span begins at `start`, the last ends at the column, and consecutive spans meet |
| EarleyChart.ColumnDistinct | earley-parser.py:150-151 | no column holds two equal states |
| EarleyChart.InColumnShaped | earley-parser.py:140 | a stored state began no later than its column, so `chart[state.start]` is in range |
| EarleyChart.ColumnBounded | earley-parser.py:186-188 | a column is no longer than the finite set of states that fit it, which bounds the growing worklist |
| EarleyChart.PredictKeepsInv | earley-parser.py:111-114 | adding `State(rule, 0, position, ())` for a rule of a nonterminal keeps the invariant |
| EarleyChart.SeedKeepsInv | earley-parser.py:182-183 | adding the seed `γ → • S` to column 0 keeps the invariant |
| EarleyChart.AdvanceShaped | earley-parser.py:142-143 | advancing the dot over a span from the end of the old spans keeps `len(backpointers) == dot` and the tiling of the spans |
| EarleyChart.ScanKeepsInv | earley-parser.py:120-132 | the advance made by `scan` keeps the invariant |
| EarleyChart.ScannedFits | earley-parser.py:126-131 | the scanned state has `dot + 1`, spans extended by `(position, position + 1)`, and is well shaped in column `position + 1` |
| EarleyChart.CompletedHeadIsNonterminal | earley-parser.py:141 | any head that a stored state waits for is a nonterminal, given a grammar whose bodies never mention `γ` |
| EarleyChart.CompleteKeepsInv | earley-parser.py:141-144 | adding the advance made by `complete` to column `position` keeps the invariant |
| EarleySteps.CompleteStep | earley-parser.py:141-144 | one turn of the `complete` loop only appends to column `position`: it adds the advance over `(state.start, position)` when the visited state waits for the head, and otherwise changes nothing |
| EarleySteps.CompleteStepKeeps | earley-parser.py:141-144 | one turn of the `complete` loop keeps the invariant, changes only column `position`, and advances the visited entry when it waits for the head |
| EarleySteps.CompleteFrom | earley-parser.py:134-144 | `complete` keeps the invariant and only appends to column `position`, even when it walks the column it appends to |
| EarleySteps.CompleteFromClosed | earley-parser.py:140-144 | after `complete`, every state of column `state.start` waiting for the head has its advance in column `position`, including states appended during the loop |
| EarleySteps.CompleteFromAdds | earley-parser.py:140-144 | `complete` appends nothing but advances of states of column `state.start` waiting for the head |
| Parser.EarleyParser.Complete | earley-parser.py:134-144 | it is a no-op on an incomplete state; otherwise it leaves exactly `CompleteFrom`'s chart, closed under the state, with only advances appended |
| EarleySteps.PredictStep | earley-parser.py:112-118 | one prediction puts `State(rule, 0, position, ())` in the column, keeps the invariant, and touches only that column |
| EarleySteps.PredictFrom | earley-parser.py:106-118 | `predict` keeps the invariant and only appends to column `position` |
| EarleySteps.PredictFromClosed | earley-parser.py:111-114 | after `predict`, every rule whose head is the next symbol has its fresh state in the column |
| EarleySteps.PredictFromEpsilon | earley-parser.py:116-118 | an epsilon rule for the next symbol advances, over the empty span, every state that was in the column before `predict` began and waits for that symbol |
| EarleySteps.EpsilonCloses | earley-parser.py:116-118 | predicting an epsilon rule completes it at once, closing the column under it |
| EarleySteps.PredictFromAdds | earley-parser.py:111-118 | `predict` appends only fresh states for the next symbol and advances of states waiting for it |
| EarleySteps.PredictStepAdds | earley-parser.py:112-118 | one prediction appends only its fresh state and that state's epsilon advances |
| Parser.EarleyParser.Predict | earley-parser.py:106-118 | it is a no-op unless the next symbol is a nonterminal; otherwise it leaves exactly `PredictFrom`'s chart, with all rules predicted, epsilon advances made, and nothing else appended |
| Parser.EarleyParser.Scan | earley-parser.py:120-132 | it adds the advance over `(position, position + 1)` to the next column exactly when a token is left and it equals the non-empty next symbol; otherwise the chart is unchanged |
| EarleySteps.ProcessStep | earley-parser.py:189-196 | one turn of the worklist keeps the invariant and changes no column before the current one |
| EarleySteps.ProcessFrom | earley-parser.py:186-197 | the whole worklist keeps the invariant and only appends |
| EarleySteps.ProcessStepCloses | earley-parser.py:189-196 | after its turn, the visited entry is closed under predict or scan, or, when it is a complete state begun in an earlier column, under complete |
| EarleySteps.ProcessStepKeeps | earley-parser.py:187-197 | a turn keeps every earlier entry closed |
| EarleySteps.ProcessFromProcessed | earley-parser.py:186-197 | when the worklist ends, every entry of every column is closed in the sense of `ProcessStepCloses` |
| EarleySteps.Seeded | earley-parser.py:179-183 | the chart the loop starts from has `len(words) + 1` columns; column 0 holds just `γ → • S` begun at 0, and the others are empty |
| EarleySteps.EmptyChart | earley-parser.py:179 | there are `n` columns and each is empty |
| EarleySteps.ParseChart | earley-parser.py:179-197 | the finished chart has `len(words) + 1` columns, satisfies the invariant, and has the seed first in column 0 |
| EarleySteps.ParseChartProcessed | earley-parser.py:186-197 | every state of the finished chart is closed under its predict or scan step, and every complete state begun in an earlier column under its complete step: the step's results are in the chart |
| Parser.EarleyParser.ProcessEntry | earley-parser.py:189-196 | the dispatch on the visited entry leaves exactly `ProcessStep`'s chart |
| Parser.EarleyParser.Fill | earley-parser.py:179-197 | building the chart leaves exactly `ParseChart(rules, words)`, with `len(words) + 1` columns |
| Parser.Accept | earley-parser.py:207-225 | it accepts exactly when the last column holds `γ → S •` begun at 0; the root it returns is the first complete `S` state begun at 0 with a backpointer; when it accepts without a root, no such state exists |
| EarleySteps.AcceptedHasRoot | earley-parser.py:207-218 | on a non-empty input, an accepted chart always holds a root, so `(True, None)` happens only for the empty input |
| EarleySteps.RootAccepted | earley-parser.py:207-218 | on a non-empty input, a root in the last column of the finished chart means the input is accepted |
| Parser.EarleyParser.Outcome | earley-parser.py:207-225 | the verdict is as `Accept` states; the tree is `_build_tree` of the first root, labelled `S`, and its leaves are exactly the tokens |
| Parser.EarleyParser.Parse | earley-parser.py:174-225 | it builds `ParseChart(rules, words)`; it accepts exactly when the last column holds `γ → S •` begun at 0; a tree is returned exactly when accepted and a root exists, the tree is built from the first root, and its leaves are the tokens; on non-empty input, accepted iff a tree is returned |
| Tree.FirstComplete | earley-parser.py:164-168 | it finds the first complete state of the column with the given head and start, and returns none only when no such state exists |
| Tree.FirstIsWitness | earley-parser.py:164-168 | the search always succeeds for a nonterminal the invariant justifies, and its hit lies before the state being rebuilt |
| Tree.BuildTree | earley-parser.py:153-172 | the node is labelled with the rule's head; an epsilon rule gives a childless node; otherwise, on a chart satisfying the invariant, there is one child per body symbol, and child `j` is labelled with body symbol `j` |
| Tree.BuildChildren | earley-parser.py:158-172 | on a chart satisfying the invariant, there is exactly one child per remaining body symbol, in body order: child `j` is labelled with body symbol `i + j`, so no child is skipped |
| Tree.Child | earley-parser.py:160-170 | a body position gives at most one tree, labelled with its body symbol; it gives none exactly when the symbol is a nonterminal and the search of column `end_pos` finds no match (the skipped child) |
| Tree.TreeYield | earley-parser.py:153-172 | round trip: the leaves of the tree rebuilt from a complete state are exactly `words[start:position]` |
| Tree.ChildrenYield | earley-parser.py:158-172 | there is one child per remaining body symbol, and together their leaves are the tokens from the start of the first remaining span to the column |
| Tree.ChildYield | earley-parser.py:160-170 | each body position gives exactly one child, with the tokens of its span as leaves; a child is never skipped on a chart that satisfies the invariant |
| Tree.NodeChild | earley-parser.py:163-168 | a nonterminal position gets the tree of the complete state that the search of column `end_pos` finds first, and that state lies before the current one |
| Tree.LeafChild | earley-parser.py:169-170 | a terminal position gets a leaf for the one token its span covers |
| Parser.EarleyParser.constructor | earley-parser.py:85-88 | a new parser holds the given rules and an empty chart |

## Left out

- `from_file` and `main`: file I/O, `sys.exit` and interactive input have no
  counterpart here.
- `print` diagnostics: output only, with no effect on the chart or the result.
- `__str__` of `Rule`, `State` and `ParseTree`: display formatting only.
- Grammar-text parsing in `__init__`: the model takes the rules as a
  `seq<Rule>`. It depends on the `split`/`strip` semantics and on
  `ValueError`-driven skipping.
- Whitespace tokenisation `sentence.split()`: the model takes the tokens as a
  `seq<string>`.
- `str.isupper()`: modelled as "the first character is an ASCII capital".
  Unicode letter classes are not modelled. The empty symbol is never a
  nonterminal, as with the source's `next_symbol and ...` guards.
- Parse: requires that no rule body mentions the reserved head `γ`. So do
  `Fill`, `ParseChart`, `ProcessFrom`, `ProcessStep`, `PredictFrom`,
  `PredictStep` and `CompleteFrom`, and, through `Valid`, `Predict`,
  `Complete` and `ProcessEntry`. Without this, a rule such as `S → γ` together with `S → ε` makes the chart for the
  empty input hold `S → γ •` with a span `(0, 0)`. `_build_tree` then reads
  `words[0]` and fails, and tree leaves need not equal the tokens.
- Parse: does not claim completeness, i.e. that every sentence the grammar
  derives is accepted. A complete state derived in its own column, such as
  `A → B •` begun at column 0 and ending there, is completed only once, when
  the worklist reaches it. States that are added to that column later and
  wait for its head are never advanced over it. Only epsilon-rule states
  themselves are completed again, each time `predict` predicts them. Take the
  grammar `S → A C`, `C → A x`, `A → B`, `B → ε` and the input `x`.
  `A → B •` is completed in column 0 before `C → • A x` is predicted there,
  so `C → A • x` is never made.
  - What is proved instead: the finished chart is closed under prediction,
    under scanning, and under completion of every complete state begun in an
    earlier column (`CompleteClosed`, `ParseChartProcessed`).
  - Soundness of every stored state is part of the invariant.
- `_build_tree` is modelled as the function `BuildTree`. It takes the chart
  value plus the column and index of the state, not the state object. The
  index is the termination measure of the recursion. The "missing child is
  skipped" branch is modelled (`Child` returns no tree). `BuildChildren` and
  `ChildYield` show that this branch is never taken on a chart satisfying the
  invariant.
