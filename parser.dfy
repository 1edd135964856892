/**
 * The Earley parser object of earley-parser.py: its state is the rule list and
 * the chart, a sequence of columns that `parse` rebuilds and the three Earley
 * steps append to in place. Each method is proved to leave the chart that the
 * matching function of EarleySteps describes.
 */
module Parser {
  import opened Grammar
  import opened EarleyChart
  import opened EarleySteps
  import opened Tree

  class EarleyParser {
    const rules: seq<Rule>
    var chart: Chart

    /** A parser over already-split rules, with an empty chart. */
    constructor (rules: seq<Rule>)
      ensures this.rules == rules && chart == []
    {
      this.rules := rules;
      chart := [];
    }

    /** The object invariant while parsing `words`. */
    ghost predicate Valid(words: seq<string>)
      reads this
    {
      ReservedFree(rules) && Inv(chart, rules, words)
    }

    /** `_add_to_chart`: append `st` to column `pos` unless out of range or already there. */
    method AddToChart(st: State, pos: nat)
      modifies this
      ensures chart == Added(old(chart), st, pos)
    {
      if pos >= |chart| {
        return;
      }
      if st !in chart[pos] {
        chart := chart[pos := chart[pos] + [st]];
      }
    }

    /**
     * `scan`: when the next token equals the state's next symbol, add the state
     * advanced over that token to the next column.
     */
    method Scan(x: State, k: nat, words: seq<string>)
      modifies this
      ensures chart == if ScanMatches(x, k, words) then Added(old(chart), Advance(x, Span(k, k + 1)), k + 1) else old(chart)
    {
      if ScanMatches(x, k, words) {
        AddToChart(Advance(x, Span(k, k + 1)), k + 1);
      }
    }

    /**
     * `complete`: for a complete `x` in column `k`, advance over (x.start, k)
     * every state of column `x.start` that waits for the head of `x`. When
     * `x.start == k` that column is the one being appended to, and the loop
     * also visits what it appends.
     */
    method Complete(x: State, k: nat, ghost words: seq<string>)
      requires Valid(words) && k < |chart| && x in chart[k]
      modifies this
      ensures x.IsComplete() ==> chart == CompleteFrom(old(chart), rules, words, x, k, 0)
      ensures !x.IsComplete() ==> chart == old(chart)
      ensures Valid(words) && GrowsOnly(old(chart), chart, k)
      ensures x.IsComplete() ==> CompletedInto(chart, x, k)
      ensures x.IsComplete() ==> NewAdvanced(old(chart), chart, x.start, x.rule.head, k)
    {
      if !x.IsComplete() {
        return;
      }
      ghost var c0 := chart;
      InColumnShaped(chart, rules, words, k, x);
      var m := 0;
      while m < |chart[x.start]|
        invariant Valid(words) && |chart| == |c0| && x in chart[k]
        invariant CompleteFrom(chart, rules, words, x, k, m) == CompleteFrom(c0, rules, words, x, k, 0)
        decreases |Universe(rules + [StartRule], x.start)| - m
      {
        ColumnBounded(chart, rules, words, x.start);
        CompleteStepKeeps(chart, rules, words, x, k, m);
        CompleteFromUnfold(chart, rules, words, x, k, m);
        ghost var before := chart;
        var s := chart[x.start][m];
        if Waits(s, x.rule.head) {
          AddToChart(Advance(s, Span(x.start, k)), k);
        }
        assert chart == CompleteStep(before, x, k, m);
        m := m + 1;
      }
      CompleteFromClosed(c0, rules, words, x, k, 0);
      CompleteFromAdds(c0, rules, words, x, k, 0);
    }

    /**
     * `predict`: when the next symbol of `x` is a nonterminal, add a fresh
     * state for each of its rules to column `k`, in rule order, and complete an
     * epsilon rule on the spot.
     */
    method Predict(x: State, k: nat, ghost words: seq<string>)
      requires Valid(words) && k < |chart|
      modifies this
      ensures Expands(x) ==> chart == PredictFrom(old(chart), rules, words, x, k, 0)
      ensures !Expands(x) ==> chart == old(chart)
      ensures Valid(words) && GrowsOnly(old(chart), chart, k)
      ensures PredictClosed(chart, rules, k, x)
      ensures Expands(x) && HasEpsilonRule(rules, x.NextSymbol().value) ==>
        forall p :: 0 <= p < |old(chart)[k]| && Waits(old(chart)[k][p], x.NextSymbol().value) ==>
          Advance(old(chart)[k][p], Span(k, k)) in chart[k]
      ensures Expands(x) ==> forall n :: |old(chart)[k]| <= n < |chart[k]| ==>
        Predicted(rules, x, k, chart[k][n]) || AdvancedFrom(chart, k, x.NextSymbol().value, k, chart[k][n])
    {
      var next := x.NextSymbol();
      if !(next.Some? && IsNonterminal(next.value)) {
        return;
      }
      ghost var c0 := chart;
      for ri := 0 to |rules|
        invariant Valid(words) && |chart| == |c0|
        invariant PredictFrom(chart, rules, words, x, k, ri) == PredictFrom(c0, rules, words, x, k, 0)
      {
        PredictFromUnfold(chart, rules, words, x, k, ri);
        var r := rules[ri];
        if r.head == next.value {
          ghost var before := chart;
          var st := Initial(r, k);
          PredictKeepsInv(chart, rules, words, r, k);
          AddToChart(st, k);
          if r.body == [] {
            Complete(st, k, words);
          }
          assert chart == PredictStep(before, rules, words, k, ri);
        }
      }
      PredictFromClosed(c0, rules, words, x, k, 0);
      PredictFromAdds(c0, rules, words, x, k, 0);
      if HasEpsilonRule(rules, next.value) {
        var q :| 0 <= q < |rules| && rules[q].head == next.value && rules[q].body == [];
        PredictFromEpsilon(c0, rules, words, x, k, 0, q);
      }
    }

    /**
     * One turn of the loop of `parse`: predict, scan or complete entry `j` of
     * column `i`, by the next symbol of the state there.
     */
    method ProcessEntry(i: nat, j: nat, words: seq<string>)
      requires Valid(words) && i < |chart| && j < |chart[i]|
      modifies this
      ensures chart == ProcessStep(old(chart), rules, words, i, j)
      ensures Valid(words)
    {
      ghost var before := chart;
      var state := chart[i][j];
      if !state.IsComplete() {
        var next := state.NextSymbol();
        if next.Some? && IsNonterminal(next.value) {
          Predict(state, i, words);
        } else {
          if ScanMatches(state, i, words) {
            ScanKeepsInv(chart, rules, words, i, j);
          }
          Scan(state, i, words);
        }
      } else {
        assert state in chart[i];
        Complete(state, i, words);
      }
    }

    /**
     * The chart-building part of `parse`: one column per token boundary, the
     * seed `γ → • S` in column 0, then every column in turn, each visited
     * entry by entry while it grows.
     */
    method Fill(words: seq<string>)
      requires ReservedFree(rules)
      modifies this
      ensures chart == ParseChart(rules, words)
      ensures Valid(words) && |chart| == |words| + 1
    {
      chart := EmptyChart(|words| + 1);
      SeedKeepsInv(chart, rules, words);
      AddToChart(Initial(StartRule, 0), 0);
      for i := 0 to |words| + 1
        invariant Valid(words) && |chart| == |words| + 1
        invariant ProcessFrom(chart, rules, words, i, 0) == ParseChart(rules, words)
      {
        ghost var c0 := chart;
        var j := 0;
        while j < |chart[i]|
          invariant Valid(words) && |chart| == |words| + 1
          invariant ProcessFrom(chart, rules, words, i, j) == ParseChart(rules, words)
          decreases |Universe(rules + [StartRule], i)| - j
        {
          ColumnBounded(chart, rules, words, i);
          ProcessFromUnfold(chart, rules, words, i, j);
          ProcessEntry(i, j, words);
          j := j + 1;
        }
        ProcessFromNext(chart, rules, words, i, j);
      }
    }

    /**
     * `parse` over the tokens `words`: fill one column per token boundary from
     * the seed `γ → • S`, visiting each column's entries while it grows, then
     * accept when `γ → S •` begun at 0 is in the last column, and rebuild the
     * tree from the first complete `S` state there that matched something.
     */
    method Parse(words: seq<string>) returns (accepted: bool, tree: Option<ParseTree>)
      requires ReservedFree(rules)
      modifies this
      ensures chart == ParseChart(rules, words)
      ensures Valid(words) && |chart| == |words| + 1
      ensures accepted <==> exists m :: 0 <= m < |chart[|words|]| && Accepting(chart[|words|][m])
      ensures tree.Some? <==> accepted && exists w :: 0 <= w < |chart[|words|]| && TreeRoot(chart[|words|][w])
      ensures tree.Some? ==> exists w ::
        && 0 <= w < |chart[|words|]| && TreeRoot(chart[|words|][w])
        && (forall v :: 0 <= v < w ==> !TreeRoot(chart[|words|][v]))
        && tree.value == BuildTree(chart, rules, words, |words|, w)
      ensures tree.Some? ==> tree.value.symbol == StartSymbol && Yield(tree.value) == words
      ensures |words| > 0 ==> (accepted <==> tree.Some?)
    {
      Fill(words);
      accepted, tree := Outcome(words);
      ghost var hasRoot := exists w :: 0 <= w < |chart[|words|]| && TreeRoot(chart[|words|][w]);
      if |words| > 0 && !accepted && hasRoot {
        var w :| 0 <= w < |chart[|words|]| && TreeRoot(chart[|words|][w]);
        RootAccepted(rules, words, w);
      }
    }

    /**
     * The end of `parse`: accept when `γ → S •` begun at 0 is in the last
     * column, and rebuild the tree from the first complete `S` state begun at 0
     * there that matched something.
     */
    method Outcome(words: seq<string>) returns (accepted: bool, tree: Option<ParseTree>)
      requires Valid(words) && |chart| == |words| + 1
      ensures accepted <==> exists m :: 0 <= m < |chart[|words|]| && Accepting(chart[|words|][m])
      ensures tree.Some? <==> accepted && exists w :: 0 <= w < |chart[|words|]| && TreeRoot(chart[|words|][w])
      ensures tree.Some? ==> exists w ::
        && 0 <= w < |chart[|words|]| && TreeRoot(chart[|words|][w])
        && (forall v :: 0 <= v < w ==> !TreeRoot(chart[|words|][v]))
        && tree.value == BuildTree(chart, rules, words, |words|, w)
      ensures tree.Some? ==> tree.value.symbol == StartSymbol && Yield(tree.value) == words
      ensures |words| > 0 && accepted ==> tree.Some?
    {
      var n := |words|;
      var root;
      accepted, root := Accept(chart[n]);
      if root.Some? {
        tree := Some(BuildTree(chart, rules, words, n, root.value));
        TreeYield(chart, rules, words, n, root.value);
      } else {
        tree := None;
        if n > 0 && accepted {
          var m :| 0 <= m < |chart[n]| && Accepting(chart[n][m]);
          AcceptedHasRoot(chart, rules, words, m);
        }
      }
    }
  }

  /**
   * The acceptance test of `parse` over the last column: look for `γ → S •`
   * begun at 0, and on finding it look for the first complete `S` state begun
   * at 0 with at least one backpointer.
   */
  method Accept(col: seq<State>) returns (accepted: bool, root: Option<nat>)
    ensures accepted <==> exists m :: 0 <= m < |col| && Accepting(col[m])
    ensures root.Some? ==> accepted && root.value < |col| && TreeRoot(col[root.value])
    ensures root.Some? ==> forall w :: 0 <= w < root.value ==> !TreeRoot(col[w])
    ensures root.None? && accepted ==> forall w :: 0 <= w < |col| ==> !TreeRoot(col[w])
  {
    var m := 0;
    while m < |col|
      invariant m <= |col| && forall q :: 0 <= q < m ==> !Accepting(col[q])
    {
      var state := col[m];
      if Accepting(state) {
        var w := 0;
        while w < |col|
          invariant w <= |col| && forall q :: 0 <= q < w ==> !TreeRoot(col[q])
        {
          var s := col[w];
          if TreeRoot(s) {
            return true, Some(w);
          }
          w := w + 1;
        }
        return true, None;
      }
      m := m + 1;
    }
    return false, None;
  }
}
