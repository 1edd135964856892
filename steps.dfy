/**
 * The three Earley steps and the parse loop of earley-parser.py as functions on
 * chart values. The methods of the parser object are proved to leave exactly
 * these charts behind; the lemmas here say what the charts contain.
 */
module EarleySteps {
  import opened Grammar
  import opened EarleyChart

  /* ---------------------------------------------------------------- complete */

  /** One turn of the loop of `complete`: advance entry `m` of column `x.start` over (x.start, k) if it waits for the head of `x`. */
  ghost function CompleteStep(c: Chart, x: State, k: nat, m: nat): (r: Chart)
    requires x.start < |c| && m < |c[x.start]|
    ensures Extends(c, r) && forall q :: 0 <= q < |c| && q != k ==> r[q] == c[q]
    ensures Waits(c[x.start][m], x.rule.head) && k < |c| ==> Advance(c[x.start][m], Span(x.start, k)) in r[k]
    ensures !Waits(c[x.start][m], x.rule.head) ==> r == c
  {
    var s := c[x.start][m];
    if Waits(s, x.rule.head) then Added(c, Advance(s, Span(x.start, k)), k) else c
  }

  /** Every entry of column `x.start` before `m` that waits for the head of `x` has its advance in column `k`. */
  ghost predicate AdvancedUpTo(c: Chart, x: State, k: nat, m: nat)
  {
    x.start < |c| && k < |c| &&
    forall p :: 0 <= p < m && p < |c[x.start]| && Waits(c[x.start][p], x.rule.head) ==>
      Advance(c[x.start][p], Span(x.start, k)) in c[k]
  }

  /** Column `k` is closed under the complete state `x`: every state of column `x.start` waiting for its head has its advance there. */
  ghost predicate CompletedInto(c: Chart, x: State, k: nat)
  {
    x.start < |c| && AdvancedUpTo(c, x, k, |c[x.start]|)
  }

  /** Every entry appended to column `k` going from `c` to `r` advances a state of column `start` waiting for `head`. */
  ghost predicate NewAdvanced(c: Chart, r: Chart, start: nat, head: string, k: nat)
  {
    k < |c| && k < |r| &&
    forall n :: |c[k]| <= n < |r[k]| ==> AdvancedFrom(r, start, head, k, r[k][n])
  }

  /** One turn of `complete` keeps the invariant, touches only column `k`, and advances entry `m` if it waits. */
  lemma CompleteStepKeeps(c: Chart, rs: seq<Rule>, words: seq<string>, x: State, k: nat, m: nat)
    requires ReservedFree(rs) && Inv(c, rs, words) && k < |c| && x in c[k] && x.IsComplete()
    requires x.start <= k && m < |c[x.start]|
    ensures Inv(CompleteStep(c, x, k, m), rs, words)
    ensures GrowsOnly(c, CompleteStep(c, x, k, m), k)
    ensures x in CompleteStep(c, x, k, m)[k]
    ensures Waits(c[x.start][m], x.rule.head) ==>
      Advance(c[x.start][m], Span(x.start, k)) in CompleteStep(c, x, k, m)[k]
  {
    var xi :| 0 <= xi < |c[k]| && c[k][xi] == x;
    if Waits(c[x.start][m], x.rule.head) {
      CompleteKeepsInv(c, rs, words, k, xi, m);
    }
    InExtends(c, CompleteStep(c, x, k, m), k, x);
  }

  /**
   * `complete` for the complete state `x` of column `k`, from entry `m` of
   * column `x.start` on. When `x.start == k` the column grows while it is
   * visited; the visit still ends because a column without repeats is bounded.
   */
  ghost function CompleteFrom(c: Chart, rs: seq<Rule>, words: seq<string>, x: State, k: nat, m: nat): (r: Chart)
    requires ReservedFree(rs) && Inv(c, rs, words) && k < |c| && x in c[k] && x.IsComplete()
    ensures Inv(r, rs, words) && GrowsOnly(c, r, k)
    decreases |Universe(rs + [StartRule], x.start)| - m
  {
    InColumnShaped(c, rs, words, k, x);
    if m >= |c[x.start]| then c
    else
      ColumnBounded(c, rs, words, x.start);
      CompleteStepKeeps(c, rs, words, x, k, m);
      var c' := CompleteStep(c, x, k, m);
      var r := CompleteFrom(c', rs, words, x, k, m + 1);
      GrowsOnlyTrans(c, c', r, k);
      r
  }

  /**
   * Completion closes column `k` under `x`: once it ends, every state of
   * column `x.start` waiting for the head of `x`, including those added on the
   * way, has its advance over (x.start, k) in column `k`.
   */
  lemma {:induction false} CompleteFromClosed(c: Chart, rs: seq<Rule>, words: seq<string>, x: State, k: nat, m: nat)
    requires ReservedFree(rs) && Inv(c, rs, words) && k < |c| && x in c[k] && x.IsComplete()
    requires x.start <= k && AdvancedUpTo(c, x, k, m)
    ensures CompletedInto(CompleteFrom(c, rs, words, x, k, m), x, k)
    decreases |Universe(rs + [StartRule], x.start)| - m
  {
    if m < |c[x.start]| {
      var c' := CompleteClosedStep(c, rs, words, x, k, m);
      CompleteFromClosed(c', rs, words, x, k, m + 1);
    } else {
      CompleteFromDone(c, rs, words, x, k, m);
    }
  }

  lemma CompleteClosedStep(c: Chart, rs: seq<Rule>, words: seq<string>, x: State, k: nat, m: nat) returns (c': Chart)
    requires ReservedFree(rs) && Inv(c, rs, words) && k < |c| && x in c[k] && x.IsComplete()
    requires x.start <= k && AdvancedUpTo(c, x, k, m) && m < |c[x.start]|
    ensures Inv(c', rs, words) && k < |c'| && x in c'[k] && AdvancedUpTo(c', x, k, m + 1)
    ensures CompleteFrom(c, rs, words, x, k, m) == CompleteFrom(c', rs, words, x, k, m + 1)
    ensures m < |Universe(rs + [StartRule], x.start)|
  {
    ColumnBounded(c, rs, words, x.start);
    CompleteStepKeeps(c, rs, words, x, k, m);
    c' := CompleteStep(c, x, k, m);
    AdvancedUpToStep(c, c', x, k, m);
    CompleteFromUnfold(c, rs, words, x, k, m);
  }

  lemma CompleteFromDone(c: Chart, rs: seq<Rule>, words: seq<string>, x: State, k: nat, m: nat)
    requires ReservedFree(rs) && Inv(c, rs, words) && k < |c| && x in c[k] && x.IsComplete()
    requires x.start <= k && AdvancedUpTo(c, x, k, m) && m >= |c[x.start]|
    ensures CompleteFrom(c, rs, words, x, k, m) == c && CompletedInto(c, x, k)
  {
  }

  lemma AdvancedUpToStep(c: Chart, c': Chart, x: State, k: nat, m: nat)
    requires Extends(c, c') && x.start < |c| && k < |c| && m < |c[x.start]| && AdvancedUpTo(c, x, k, m)
    requires Waits(c[x.start][m], x.rule.head) ==> Advance(c[x.start][m], Span(x.start, k)) in c'[k]
    ensures AdvancedUpTo(c', x, k, m + 1)
  {
    forall p | 0 <= p < m + 1 && p < |c'[x.start]| && Waits(c'[x.start][p], x.rule.head)
      ensures Advance(c'[x.start][p], Span(x.start, k)) in c'[k]
    {
      ExtendsAt(c, c', x.start, p);
      if p < m {
        InExtends(c, c', k, Advance(c[x.start][p], Span(x.start, k)));
      }
    }
  }

  /** Completion adds to column `k` nothing but advances of states of column `x.start` waiting for the head of `x`. */
  lemma {:induction false} CompleteFromAdds(c: Chart, rs: seq<Rule>, words: seq<string>, x: State, k: nat, m: nat)
    requires ReservedFree(rs) && Inv(c, rs, words) && k < |c| && x in c[k] && x.IsComplete() && x.start <= k
    ensures NewAdvanced(c, CompleteFrom(c, rs, words, x, k, m), x.start, x.rule.head, k)
    decreases |Universe(rs + [StartRule], x.start)| - m
  {
    if m < |c[x.start]| {
      ColumnBounded(c, rs, words, x.start);
      CompleteStepKeeps(c, rs, words, x, k, m);
      var c' := CompleteStep(c, x, k, m);
      var r := CompleteFrom(c', rs, words, x, k, m + 1);
      CompleteFromAdds(c', rs, words, x, k, m + 1);
      forall n | |c[k]| <= n < |c'[k]| ensures AdvancedFrom(r, x.start, x.rule.head, k, r[k][n]) {
        ExtendsAt(c, c', x.start, m);
        assert c'[k][n] == Advance(c'[x.start][m], Span(x.start, k));
        assert AdvancedFrom(c', x.start, x.rule.head, k, c'[k][n]);
        ExtendsAt(c', r, k, n);
        AdvancedFromExtends(c', r, x.start, x.rule.head, k, c'[k][n]);
      }
    }
  }

  /* ---------------------------------------------------------------- predict */

  /** `a` is the fresh state `predict` makes in column `k` for a rule of the next symbol of `x`. */
  ghost predicate Predicted(rs: seq<Rule>, x: State, k: nat, a: State)
  {
    x.NextSymbol().Some? && a.rule in rs && a.rule.head == x.NextSymbol().value && a == Initial(a.rule, k)
  }

  /** Adding the prediction for rule `ri`, then completing it on the spot when its body is empty. */
  ghost function PredictStep(c: Chart, rs: seq<Rule>, words: seq<string>, k: nat, ri: nat): (r: Chart)
    requires ReservedFree(rs) && Inv(c, rs, words) && k < |c| && ri < |rs| && IsNonterminal(rs[ri].head)
    ensures Inv(r, rs, words) && GrowsOnly(c, r, k) && Initial(rs[ri], k) in r[k]
  {
    var st := Initial(rs[ri], k);
    PredictKeepsInv(c, rs, words, rs[ri], k);
    var c1 := Added(c, st, k);
    if rs[ri].body == [] then
      var c2 := CompleteFrom(c1, rs, words, st, k, 0);
      InExtends(c1, c2, k, st);
      GrowsOnlyTrans(c, c1, c2, k);
      c2
    else c1
  }

  /**
   * `predict` for `x` in column `k`, from rule `ri` on: a fresh state for every
   * rule of the next symbol of `x`, in rule order.
   */
  ghost function PredictFrom(c: Chart, rs: seq<Rule>, words: seq<string>, x: State, k: nat, ri: nat): (r: Chart)
    requires ReservedFree(rs) && Inv(c, rs, words) && k < |c| && Expands(x) && ri <= |rs|
    ensures Inv(r, rs, words) && GrowsOnly(c, r, k)
    decreases |rs| - ri
  {
    if ri == |rs| then c
    else if rs[ri].head != x.NextSymbol().value then PredictFrom(c, rs, words, x, k, ri + 1)
    else
      var c' := PredictStep(c, rs, words, k, ri);
      var r := PredictFrom(c', rs, words, x, k, ri + 1);
      GrowsOnlyTrans(c, c', r, k);
      r
  }

  /** Every rule before `ri` for the next symbol of `x` has its fresh state in column `k`. */
  ghost predicate PredictedUpTo(c: Chart, rs: seq<Rule>, x: State, k: nat, ri: nat)
    requires k < |c| && x.NextSymbol().Some?
  {
    forall q :: 0 <= q < ri && q < |rs| && rs[q].head == x.NextSymbol().value ==> Initial(rs[q], k) in c[k]
  }

  /** Once `predict` ends, column `k` holds the fresh state of every rule for the next symbol of `x`. */
  lemma {:induction false} PredictFromClosed(c: Chart, rs: seq<Rule>, words: seq<string>, x: State, k: nat, ri: nat)
    requires ReservedFree(rs) && Inv(c, rs, words) && k < |c| && Expands(x) && ri <= |rs|
    requires PredictedUpTo(c, rs, x, k, ri)
    ensures PredictClosed(PredictFrom(c, rs, words, x, k, ri), rs, k, x)
    decreases |rs| - ri
  {
    var r := PredictFrom(c, rs, words, x, k, ri);
    if ri == |rs| {
      forall rule | rule in rs && rule.head == x.NextSymbol().value ensures Initial(rule, k) in r[k] {
        var q :| 0 <= q < |rs| && rs[q] == rule;
      }
    } else if rs[ri].head != x.NextSymbol().value {
      PredictFromClosed(c, rs, words, x, k, ri + 1);
    } else {
      var c' := PredictStep(c, rs, words, k, ri);
      forall q | 0 <= q < ri + 1 && q < |rs| && rs[q].head == x.NextSymbol().value
        ensures Initial(rs[q], k) in c'[k]
      {
        if q < ri {
          InExtends(c, c', k, Initial(rs[q], k));
        }
      }
      PredictFromClosed(c', rs, words, x, k, ri + 1);
    }
  }

  /**
   * An epsilon rule at index `q` for the next symbol of `x` advances, over
   * (k, k), every state that was in column `k` before `predict` and waits for
   * that symbol.
   */
  lemma {:induction false} PredictFromEpsilon(c: Chart, rs: seq<Rule>, words: seq<string>, x: State, k: nat, ri: nat, q: nat)
    requires ReservedFree(rs) && Inv(c, rs, words) && k < |c| && Expands(x) && ri <= q < |rs|
    requires rs[q].head == x.NextSymbol().value && rs[q].body == []
    ensures forall p :: 0 <= p < |c[k]| && Waits(c[k][p], x.NextSymbol().value) ==>
      Advance(c[k][p], Span(k, k)) in PredictFrom(c, rs, words, x, k, ri)[k]
    decreases |rs| - ri
  {
    var sym := x.NextSymbol().value;
    var r := PredictFrom(c, rs, words, x, k, ri);
    if rs[ri].head != sym {
      PredictFromEpsilon(c, rs, words, x, k, ri + 1, q);
    } else {
      var c' := PredictStep(c, rs, words, k, ri);
      if ri < q {
        PredictFromEpsilon(c', rs, words, x, k, ri + 1, q);
        forall p | 0 <= p < |c[k]| && Waits(c[k][p], sym) ensures Advance(c[k][p], Span(k, k)) in r[k] {
          ExtendsAt(c, c', k, p);
        }
      } else {
        EpsilonCloses(c, rs, words, k, ri);
        forall p | 0 <= p < |c[k]| && Waits(c[k][p], sym) ensures Advance(c[k][p], Span(k, k)) in r[k] {
          ExtendsAt(c, c', k, p);
          InExtends(c', r, k, Advance(c[k][p], Span(k, k)));
        }
      }
    }
  }

  /** Predicting an epsilon rule completes it at once, advancing every waiting state of column `k`. */
  lemma EpsilonCloses(c: Chart, rs: seq<Rule>, words: seq<string>, k: nat, ri: nat)
    requires ReservedFree(rs) && Inv(c, rs, words) && k < |c| && ri < |rs| && IsNonterminal(rs[ri].head)
    requires rs[ri].body == []
    ensures var c' := PredictStep(c, rs, words, k, ri);
      forall p :: 0 <= p < |c'[k]| && Waits(c'[k][p], rs[ri].head) ==> Advance(c'[k][p], Span(k, k)) in c'[k]
  {
    var st := Initial(rs[ri], k);
    PredictKeepsInv(c, rs, words, rs[ri], k);
    var c1 := Added(c, st, k);
    CompleteFromClosed(c1, rs, words, st, k, 0);
  }

  /** `predict` adds to column `k` nothing but fresh states for the next symbol of `x` and their epsilon advances. */
  lemma {:induction false} PredictFromAdds(c: Chart, rs: seq<Rule>, words: seq<string>, x: State, k: nat, ri: nat)
    requires ReservedFree(rs) && Inv(c, rs, words) && k < |c| && Expands(x) && ri <= |rs|
    ensures var r := PredictFrom(c, rs, words, x, k, ri);
      forall n :: |c[k]| <= n < |r[k]| ==>
        Predicted(rs, x, k, r[k][n]) || AdvancedFrom(r, k, x.NextSymbol().value, k, r[k][n])
    decreases |rs| - ri
  {
    var sym := x.NextSymbol().value;
    var r := PredictFrom(c, rs, words, x, k, ri);
    if ri < |rs| {
      if rs[ri].head != sym {
        PredictFromAdds(c, rs, words, x, k, ri + 1);
        assert r == PredictFrom(c, rs, words, x, k, ri + 1);
        assert forall n :: |c[k]| <= n < |r[k]| ==>
          Predicted(rs, x, k, r[k][n]) || AdvancedFrom(r, k, sym, k, r[k][n]);
      } else {
        var c' := PredictStep(c, rs, words, k, ri);
        PredictFromAdds(c', rs, words, x, k, ri + 1);
        assert r == PredictFrom(c', rs, words, x, k, ri + 1);
        PredictStepAdds(c, rs, words, x, k, ri);
        forall n | |c[k]| <= n < |c'[k]|
          ensures Predicted(rs, x, k, r[k][n]) || AdvancedFrom(r, k, sym, k, r[k][n])
        {
          ExtendsAt(c', r, k, n);
          if !Predicted(rs, x, k, c'[k][n]) {
            AdvancedFromExtends(c', r, k, sym, k, c'[k][n]);
          }
        }
      }
    }
  }

  lemma PredictStepAdds(c: Chart, rs: seq<Rule>, words: seq<string>, x: State, k: nat, ri: nat)
    requires ReservedFree(rs) && Inv(c, rs, words) && k < |c| && Expands(x) && ri < |rs|
    requires rs[ri].head == x.NextSymbol().value
    ensures var c' := PredictStep(c, rs, words, k, ri);
      forall n :: |c[k]| <= n < |c'[k]| ==>
        Predicted(rs, x, k, c'[k][n]) || AdvancedFrom(c', k, x.NextSymbol().value, k, c'[k][n])
  {
    var st := Initial(rs[ri], k);
    PredictKeepsInv(c, rs, words, rs[ri], k);
    var c1 := Added(c, st, k);
    var c' := PredictStep(c, rs, words, k, ri);
    if rs[ri].body == [] {
      CompleteFromAdds(c1, rs, words, st, k, 0);
      forall n | |c[k]| <= n < |c'[k]|
        ensures Predicted(rs, x, k, c'[k][n]) || AdvancedFrom(c', k, x.NextSymbol().value, k, c'[k][n])
      {
        if n < |c1[k]| {
          ExtendsAt(c1, c', k, n);
        }
      }
    }
  }

  /* ---------------------------------------------------------------- the parse loop */

  /**
   * One turn of the loop of `parse` on the entry `j` of column `i`: predict
   * when its next symbol is a nonterminal, scan when it is a terminal, and
   * complete when there is none.
   */
  ghost function ProcessStep(c: Chart, rs: seq<Rule>, words: seq<string>, i: nat, j: nat): (r: Chart)
    requires ReservedFree(rs) && Inv(c, rs, words) && i < |c| && j < |c[i]|
    ensures Inv(r, rs, words) && Grows(c, r, i)
  {
    var x := c[i][j];
    if x.IsComplete() then
      assert x in c[i];
      CompleteFrom(c, rs, words, x, i, 0)
    else if Expands(x) then PredictFrom(c, rs, words, x, i, 0)
    else if ScanMatches(x, i, words) then
      ScanKeepsInv(c, rs, words, i, j);
      Added(c, Advance(x, Span(i, i + 1)), i + 1)
    else c
  }

  /**
   * The loop of `parse` from entry `j` of column `i` on: every column in turn,
   * each one visited up to its length at the time, which grows as it is visited.
   */
  ghost function ProcessFrom(c: Chart, rs: seq<Rule>, words: seq<string>, i: nat, j: nat): (r: Chart)
    requires ReservedFree(rs) && Inv(c, rs, words) && i <= |c|
    ensures Inv(r, rs, words) && Grows(c, r, i)
    decreases |c| - i, |Universe(rs + [StartRule], i)| - j
  {
    if i == |c| then c
    else if j >= |c[i]| then ProcessFrom(c, rs, words, i + 1, 0)
    else
      ColumnBounded(c, rs, words, i);
      ProcessFrom(ProcessStep(c, rs, words, i, j), rs, words, i, j + 1)
  }

  /** A chart of `n` empty columns. */
  function EmptyChart(n: nat): (c: Chart)
    ensures |c| == n && forall k :: 0 <= k < n ==> c[k] == []
  {
    seq(n, _ => [])
  }

  /** The chart `parse` starts its loop from: one column per token boundary, `γ → • S` in column 0. */
  ghost function Seeded(words: seq<string>): (r: Chart)
    ensures |r| == |words| + 1 && r[0] == [Initial(StartRule, 0)]
    ensures forall k :: 0 < k < |r| ==> r[k] == []
  {
    Added(EmptyChart(|words| + 1), Initial(StartRule, 0), 0)
  }

  /** The chart `parse` builds for `words`. */
  ghost function ParseChart(rs: seq<Rule>, words: seq<string>): (r: Chart)
    requires ReservedFree(rs)
    ensures Inv(r, rs, words) && |r| == |words| + 1
    ensures |r[0]| > 0 && r[0][0] == Initial(StartRule, 0)
  {
    SeedKeepsInv(EmptyChart(|words| + 1), rs, words);
    var r := ProcessFrom(Seeded(words), rs, words, 0, 0);
    ExtendsAt(Seeded(words), r, 0, 0);
    r
  }

  /** The entry at (k, m) has had its step. */
  ghost predicate EntryProcessed(c: Chart, rs: seq<Rule>, words: seq<string>, k: int, m: int)
  {
    0 <= k < |c| && 0 <= m < |c[k]| && Processed(c, rs, words, k, c[k][m])
  }

  /** Every entry of a column before `i`, and every entry of column `i` before `j`, has had its step. */
  ghost predicate ProcessedUpTo(c: Chart, rs: seq<Rule>, words: seq<string>, i: nat, j: nat)
  {
    forall k, m {:trigger EntryProcessed(c, rs, words, k, m)} ::
      0 <= k < |c| && 0 <= m < |c[k]| && (k < i || (k == i && m < j)) ==> EntryProcessed(c, rs, words, k, m)
  }

  /** The step on entry `j` of column `i` closes the chart under that entry. */
  lemma ProcessStepCloses(c: Chart, rs: seq<Rule>, words: seq<string>, i: nat, j: nat)
    requires ReservedFree(rs) && Inv(c, rs, words) && i < |c| && j < |c[i]|
    ensures Processed(ProcessStep(c, rs, words, i, j), rs, words, i, c[i][j])
  {
    var x := c[i][j];
    var r := ProcessStep(c, rs, words, i, j);
    if x.IsComplete() {
      assert x in c[i];
      InColumnShaped(c, rs, words, i, x);
      CompleteFromClosed(c, rs, words, x, i, 0);
      if x.start < i {
        assert r[x.start] == c[x.start];
      }
    } else if Expands(x) {
      PredictFromClosed(c, rs, words, x, i, 0);
    }
  }

  /** The step on entry `j` keeps everything processed before it processed, and processes it. */
  lemma ProcessStepKeeps(c: Chart, rs: seq<Rule>, words: seq<string>, i: nat, j: nat)
    requires ReservedFree(rs) && Inv(c, rs, words) && i < |c| && j < |c[i]|
    requires ProcessedUpTo(c, rs, words, i, j)
    ensures ProcessedUpTo(ProcessStep(c, rs, words, i, j), rs, words, i, j + 1)
  {
    var r := ProcessStep(c, rs, words, i, j);
    ProcessStepCloses(c, rs, words, i, j);
    forall k, m | 0 <= k < |r| && 0 <= m < |r[k]| && (k < i || (k == i && m < j + 1))
      ensures EntryProcessed(r, rs, words, k, m)
    {
      if k < i {
        assert r[k] == c[k] && EntryProcessed(c, rs, words, k, m);
        ProcessedGrows(c, r, rs, words, i, k, c[k][m]);
      } else {
        ExtendsAt(c, r, i, m);
        if m < j {
          assert EntryProcessed(c, rs, words, i, m);
          ProcessedGrows(c, r, rs, words, i, i, c[i][m]);
        }
      }
    }
  }

  /** When the loop of `parse` ends, every entry of every column has had its step. */
  lemma {:induction false} ProcessFromProcessed(c: Chart, rs: seq<Rule>, words: seq<string>, i: nat, j: nat)
    requires ReservedFree(rs) && Inv(c, rs, words) && i <= |c| && ProcessedUpTo(c, rs, words, i, j)
    ensures ProcessedUpTo(ProcessFrom(c, rs, words, i, j), rs, words, |c|, 0)
    decreases |c| - i, |Universe(rs + [StartRule], i)| - j
  {
    if i < |c| {
      if j >= |c[i]| {
        NextColumn(c, rs, words, i, j);
        ProcessFromProcessed(c, rs, words, i + 1, 0);
        assert ProcessFrom(c, rs, words, i, j) == ProcessFrom(c, rs, words, i + 1, 0);
      } else {
        ColumnBounded(c, rs, words, i);
        ProcessStepKeeps(c, rs, words, i, j);
        var c' := ProcessStep(c, rs, words, i, j);
        ProcessFromUnfold(c, rs, words, i, j);
        ProcessFromProcessed(c', rs, words, i, j + 1);
      }
    }
  }

  lemma ProcessFromUnfold(c: Chart, rs: seq<Rule>, words: seq<string>, i: nat, j: nat)
    requires ReservedFree(rs) && Inv(c, rs, words) && i < |c| && j < |c[i]|
    ensures ProcessFrom(c, rs, words, i, j) == ProcessFrom(ProcessStep(c, rs, words, i, j), rs, words, i, j + 1)
  {
  }

  lemma ProcessFromNext(c: Chart, rs: seq<Rule>, words: seq<string>, i: nat, j: nat)
    requires ReservedFree(rs) && Inv(c, rs, words) && i < |c| && j >= |c[i]|
    ensures ProcessFrom(c, rs, words, i, j) == ProcessFrom(c, rs, words, i + 1, 0)
  {
  }

  lemma CompleteFromUnfold(c: Chart, rs: seq<Rule>, words: seq<string>, x: State, k: nat, m: nat)
    requires ReservedFree(rs) && Inv(c, rs, words) && k < |c| && x in c[k] && x.IsComplete()
    requires x.start <= k && m < |c[x.start]|
    requires Inv(CompleteStep(c, x, k, m), rs, words) && x in CompleteStep(c, x, k, m)[k]
    ensures CompleteFrom(c, rs, words, x, k, m) == CompleteFrom(CompleteStep(c, x, k, m), rs, words, x, k, m + 1)
  {
  }

  lemma PredictFromUnfold(c: Chart, rs: seq<Rule>, words: seq<string>, x: State, k: nat, ri: nat)
    requires ReservedFree(rs) && Inv(c, rs, words) && k < |c| && Expands(x) && ri < |rs|
    ensures PredictFrom(c, rs, words, x, k, ri) ==
      if rs[ri].head != x.NextSymbol().value then PredictFrom(c, rs, words, x, k, ri + 1)
      else PredictFrom(PredictStep(c, rs, words, k, ri), rs, words, x, k, ri + 1)
  {
  }

  lemma NextColumn(c: Chart, rs: seq<Rule>, words: seq<string>, i: nat, j: nat)
    requires i < |c| && j >= |c[i]| && ProcessedUpTo(c, rs, words, i, j)
    ensures ProcessedUpTo(c, rs, words, i + 1, 0)
  {
  }

  /**
   * The chart of `parse` is closed: every state in it has been predicted,
   * scanned or completed, and the result of that step is in the chart.
   */
  lemma ParseChartProcessed(rs: seq<Rule>, words: seq<string>, k: nat, m: nat)
    requires ReservedFree(rs)
    requires k < |ParseChart(rs, words)| && m < |ParseChart(rs, words)[k]|
    ensures Processed(ParseChart(rs, words), rs, words, k, ParseChart(rs, words)[k][m])
  {
    SeedKeepsInv(EmptyChart(|words| + 1), rs, words);
    ProcessFromProcessed(Seeded(words), rs, words, 0, 0);
    assert EntryProcessed(ParseChart(rs, words), rs, words, k, m);
  }

  /* ---------------------------------------------------------------- acceptance */

  /**
   * An accepting state in the last column was justified by a complete `S`
   * state over the whole input, and when the input is not empty that state
   * matched something, so `parse` finds a root.
   */
  lemma AcceptedHasRoot(c: Chart, rs: seq<Rule>, words: seq<string>, m: nat)
    requires Inv(c, rs, words) && |c| == |words| + 1 && |words| > 0
    requires m < |c[|words|]| && Accepting(c[|words|][m])
    ensures exists w :: 0 <= w < |c[|words|]| && TreeRoot(c[|words|][w])
  {
    var n := |words|;
    var s := c[n][m];
    assert WellPlaced(c, rs, words, n, m);
    assert s.rule == StartRule;
    assert SymbolJustified(c, words, s.rule.body[0], s.backpointers[0], n, m);
    var w :| 0 <= w < |c[n]| && (n == n ==> w < m) && Completes(c[n][w], StartSymbol, 0);
    assert WellPlaced(c, rs, words, n, w);
  }

  /**
   * On the chart of `parse` over a non-empty input, a root in the last column
   * means the input is accepted: completing it advanced `γ → • S`.
   */
  lemma RootAccepted(rs: seq<Rule>, words: seq<string>, w: nat)
    requires ReservedFree(rs) && |words| > 0
    requires w < |ParseChart(rs, words)[|words|]| && TreeRoot(ParseChart(rs, words)[|words|][w])
    ensures exists m :: 0 <= m < |ParseChart(rs, words)[|words|]| && Accepting(ParseChart(rs, words)[|words|][m])
  {
    var c := ParseChart(rs, words);
    var n := |words|;
    ParseChartProcessed(rs, words, n, w);
    assert Waits(c[0][0], StartSymbol);
    var a := Advance(c[0][0], Span(0, n));
    assert a in c[n];
    var m :| 0 <= m < |c[n]| && c[n][m] == a;
  }
}
