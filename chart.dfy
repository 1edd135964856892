/**
 * The chart: one column of states per token position. This module holds the
 * idempotent insertion `_add_to_chart` as a function on chart values, the
 * invariant every insertion made by the parser keeps, the closure properties
 * the finished chart has, and the finite bound on a column that makes the
 * growing-worklist loops terminate.
 */
module EarleyChart {
  import opened Grammar

  type Chart = seq<seq<State>>

  /* ---------------------------------------------------------------- insertion */

  /** No two equal states in one column. */
  ghost predicate Distinct(col: seq<State>)
  {
    forall a, b :: 0 <= a < b < |col| ==> col[a] != col[b]
  }

  /** `c'` has the columns of `c`, each with the same entries first. */
  ghost predicate Extends(c: Chart, c': Chart)
  {
    && |c'| == |c|
    && forall k :: 0 <= k < |c| ==> c[k] <= c'[k]
  }

  /** An entry of an extended chart is still there, at the same index. */
  lemma ExtendsAt(c: Chart, c': Chart, k: nat, w: nat)
    requires Extends(c, c') && k < |c| && w < |c[k]|
    ensures w < |c'[k]| && c'[k][w] == c[k][w]
  {
  }

  /** `c'` extends `c` and leaves every column before `i` as it was. */
  ghost predicate Grows(c: Chart, c': Chart, i: nat)
  {
    Extends(c, c') && forall q :: 0 <= q < i && q < |c| ==> c'[q] == c[q]
  }

  /** `c'` differs from `c` only by entries appended to column `k`. */
  ghost predicate GrowsOnly(c: Chart, c': Chart, k: nat)
  {
    Extends(c, c') && forall q :: 0 <= q < |c| && q != k ==> c'[q] == c[q]
  }

  /**
   * `_add_to_chart`: the chart with `st` appended to column `pos`, unless `pos`
   * is out of range or an equal state is already there.
   */
  function Added(c: Chart, st: State, pos: nat): (r: Chart)
    ensures Extends(c, r)
    ensures pos < |c| ==> st in r[pos]
    ensures pos >= |c| || st in c[pos] ==> r == c
    ensures forall q :: 0 <= q < |c| && q != pos ==> r[q] == c[q]
    ensures forall q :: 0 <= q < |c| ==> |r[q]| <= |c[q]| + 1
    ensures forall q {:trigger Distinct(r[q])} :: 0 <= q < |c| && Distinct(c[q]) ==> Distinct(r[q])
  {
    if pos >= |c| || st in c[pos] then c else c[pos := c[pos] + [st]]
  }

  /** Adding the same state twice is adding it once. */
  lemma AddedIdempotent(c: Chart, st: State, pos: nat)
    ensures Added(Added(c, st, pos), st, pos) == Added(c, st, pos)
  {
    if pos < |c| {
      assert st in Added(c, st, pos)[pos];
    }
  }

  /** A state missing from its column is appended exactly there, at the end. */
  lemma AddedAppends(c: Chart, st: State, pos: nat)
    requires pos < |c| && st !in c[pos]
    ensures Added(c, st, pos)[pos] == c[pos] + [st]
    ensures |Added(c, st, pos)[pos]| == |c[pos]| + 1
  {
  }

  lemma GrowsOnlyTrans(c0: Chart, c1: Chart, c2: Chart, k: nat)
    requires GrowsOnly(c0, c1, k) && GrowsOnly(c1, c2, k)
    ensures GrowsOnly(c0, c2, k)
  {
  }

  lemma InExtends(c: Chart, c': Chart, k: nat, st: State)
    requires Extends(c, c') && k < |c| && st in c[k]
    ensures st in c'[k]
  {
    var w :| 0 <= w < |c[k]| && c[k][w] == st;
    ExtendsAt(c, c', k, w);
  }

  /* ---------------------------------------------------------------- invariant */

  /**
   * Backpointers that tile [start, end): consecutive, in order, the first
   * beginning at `start` and the last ending at `end`.
   */
  ghost predicate Chained(start: nat, bps: seq<Span>, end: nat)
  {
    && start <= end
    && (|bps| == 0 ==> start == end)
    && (|bps| > 0 ==> bps[0].lo == start && bps[|bps| - 1].hi == end)
    && (forall j :: 0 <= j < |bps| ==> start <= bps[j].lo <= bps[j].hi <= end)
    && (forall j :: 0 < j < |bps| ==> bps[j - 1].hi == bps[j].lo)
  }

  /**
   * The local shape of a state stored in column `k`: its rule is the augmented
   * rule or a grammar rule for a nonterminal, `len(backpointers) == dot <=
   * |body|`, and the spans tile [start, k].
   */
  ghost predicate Shaped(st: State, rs: seq<Rule>, k: nat)
  {
    && (st.rule == StartRule || (st.rule in rs && IsNonterminal(st.rule.head)))
    && st.dot <= |st.rule.body|
    && |st.backpointers| == st.dot
    && Chained(st.start, st.backpointers, k)
  }

  /**
   * Nonterminal `sym` was matched over `sp`: column `sp.hi` holds a complete
   * `sym` state begun at `sp.lo`, and when that column is `k` it sits before
   * index `idx`.
   */
  ghost predicate Derived(c: Chart, sym: string, sp: Span, k: nat, idx: nat)
  {
    && sp.hi < |c|
    && exists w :: 0 <= w < |c[sp.hi]| && (sp.hi == k ==> w < idx) && Completes(c[sp.hi][w], sym, sp.lo)
  }

  /** Terminal `sym` was matched over `sp`: the one token there is `sym`. */
  ghost predicate Scanned(words: seq<string>, sym: string, sp: Span)
  {
    sym != "" && sp.hi == sp.lo + 1 && sp.lo < |words| && words[sp.lo] == sym
  }

  ghost predicate SymbolJustified(c: Chart, words: seq<string>, sym: string, sp: Span, k: nat, idx: nat)
  {
    if IsNonterminal(sym) then Derived(c, sym, sp, k, idx) else Scanned(words, sym, sp)
  }

  /** Every matched body symbol of `st`, placed at (`k`, `idx`), is accounted for. */
  ghost predicate Justified(c: Chart, words: seq<string>, st: State, k: nat, idx: nat)
  {
    forall j :: 0 <= j < st.dot && j < |st.rule.body| && j < |st.backpointers| ==>
      SymbolJustified(c, words, st.rule.body[j], st.backpointers[j], k, idx)
  }

  /** The chart invariant: distinct columns of well-shaped, justified states. */
  ghost predicate Inv(c: Chart, rs: seq<Rule>, words: seq<string>)
  {
    && (forall k {:trigger Distinct(c[k])} :: 0 <= k < |c| ==> Distinct(c[k]))
    && (forall k, m {:trigger WellPlaced(c, rs, words, k, m)} ::
          0 <= k < |c| && 0 <= m < |c[k]| ==> WellPlaced(c, rs, words, k, m))
  }

  /** The entry at (k, m) is well shaped and justified where it stands. */
  ghost predicate WellPlaced(c: Chart, rs: seq<Rule>, words: seq<string>, k: int, m: int)
  {
    && 0 <= k < |c| && 0 <= m < |c[k]|
    && Shaped(c[k][m], rs, k) && Justified(c, words, c[k][m], k, m)
  }

  /**
   * What the invariant says of the entry at (k, m): `len(backpointers) == dot
   * <= |body|`, begun no later than `k`, begun at `k` when nothing is matched
   * yet, the first span starting at the start, the last ending at `k`, and
   * consecutive spans meeting.
   */
  lemma EntryShape(c: Chart, rs: seq<Rule>, words: seq<string>, k: nat, m: nat)
    requires Inv(c, rs, words) && k < |c| && m < |c[k]|
    ensures var s := c[k][m];
      && |s.backpointers| == s.dot <= |s.rule.body| && s.start <= k
      && (s.dot == 0 ==> s.start == k)
      && (s.dot > 0 ==> s.backpointers[0].lo == s.start && s.backpointers[s.dot - 1].hi == k)
      && (forall j :: 0 < j < s.dot ==> s.backpointers[j - 1].hi == s.backpointers[j].lo)
  {
    assert WellPlaced(c, rs, words, k, m);
  }

  /** No column of a chart satisfying the invariant holds two equal states. */
  lemma ColumnDistinct(c: Chart, rs: seq<Rule>, words: seq<string>, k: nat, a: nat, b: nat)
    requires Inv(c, rs, words) && k < |c| && a < b < |c[k]|
    ensures c[k][a] != c[k][b]
  {
    assert Distinct(c[k]);
  }

  /** A state stored in column `k` is well shaped there, so it began no later than `k`. */
  lemma InColumnShaped(c: Chart, rs: seq<Rule>, words: seq<string>, k: nat, x: State)
    requires Inv(c, rs, words) && k < |c| && x in c[k]
    ensures Shaped(x, rs, k) && x.start <= k
  {
    var m :| 0 <= m < |c[k]| && c[k][m] == x;
    assert WellPlaced(c, rs, words, k, m);
  }

  lemma DerivedMoved(c: Chart, c': Chart, sym: string, sp: Span, k: nat, idx: nat, k': nat, idx': nat)
    requires Extends(c, c') && Derived(c, sym, sp, k, idx)
    requires sp.hi == k' ==> sp.hi == k && idx <= idx'
    ensures Derived(c', sym, sp, k', idx')
  {
    var w :| 0 <= w < |c[sp.hi]| && (sp.hi == k ==> w < idx) && Completes(c[sp.hi][w], sym, sp.lo);
    assert c'[sp.hi][w] == c[sp.hi][w];
  }

  /**
   * Justifications survive growth of the chart and a move to a later place,
   * provided every span ending in the new column ended in the old one before
   * the old index.
   */
  lemma JustifiedMoved(c: Chart, c': Chart, words: seq<string>, st: State, k: nat, idx: nat, k': nat, idx': nat)
    requires Extends(c, c') && Justified(c, words, st, k, idx)
    requires forall j :: 0 <= j < st.dot && j < |st.backpointers| && st.backpointers[j].hi == k' ==>
               st.backpointers[j].hi == k && idx <= idx'
    ensures Justified(c', words, st, k', idx')
  {
    forall j | 0 <= j < st.dot && j < |st.rule.body| && j < |st.backpointers|
      ensures SymbolJustified(c', words, st.rule.body[j], st.backpointers[j], k', idx')
    {
      if IsNonterminal(st.rule.body[j]) {
        DerivedMoved(c, c', st.rule.body[j], st.backpointers[j], k, idx, k', idx');
      }
    }
  }

  /** A well-shaped, justified state may be added without breaking the invariant. */
  lemma {:induction false} AddedKeepsInv(c: Chart, rs: seq<Rule>, words: seq<string>, st: State, pos: nat)
    requires Inv(c, rs, words)
    requires pos < |c| && st !in c[pos] ==> Shaped(st, rs, pos) && Justified(c, words, st, pos, |c[pos]|)
    ensures Inv(Added(c, st, pos), rs, words)
  {
    var c' := Added(c, st, pos);
    if c' != c {
      forall k, m | 0 <= k < |c'| && 0 <= m < |c'[k]|
        ensures WellPlaced(c', rs, words, k, m)
      {
        if k == pos && m == |c[pos]| {
          JustifiedMoved(c, c', words, st, pos, |c[pos]|, pos, |c[pos]|);
        } else {
          assert m < |c[k]| && c'[k][m] == c[k][m] && WellPlaced(c, rs, words, k, m);
          JustifiedMoved(c, c', words, c[k][m], k, m, k, m);
        }
      }
    }
  }

  /** A prediction for a nonterminal keeps the invariant. */
  lemma {:induction false} PredictKeepsInv(c: Chart, rs: seq<Rule>, words: seq<string>, r: Rule, k: nat)
    requires Inv(c, rs, words) && r in rs && IsNonterminal(r.head)
    ensures Inv(Added(c, Initial(r, k), k), rs, words)
  {
    AddedKeepsInv(c, rs, words, Initial(r, k), k);
  }

  /** The seed state `γ → • S` in column 0 keeps the invariant. */
  lemma {:induction false} SeedKeepsInv(c: Chart, rs: seq<Rule>, words: seq<string>)
    requires Inv(c, rs, words)
    ensures Inv(Added(c, Initial(StartRule, 0), 0), rs, words)
  {
    AddedKeepsInv(c, rs, words, Initial(StartRule, 0), 0);
  }

  /** Moving the dot of an incomplete well-shaped state over (mid, end) keeps its shape. */
  lemma {:induction false} AdvanceShaped(s: State, rs: seq<Rule>, mid: nat, end: nat)
    requires Shaped(s, rs, mid) && !s.IsComplete() && mid <= end
    ensures Shaped(Advance(s, Span(mid, end)), rs, end)
  {
    var a := Advance(s, Span(mid, end));
    assert a.backpointers[|a.backpointers| - 1] == Span(mid, end);
    forall j | 0 < j < |a.backpointers| ensures a.backpointers[j - 1].hi == a.backpointers[j].lo {
      if j < |s.backpointers| {
        assert a.backpointers[j - 1] == s.backpointers[j - 1] && a.backpointers[j] == s.backpointers[j];
      }
    }
    forall j | 0 <= j < |a.backpointers| ensures a.start <= a.backpointers[j].lo <= a.backpointers[j].hi <= end {
      if j < |s.backpointers| {
        assert a.backpointers[j] == s.backpointers[j];
      }
    }
  }

  /**
   * Moving the dot of the state at (mid, m) over (mid, k), to be placed at
   * (k, idx), keeps it justified when the newly matched symbol is.
   */
  lemma {:induction false} AdvanceJustified(c: Chart, rs: seq<Rule>, words: seq<string>, s: State, mid: nat, m: nat, k: nat, idx: nat)
    requires Shaped(s, rs, mid) && Justified(c, words, s, mid, m) && !s.IsComplete()
    requires mid <= k && (mid == k ==> m <= idx)
    requires SymbolJustified(c, words, s.rule.body[s.dot], Span(mid, k), k, idx)
    ensures Justified(c, words, Advance(s, Span(mid, k)), k, idx)
  {
    var a := Advance(s, Span(mid, k));
    forall j | 0 <= j < a.dot && j < |a.rule.body| && j < |a.backpointers|
      ensures SymbolJustified(c, words, a.rule.body[j], a.backpointers[j], k, idx)
    {
      if j < s.dot {
        assert a.backpointers[j] == s.backpointers[j];
        assert SymbolJustified(c, words, s.rule.body[j], s.backpointers[j], mid, m);
        if IsNonterminal(s.rule.body[j]) {
          DerivedMoved(c, c, s.rule.body[j], s.backpointers[j], mid, m, k, idx);
        }
      } else {
        assert a.backpointers[j] == Span(mid, k);
      }
    }
  }

  /**
   * Scanning a terminal token keeps the invariant: the advanced state gains the
   * span (k, k + 1) and lands in column k + 1.
   */
  lemma {:induction false} ScanKeepsInv(c: Chart, rs: seq<Rule>, words: seq<string>, k: nat, m: nat)
    requires Inv(c, rs, words) && k < |c| && m < |c[k]|
    requires ScanMatches(c[k][m], k, words) && !Expands(c[k][m])
    ensures Inv(Added(c, Advance(c[k][m], Span(k, k + 1)), k + 1), rs, words)
  {
    var a := Advance(c[k][m], Span(k, k + 1));
    if k + 1 < |c| {
      ScannedFits(c, rs, words, k, m);
    }
    AddedKeepsInv(c, rs, words, a, k + 1);
  }

  /** The scanned advance of the entry at (k, m) is well shaped and justified at the end of column k + 1. */
  lemma ScannedFits(c: Chart, rs: seq<Rule>, words: seq<string>, k: nat, m: nat)
    requires Inv(c, rs, words) && k + 1 < |c| && m < |c[k]|
    requires ScanMatches(c[k][m], k, words) && !Expands(c[k][m])
    ensures Shaped(Advance(c[k][m], Span(k, k + 1)), rs, k + 1)
    ensures Justified(c, words, Advance(c[k][m], Span(k, k + 1)), k + 1, |c[k + 1]|)
  {
    var x := c[k][m];
    assert WellPlaced(c, rs, words, k, m);
    AdvanceShaped(x, rs, k, k + 1);
    var sym := x.rule.body[x.dot];
    assert !IsNonterminal(sym) && Scanned(words, sym, Span(k, k + 1));
    AdvanceJustified(c, rs, words, x, k, m, k + 1, |c[k + 1]|);
  }

  /**
   * The head of a complete state in a chart over a grammar free of `γ` that
   * some state waits for is a nonterminal.
   */
  lemma CompletedHeadIsNonterminal(rs: seq<Rule>, x: State, s: State, k: nat, mid: nat)
    requires ReservedFree(rs) && Shaped(x, rs, k) && Shaped(s, rs, mid) && Waits(s, x.rule.head)
    ensures IsNonterminal(x.rule.head)
  {
    var sym := s.rule.body[s.dot];
    assert sym == x.rule.head && sym in s.rule.body;
    assert sym != Reserved;
  }

  /**
   * Completing the state at (k, xi) over a state `s` of column `x.start` that
   * waits for its head keeps the invariant: the advanced state gains the span
   * (x.start, k) and the complete state is its witness.
   */
  lemma {:induction false} CompleteKeepsInv(c: Chart, rs: seq<Rule>, words: seq<string>, k: nat, xi: nat, m: nat)
    requires ReservedFree(rs) && Inv(c, rs, words) && k < |c| && xi < |c[k]|
    requires c[k][xi].IsComplete() && c[k][xi].start <= k
    requires m < |c[c[k][xi].start]| && Waits(c[c[k][xi].start][m], c[k][xi].rule.head)
    ensures Inv(Added(c, Advance(c[c[k][xi].start][m], Span(c[k][xi].start, k)), k), rs, words)
  {
    var x := c[k][xi];
    var s := c[x.start][m];
    var a := Advance(s, Span(x.start, k));
    if a !in c[k] {
      assert WellPlaced(c, rs, words, k, xi) && WellPlaced(c, rs, words, x.start, m);
      CompletedHeadIsNonterminal(rs, x, s, k, x.start);
      AdvanceShaped(s, rs, x.start, k);
      assert Completes(c[k][xi], s.rule.body[s.dot], x.start);
      assert SymbolJustified(c, words, s.rule.body[s.dot], Span(x.start, k), k, |c[k]|);
      AdvanceJustified(c, rs, words, s, x.start, m, k, |c[k]|);
    }
    AddedKeepsInv(c, rs, words, a, k);
  }

  /* ---------------------------------------------------------------- closure */

  /** A predicting state has every rule for its next symbol predicted in its column. */
  ghost predicate PredictClosed(c: Chart, rs: seq<Rule>, k: nat, x: State)
  {
    k < |c| && Expands(x) ==>
      forall r :: r in rs && r.head == x.NextSymbol().value ==> Initial(r, k) in c[k]
  }

  /** A scanning state whose terminal is the next token has its advance in the next column. */
  ghost predicate ScanClosed(c: Chart, words: seq<string>, k: nat, x: State)
  {
    !x.IsComplete() && !Expands(x) && ScanMatches(x, k, words) && k + 1 < |c| ==>
      Advance(x, Span(k, k + 1)) in c[k + 1]
  }

  /**
   * A complete state begun in an earlier column has advanced, in its own column,
   * every state of its start column that waits for its head.
   */
  ghost predicate CompleteClosed(c: Chart, k: nat, x: State)
  {
    x.IsComplete() && x.start < k < |c| ==>
      forall p :: 0 <= p < |c[x.start]| && Waits(c[x.start][p], x.rule.head) ==>
        Advance(c[x.start][p], Span(x.start, k)) in c[k]
  }

  /** The state `x` of column `k` has had its predict, scan or complete step. */
  ghost predicate Processed(c: Chart, rs: seq<Rule>, words: seq<string>, k: nat, x: State)
  {
    PredictClosed(c, rs, k, x) && ScanClosed(c, words, k, x) && CompleteClosed(c, k, x)
  }

  /** `a` is the advance of some state of column `start` waiting for `head`, over (start, end). */
  ghost predicate AdvancedFrom(c: Chart, start: nat, head: string, end: nat, a: State)
  {
    start < |c| &&
    exists p :: 0 <= p < |c[start]| && Waits(c[start][p], head) && a == Advance(c[start][p], Span(start, end))
  }

  lemma AdvancedFromExtends(c: Chart, c': Chart, start: nat, head: string, end: nat, a: State)
    requires Extends(c, c') && AdvancedFrom(c, start, head, end, a)
    ensures AdvancedFrom(c', start, head, end, a)
  {
    var p :| 0 <= p < |c[start]| && Waits(c[start][p], head) && a == Advance(c[start][p], Span(start, end));
    assert c'[start][p] == c[start][p];
  }

  /**
   * Processing a later state of column `i` or `i + 1` cannot undo the closure
   * of a state in column `k <= i`, since columns before `i` no longer change.
   */
  lemma {:induction false} ProcessedGrows(c: Chart, c': Chart, rs: seq<Rule>, words: seq<string>, i: nat, k: nat, x: State)
    requires Grows(c, c', i) && k <= i && Processed(c, rs, words, k, x)
    ensures Processed(c', rs, words, k, x)
  {
    if k < |c| && Expands(x) {
      forall r | r in rs && r.head == x.NextSymbol().value ensures Initial(r, k) in c'[k] {
        InExtends(c, c', k, Initial(r, k));
      }
    }
    if !x.IsComplete() && !Expands(x) && ScanMatches(x, k, words) && k + 1 < |c| {
      InExtends(c, c', k + 1, Advance(x, Span(k, k + 1)));
    }
    if x.IsComplete() && x.start < k < |c| {
      assert c'[x.start] == c[x.start];
      forall p | 0 <= p < |c'[x.start]| && Waits(c'[x.start][p], x.rule.head)
        ensures Advance(c'[x.start][p], Span(x.start, k)) in c'[k]
      {
        InExtends(c, c', k, Advance(c[x.start][p], Span(x.start, k)));
      }
    }
  }

  /* ---------------------------------------------------------------- finiteness */

  ghost function AllSpans(n: nat): set<Span>
  {
    set lo: nat, hi: nat | lo <= n && hi <= n :: Span(lo, hi)
  }

  /** Every sequence of `d` spans within [0, n]. */
  ghost function SpanSeqs(d: nat, n: nat): set<seq<Span>>
  {
    if d == 0 then {[]}
    else set p, sp | p in SpanSeqs(d - 1, n) && sp in AllSpans(n) :: p + [sp]
  }

  /** Every state over the rules `rs` that could be stored in column `n`. */
  ghost function Universe(rs: seq<Rule>, n: nat): set<State>
  {
    set r, d: nat, start: nat, bps | r in rs && d <= |r.body| && start <= n && bps in SpanSeqs(d, n) ::
      State(r, d, start, bps)
  }

  lemma {:induction false} SpansInSpanSeqs(bps: seq<Span>, n: nat)
    requires forall j :: 0 <= j < |bps| ==> bps[j].lo <= n && bps[j].hi <= n
    ensures bps in SpanSeqs(|bps|, n)
    decreases |bps|
  {
    if |bps| > 0 {
      var p := bps[..|bps| - 1];
      var last := bps[|bps| - 1];
      SpansInSpanSeqs(p, n);
      assert last in AllSpans(n);
      assert bps == p + [last];
    }
  }

  lemma ShapedInUniverse(st: State, rs: seq<Rule>, k: nat)
    requires Shaped(st, rs, k)
    ensures st in Universe(rs + [StartRule], k)
  {
    SpansInSpanSeqs(st.backpointers, k);
    assert st.rule in rs + [StartRule];
  }

  /** A sequence without repeats, drawn from `u`, is no longer than `u` is large. */
  lemma {:induction false} DistinctBound(col: seq<State>, u: set<State>)
    requires Distinct(col) && forall m :: 0 <= m < |col| ==> col[m] in u
    ensures |col| <= |u|
    decreases |col|
  {
    if |col| > 0 {
      var last := col[|col| - 1];
      var init := col[..|col| - 1];
      forall m | 0 <= m < |init| ensures init[m] in u - {last} {
        assert init[m] == col[m] && col[m] != col[|col| - 1];
      }
      DistinctBound(init, u - {last});
    }
  }

  /** A column of a chart satisfying the invariant is bounded by its universe. */
  lemma {:induction false} ColumnBounded(c: Chart, rs: seq<Rule>, words: seq<string>, k: nat)
    requires Inv(c, rs, words) && k < |c|
    ensures |c[k]| <= |Universe(rs + [StartRule], k)|
  {
    forall m | 0 <= m < |c[k]| ensures c[k][m] in Universe(rs + [StartRule], k) {
      assert WellPlaced(c, rs, words, k, m);
      ShapedInUniverse(c[k][m], rs, k);
    }
    DistinctBound(c[k], Universe(rs + [StartRule], k));
  }
}
