/**
 * Parse-tree reconstruction from the finished chart (`_build_tree`), and the
 * round trip: the leaves of a rebuilt tree are the tokens its state spans.
 */
module Tree {
  import opened Grammar
  import opened EarleyChart

  /** A node: a symbol and its children; terminals and epsilon nodes have none. */
  datatype ParseTree = ParseTree(symbol: string, children: seq<ParseTree>)

  /**
   * The leaves, left to right. A childless node stands for a token unless it is
   * labelled with a nonterminal, in which case it is an epsilon derivation.
   */
  function Yield(t: ParseTree): seq<string>
    decreases t, 1
  {
    if t.children == [] then (if IsNonterminal(t.symbol) then [] else [t.symbol])
    else YieldAll(t.children)
  }

  function YieldAll(ts: seq<ParseTree>): seq<string>
    decreases ts, 0
  {
    if ts == [] then [] else Yield(ts[0]) + YieldAll(ts[1..])
  }

  /**
   * The search of `_build_tree` over one column: the index of the first complete
   * `sym` state begun at `lo`, if any.
   */
  function FirstComplete(col: seq<State>, sym: string, lo: nat): (r: Option<nat>)
    ensures r.Some? ==> r.value < |col| && Completes(col[r.value], sym, lo)
    ensures r.Some? ==> forall w :: 0 <= w < r.value ==> !Completes(col[w], sym, lo)
    ensures r.None? ==> forall w :: 0 <= w < |col| ==> !Completes(col[w], sym, lo)
  {
    if col == [] then None
    else if Completes(col[0], sym, lo) then Some(0)
    else match FirstComplete(col[1..], sym, lo)
      case Some(w) => Some(w + 1)
      case None => None
  }

  /**
   * The first complete state found for a derived nonterminal is no later than
   * the witness the invariant keeps, so it lies before the state being rebuilt.
   */
  lemma FirstIsWitness(c: Chart, sym: string, sp: Span, k: nat, idx: nat)
    requires Derived(c, sym, sp, k, idx)
    ensures FirstComplete(c[sp.hi], sym, sp.lo).Some?
    ensures sp.hi == k ==> FirstComplete(c[sp.hi], sym, sp.lo).value < idx
  {
    var w0 :| 0 <= w0 < |c[sp.hi]| && (sp.hi == k ==> w0 < idx) && Completes(c[sp.hi][w0], sym, sp.lo);
  }

  /** The span of body position `i` begins here (the end of the state once `i` is past the body). */
  function From(st: State, i: nat, pos: nat): nat
  {
    if i < |st.backpointers| then st.backpointers[i].lo else pos
  }

  /**
   * `_build_tree` for the complete state at index `idx` of column `pos`: a
   * childless node for an epsilon rule, else a node labelled with the head whose
   * children follow the body.
   */
  function BuildTree(c: Chart, ghost rs: seq<Rule>, words: seq<string>, pos: nat, idx: nat): (t: ParseTree)
    requires Inv(c, rs, words) && pos < |c| && idx < |c[pos]| && c[pos][idx].IsComplete()
    ensures t.symbol == c[pos][idx].rule.head
    ensures c[pos][idx].rule.body == [] ==> t.children == []
    ensures |t.children| == |c[pos][idx].rule.body|
    ensures forall j :: 0 <= j < |t.children| ==> t.children[j].symbol == c[pos][idx].rule.body[j]
    decreases pos, idx, |c[pos][idx].rule.body| + 1, 2
  {
    var st := c[pos][idx];
    if st.rule.body == [] then ParseTree(st.rule.head, [])
    else ParseTree(st.rule.head, BuildChildren(c, rs, words, pos, idx, 0))
  }

  /** The children for body positions `i` onwards, in body order. */
  function BuildChildren(c: Chart, ghost rs: seq<Rule>, words: seq<string>, pos: nat, idx: nat, i: nat): (ts: seq<ParseTree>)
    requires Inv(c, rs, words) && pos < |c| && idx < |c[pos]| && c[pos][idx].IsComplete()
    requires i <= |c[pos][idx].rule.body|
    ensures |ts| == |c[pos][idx].rule.body| - i
    ensures forall j :: 0 <= j < |ts| ==> ts[j].symbol == c[pos][idx].rule.body[i + j]
    decreases pos, idx, |c[pos][idx].rule.body| - i, 1
  {
    if i == |c[pos][idx].rule.body| then []
    else
      PositionFacts(c, rs, words, pos, idx, i);
      var sym := c[pos][idx].rule.body[i];
      var sp := c[pos][idx].backpointers[i];
      assert IsNonterminal(sym) ==> FirstComplete(c[sp.hi], sym, sp.lo).Some? by {
        if IsNonterminal(sym) {
          FirstIsWitness(c, sym, sp, pos, idx);
        }
      }
      Child(c, rs, words, pos, idx, i) + BuildChildren(c, rs, words, pos, idx, i + 1)
  }

  /**
   * What body position `i` contributes: a leaf `words[start]` for a terminal,
   * the tree of the first matching complete state in column `end` for a
   * nonterminal, and nothing when no such state is found.
   */
  function Child(c: Chart, ghost rs: seq<Rule>, words: seq<string>, pos: nat, idx: nat, i: nat): (ts: seq<ParseTree>)
    requires Inv(c, rs, words) && pos < |c| && idx < |c[pos]| && c[pos][idx].IsComplete()
    requires i < |c[pos][idx].rule.body|
    ensures |ts| <= 1 && (ts != [] ==> ts[0].symbol == c[pos][idx].rule.body[i])
    ensures i < |c[pos][idx].backpointers| && c[pos][idx].backpointers[i].hi <= pos
    ensures ts == [] <==>
      (IsNonterminal(c[pos][idx].rule.body[i]) &&
       FirstComplete(c[c[pos][idx].backpointers[i].hi], c[pos][idx].rule.body[i], c[pos][idx].backpointers[i].lo).None?)
    decreases pos, idx, |c[pos][idx].rule.body| - i, 0
  {
    PositionFacts(c, rs, words, pos, idx, i);
    var st := c[pos][idx];
    var sym := st.rule.body[i];
    var sp := st.backpointers[i];
    if IsNonterminal(sym) then
      match FirstComplete(c[sp.hi], sym, sp.lo)
      case Some(w) =>
        FirstIsWitness(c, sym, sp, pos, idx);
        [BuildTree(c, rs, words, sp.hi, w)]
      case None => []
    else
      [ParseTree(words[sp.lo], [])]
  }

  /** The facts `_build_tree` relies on for body position `i` of the state at (pos, idx). */
  lemma PositionFacts(c: Chart, rs: seq<Rule>, words: seq<string>, pos: nat, idx: nat, i: nat)
    requires Inv(c, rs, words)
    requires pos < |c| && idx < |c[pos]| && c[pos][idx].IsComplete()
    requires i < |c[pos][idx].rule.body|
    ensures Shaped(c[pos][idx], rs, pos)
    ensures SymbolJustified(c, words, c[pos][idx].rule.body[i], c[pos][idx].backpointers[i], pos, idx)
  {
    assert WellPlaced(c, rs, words, pos, idx);
  }

  /**
   * Round trip: on a chart satisfying the invariant, the leaves of the tree
   * rebuilt from a complete state are exactly the tokens that state spans.
   */
  lemma {:induction false} TreeYield(c: Chart, rs: seq<Rule>, words: seq<string>, pos: nat, idx: nat)
    requires Inv(c, rs, words) && |c| == |words| + 1
    requires pos < |c| && idx < |c[pos]| && c[pos][idx].IsComplete()
    ensures c[pos][idx].start <= pos
    ensures Yield(BuildTree(c, rs, words, pos, idx)) == words[c[pos][idx].start..pos]
    decreases pos, idx, |c[pos][idx].rule.body| + 1, 2
  {
    var st := c[pos][idx];
    assert WellPlaced(c, rs, words, pos, idx);
    if st.rule.body == [] {
      assert st.rule != StartRule && IsNonterminal(st.rule.head);
      assert st.start == pos;
    } else {
      ChildrenYield(c, rs, words, pos, idx, 0);
      assert st.backpointers[0].lo == st.start;
    }
  }

  /** The children for positions `i` onwards are one per symbol and yield the tokens from `i`'s span on. */
  lemma {:induction false} ChildrenYield(c: Chart, rs: seq<Rule>, words: seq<string>, pos: nat, idx: nat, i: nat)
    requires Inv(c, rs, words) && |c| == |words| + 1
    requires pos < |c| && idx < |c[pos]| && c[pos][idx].IsComplete()
    requires i <= |c[pos][idx].rule.body|
    ensures |BuildChildren(c, rs, words, pos, idx, i)| == |c[pos][idx].rule.body| - i
    ensures From(c[pos][idx], i, pos) <= pos
    ensures YieldAll(BuildChildren(c, rs, words, pos, idx, i)) == words[From(c[pos][idx], i, pos)..pos]
    decreases pos, idx, |c[pos][idx].rule.body| - i, 1
  {
    var st := c[pos][idx];
    assert WellPlaced(c, rs, words, pos, idx);
    if i < |st.rule.body| {
      var sp := st.backpointers[i];
      var t := ChildYield(c, rs, words, pos, idx, i);
      var rest := BuildChildren(c, rs, words, pos, idx, i + 1);
      ChildrenYield(c, rs, words, pos, idx, i + 1);
      FromStep(st, rs, pos, i);
      ConsYield(t, rest, words, sp.lo, sp.hi, pos);
    }
  }

  lemma FromStep(st: State, rs: seq<Rule>, pos: nat, i: nat)
    requires Shaped(st, rs, pos) && i < |st.backpointers|
    ensures From(st, i, pos) == st.backpointers[i].lo
    ensures From(st, i + 1, pos) == st.backpointers[i].hi
  {
    if i + 1 < |st.backpointers| {
      assert st.backpointers[i + 1 - 1].hi == st.backpointers[i + 1].lo;
    }
  }

  lemma ConsYield(t: ParseTree, rest: seq<ParseTree>, words: seq<string>, lo: nat, hi: nat, pos: nat)
    requires lo <= hi <= pos <= |words|
    requires Yield(t) == words[lo..hi] && YieldAll(rest) == words[hi..pos]
    ensures YieldAll([t] + rest) == words[lo..pos]
  {
    assert ([t] + rest)[0] == t && ([t] + rest)[1..] == rest;
    assert words[lo..hi] + words[hi..pos] == words[lo..pos];
  }

  /** Body position `i` contributes exactly one tree, whose leaves are the tokens of its span. */
  lemma {:induction false} ChildYield(c: Chart, rs: seq<Rule>, words: seq<string>, pos: nat, idx: nat, i: nat) returns (t: ParseTree)
    requires Inv(c, rs, words) && |c| == |words| + 1
    requires pos < |c| && idx < |c[pos]| && c[pos][idx].IsComplete()
    requires i < |c[pos][idx].rule.body|
    ensures Child(c, rs, words, pos, idx, i) == [t]
    ensures i < |c[pos][idx].backpointers| && c[pos][idx].backpointers[i].lo <= c[pos][idx].backpointers[i].hi <= pos
    ensures Yield(t) == words[c[pos][idx].backpointers[i].lo..c[pos][idx].backpointers[i].hi]
    decreases pos, idx, |c[pos][idx].rule.body| - i, 0
  {
    PositionFacts(c, rs, words, pos, idx, i);
    var sp := c[pos][idx].backpointers[i];
    if IsNonterminal(c[pos][idx].rule.body[i]) {
      var w := NodeChild(c, rs, words, pos, idx, i);
      t := BuildTree(c, rs, words, sp.hi, w);
      TreeYield(c, rs, words, sp.hi, w);
    } else {
      t := LeafChild(c, rs, words, pos, idx, i);
    }
  }

  /** A nonterminal position contributes the tree of the first matching complete state, which lies before (pos, idx). */
  lemma NodeChild(c: Chart, rs: seq<Rule>, words: seq<string>, pos: nat, idx: nat, i: nat) returns (w: nat)
    requires Inv(c, rs, words)
    requires pos < |c| && idx < |c[pos]| && c[pos][idx].IsComplete()
    requires i < |c[pos][idx].rule.body| && IsNonterminal(c[pos][idx].rule.body[i])
    ensures Shaped(c[pos][idx], rs, pos)
    ensures var sp := c[pos][idx].backpointers[i];
      && sp.hi < |c| && w < |c[sp.hi]| && (sp.hi == pos ==> w < idx) && sp.hi <= pos
      && Completes(c[sp.hi][w], c[pos][idx].rule.body[i], sp.lo)
      && FirstComplete(c[sp.hi], c[pos][idx].rule.body[i], sp.lo) == Some(w)
      && Child(c, rs, words, pos, idx, i) == [BuildTree(c, rs, words, sp.hi, w)]
  {
    PositionFacts(c, rs, words, pos, idx, i);
    var st := c[pos][idx];
    var sp := st.backpointers[i];
    FirstIsWitness(c, st.rule.body[i], sp, pos, idx);
    w := FirstComplete(c[sp.hi], st.rule.body[i], sp.lo).value;
  }

  /** A terminal position contributes one leaf, the token of its one-token span. */
  lemma LeafChild(c: Chart, rs: seq<Rule>, words: seq<string>, pos: nat, idx: nat, i: nat) returns (t: ParseTree)
    requires Inv(c, rs, words)
    requires pos < |c| && idx < |c[pos]| && c[pos][idx].IsComplete()
    requires i < |c[pos][idx].rule.body| && !IsNonterminal(c[pos][idx].rule.body[i])
    ensures Shaped(c[pos][idx], rs, pos)
    ensures Child(c, rs, words, pos, idx, i) == [t]
    ensures Scanned(words, c[pos][idx].rule.body[i], c[pos][idx].backpointers[i])
    ensures Yield(t) == words[c[pos][idx].backpointers[i].lo..c[pos][idx].backpointers[i].hi]
  {
    PositionFacts(c, rs, words, pos, idx, i);
    var sp := c[pos][idx].backpointers[i];
    assert Scanned(words, c[pos][idx].rule.body[i], sp);
    t := ParseTree(words[sp.lo], []);
    LeafYield(words, c[pos][idx].rule.body[i], sp);
  }

  lemma LeafYield(words: seq<string>, sym: string, sp: Span)
    requires Scanned(words, sym, sp) && !IsNonterminal(sym)
    ensures Yield(ParseTree(words[sp.lo], [])) == words[sp.lo..sp.hi]
  {
    assert Yield(ParseTree(words[sp.lo], [])) == [words[sp.lo]];
  }
}
