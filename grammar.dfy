/** Grammar rules and Earley states (items), as in earley-parser.py. */
module Grammar {

  datatype Option<T> = None | Some(value: T)

  /** A production `head → body`; an empty body is an epsilon rule. */
  datatype Rule = Rule(head: string, body: seq<string>)

  /** A backpointer: the token positions [lo, hi) matched by one body symbol. */
  datatype Span = Span(lo: nat, hi: nat)

  /**
   * An Earley state: `rule` with `dot` body symbols matched, begun at column
   * `start`, with one span per matched symbol. Equality is structural over all
   * four fields, as for the frozen dataclass of the source.
   */
  datatype State = State(rule: Rule, dot: nat, start: nat, backpointers: seq<Span>)
  {
    /** The body symbol right after the dot, or None when the dot is at the end. */
    function NextSymbol(): (r: Option<string>)
      ensures r.Some? <==> dot < |rule.body|
      ensures r.Some? ==> r.value == rule.body[dot]
    {
      if dot < |rule.body| then Some(rule.body[dot]) else None
    }

    /** The dot has reached the end of the body; exactly when there is no next symbol. */
    predicate IsComplete()
      ensures IsComplete() <==> NextSymbol().None?
    {
      dot >= |rule.body|
    }
  }

  /**
   * The source's `symbol[0].isupper()`, read over ASCII capitals. The empty
   * symbol is never a nonterminal (the source tests `next_symbol and ...`).
   */
  predicate IsNonterminal(sym: string)
  {
    |sym| > 0 && 'A' <= sym[0] <= 'Z'
  }

  /** The head of the augmented start rule, reserved for acceptance. */
  const Reserved: string := "γ"

  /** The grammar's start symbol. */
  const StartSymbol: string := "S"

  /** The augmented rule `γ → S`. */
  const StartRule: Rule := Rule(Reserved, [StartSymbol])

  /** The state a prediction creates: nothing matched yet, begun at `k`. */
  function Initial(r: Rule, k: nat): (s: State)
    ensures s.rule == r && s.start == k && s.dot == 0 && s.backpointers == []
    ensures s.IsComplete() <==> r.body == []
  {
    State(r, 0, k, [])
  }

  /** The state with its dot moved over one more symbol, matched over `sp`. */
  function Advance(s: State, sp: Span): (a: State)
    ensures a.rule == s.rule && a.start == s.start && a.dot == s.dot + 1
    ensures |a.backpointers| == |s.backpointers| + 1
    ensures a.backpointers[..|s.backpointers|] == s.backpointers && a.backpointers[|s.backpointers|] == sp
    ensures a.IsComplete() <==> s.dot + 1 >= |s.rule.body|
  {
    State(s.rule, s.dot + 1, s.start, s.backpointers + [sp])
  }

  /** `s` is incomplete and expects `sym` next. */
  predicate Waits(s: State, sym: string)
  {
    !s.IsComplete() && s.NextSymbol() == Some(sym)
  }

  /** `s` is a complete derivation of `sym` begun at `lo`. */
  predicate Completes(s: State, sym: string, lo: nat)
  {
    s.IsComplete() && s.rule.head == sym && s.start == lo
  }

  /** The next symbol is a nonterminal, so the parse loop predicts. */
  predicate Expands(s: State)
    ensures Expands(s) <==> !s.IsComplete() && IsNonterminal(s.rule.body[s.dot])
  {
    s.NextSymbol().Some? && IsNonterminal(s.NextSymbol().value)
  }

  /** The guard of `scan`: a token is left and equals the (non-empty) next symbol. */
  predicate ScanMatches(s: State, k: nat, words: seq<string>)
    ensures ScanMatches(s, k, words) <==>
      !s.IsComplete() && k < |words| && words[k] != "" && s.rule.body[s.dot] == words[k]
  {
    k < |words| && s.NextSymbol().Some? && s.NextSymbol().value != "" && s.NextSymbol().value == words[k]
  }

  /** Some rule for `sym` has an empty body. */
  ghost predicate HasEpsilonRule(rs: seq<Rule>, sym: string)
  {
    exists r :: r in rs && r.head == sym && r.body == []
  }

  /** No rule body mentions the reserved head, so `γ` cannot collide with a grammar symbol. */
  ghost predicate ReservedFree(rs: seq<Rule>)
  {
    forall r :: r in rs ==> Reserved !in r.body
  }

  /** `γ → S •` begun at column 0: the input is accepted. */
  predicate Accepting(s: State)
    ensures Accepting(s) <==> Completes(s, Reserved, 0)
  {
    s.rule.head == Reserved && s.IsComplete() && s.start == 0
  }

  /** A complete `S` state begun at column 0 that matched at least one symbol: the root `parse` rebuilds. */
  predicate TreeRoot(s: State)
    ensures TreeRoot(s) <==> Completes(s, StartSymbol, 0) && s.backpointers != []
  {
    s.IsComplete() && s.rule.head == StartSymbol && s.start == 0 && |s.backpointers| > 0
  }
}
