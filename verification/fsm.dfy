/** The slice of the token-driven state machine the commands rely on: a step function folded
    over the command-line arguments. Only the `Continue` outcome is used by the comment
    command, so it is the only one modelled. */
module Fsm {
  datatype NextState<S> = Continue(state: S)

  datatype StateMachine<!S, -I> = StateMachine(handler: (S, I) -> NextState<S>, state: S)

  function New<S, I>(handler: (S, I) -> NextState<S>, init: S): (m: StateMachine<S, I>)
    ensures m.state == init && m.handler == handler
  {
    StateMachine(handler, init)
  }

  /** One token: the handler's `Continue` state becomes the current state. */
  function Process<S, I>(m: StateMachine<S, I>, input: I): (r: StateMachine<S, I>)
    ensures r.handler == m.handler
    ensures r.state == m.handler(m.state, input).state
  {
    match m.handler(m.state, input)
    case Continue(next) => m.(state := next)
  }

  function ExtractState<S, I>(m: StateMachine<S, I>): S {
    m.state
  }

  /** Reference fold: the state after feeding `tokens` in order from `init`. */
  function Run<S, I>(handler: (S, I) -> NextState<S>, init: S, tokens: seq<I>): S
    decreases |tokens|
  {
    if |tokens| == 0 then init
    else handler(Run(handler, init, tokens[..|tokens| - 1]), tokens[|tokens| - 1]).state
  }

  /** Feeding two batches of tokens one after the other is feeding their concatenation. */
  lemma {:induction false} RunAppend<S, I>(handler: (S, I) -> NextState<S>, init: S, xs: seq<I>, ys: seq<I>)
    ensures Run(handler, init, xs + ys) == Run(handler, Run(handler, init, xs), ys)
    decreases |ys|
  {
    if |ys| > 0 {
      var n := |ys| - 1;
      RunAppend(handler, init, xs, ys[..n]);
      assert (xs + ys)[..|xs + ys| - 1] == xs + ys[..n];
      assert (xs + ys)[|xs + ys| - 1] == ys[n];
    } else {
      assert xs + ys == xs;
    }
  }

  /** Processing tokens one at a time in a loop computes the reference fold. */
  method Drive<S, I>(handler: (S, I) -> NextState<S>, init: S, tokens: seq<I>) returns (final: S)
    ensures final == Run(handler, init, tokens)
  {
    var m := New(handler, init);
    for k := 0 to |tokens|
      invariant m.handler == handler
      invariant m.state == Run(handler, init, tokens[..k])
    {
      assert tokens[..k + 1][..k] == tokens[..k];
      m := Process(m, tokens[k]);
    }
    assert tokens[..|tokens|] == tokens;
    final := ExtractState(m);
  }
}
