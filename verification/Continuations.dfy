/** Looping in continuation-passing style, as in
    clients/typescript/src/client/util/continuationHelpers.ts. */
module Continuations {

  /** What one round does: go on with a new state, or end everything with a result. */
  datatype Round<S, R> = GoOn(state: S) | End(result: R)

  /** Each element is handed the rest of the loop as its continuation. */
  function ForEach<X, S, R>(f: (X, S -> R) -> (S -> R), xs: seq<X>, cont: S -> R): S -> R {
    if xs == [] then cont else f(xs[0], ForEach(f, xs[1..], cont))
  }

  /** The plain loop. */
  function Loop<X, S, R>(body: (X, S) -> Round<S, R>, xs: seq<X>, s: S): Round<S, R> {
    if xs == [] then GoOn(s)
    else
      var round := body(xs[0], s);
      if round.End? then round else Loop(body, xs[1..], round.state)
  }

  /** f calls its continuation once, at the end of the body, unless the body ends everything. */
  ghost predicate CallsBack<X(!new), S(!new), R(!new)>(f: (X, S -> R) -> (S -> R), body: (X, S) -> Round<S, R>) {
    forall x: X, k: S -> R, s: S ::
      f(x, k)(s) == if body(x, s).End? then body(x, s).result else k(body(x, s).state)
  }

  /** The loop in continuation-passing style runs the bodies in order and then the continuation,
      and leaves out all that follows a body that ends everything. */
  lemma {:induction false} ForEachIsLoop<X(!new), S(!new), R(!new)>(
      f: (X, S -> R) -> (S -> R), body: (X, S) -> Round<S, R>, xs: seq<X>, cont: S -> R, s: S)
    requires CallsBack(f, body)
    ensures ForEach(f, xs, cont)(s) ==
            if Loop(body, xs, s).End? then Loop(body, xs, s).result else cont(Loop(body, xs, s).state)
  {
    if xs != [] {
      var rest := ForEach(f, xs[1..], cont);
      assert f(xs[0], rest)(s) == if body(xs[0], s).End? then body(xs[0], s).result else rest(body(xs[0], s).state);
      if body(xs[0], s).GoOn? {
        ForEachIsLoop(f, body, xs[1..], cont, body(xs[0], s).state);
      }
    }
  }
}
