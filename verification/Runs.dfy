/** Runs of a step system, put together. */
module Runs {

  /** The steps lead from one state to another. */
  predicate Chain<S(==), T>(ok: (S, T) -> bool, next: (S, T) -> S, s: S, steps: seq<T>, last: S)
    decreases |steps|
  {
    if steps == [] then s == last else ok(s, steps[0]) && Chain(ok, next, next(s, steps[0]), steps[1..], last)
  }

  /** What one run reaches, another can go on from. */
  lemma {:induction false} ChainBoth<S, T>(ok: (S, T) -> bool, next: (S, T) -> S, s: S, first: seq<T>, middle: S, second: seq<T>, last: S)
    requires Chain(ok, next, s, first, middle) && Chain(ok, next, middle, second, last)
    ensures Chain(ok, next, s, first + second, last)
    decreases |first|
  {
    if first == [] {
      assert first + second == second;
    } else {
      ChainBoth(ok, next, next(s, first[0]), first[1..], middle, second, last);
      assert (first + second)[1..] == first[1..] + second;
    }
  }
}
