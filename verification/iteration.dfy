/** Repeating a step that can go on, stop with an exit value, or fault; and what stands where in a piece of code. */
module Iteration {

  datatype Progress<+S, +X> = Running(now: S) | Stopped(last: S, exit: X) | Fault

  function Iterate<S, X>(step: S -> Progress<S, X>, s: S, n: nat): Progress<S, X>
    decreases n
  {
    if n == 0 then Running(s)
    else
      match step(s)
      case Running(s') => Iterate(step, s', n - 1)
      case stop => stop
  }

  lemma {:induction false} IterateAppend<S, X>(step: S -> Progress<S, X>, s: S, a: nat, b: nat)
    requires Iterate(step, s, a).Running?
    ensures Iterate(step, s, a + b) == Iterate(step, Iterate(step, s, a).now, b)
    decreases a
  {
    if a > 0 {
      IterateAppend(step, step(s).now, a - 1, b);
    }
  }

  // Once stopped, more steps change nothing.
  lemma {:induction false} IterateStopped<S, X>(step: S -> Progress<S, X>, s: S, a: nat, b: nat)
    requires !Iterate(step, s, a).Running? && a <= b
    ensures Iterate(step, s, b) == Iterate(step, s, a)
    decreases a
  {
    if a > 0 && step(s).Running? {
      IterateStopped(step, step(s).now, a - 1, b - 1);
    }
  }

  // `part` stands in `code` at `at`.
  ghost predicate At<T(!new)>(code: seq<T>, at: int, part: seq<T>) {
    0 <= at && at + |part| <= |code| && code[at..at + |part|] == part
  }

  lemma AtAppend<T(!new)>(code: seq<T>, at: int, a: seq<T>, b: seq<T>)
    requires At(code, at, a + b)
    ensures At(code, at, a) && At(code, at + |a|, b)
  {
    var window := code[at..at + |a + b|];
    assert window[..|a|] == a && window[|a|..] == b;
    assert code[at..at + |a|] == window[..|a|];
    assert code[at + |a|..at + |a| + |b|] == window[|a|..];
  }
}
