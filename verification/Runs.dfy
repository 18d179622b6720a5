/** Runs of a system given by its next-state function: None means that the move is not possible. */
module Runs {
  import opened Options

  type Steps<!S, !M> = (S, M) -> Option<S>

  /** The state after the given moves, if each of them is possible. */
  ghost function Exec<S, M>(next: Steps<S, M>, init: S, moves: seq<M>): Option<S> {
    if moves == [] then Some(init)
    else
      var before := Exec(next, init, moves[..|moves| - 1]);
      if before.None? then None else next(before.value, moves[|moves| - 1])
  }

  ghost predicate Reachable<S, M(!new)>(next: Steps<S, M>, init: S, s: S) {
    exists moves :: Exec(next, init, moves) == Some(s)
  }

  ghost predicate Stuck<S, M(!new)>(next: Steps<S, M>, s: S) {
    forall m :: next(s, m).None?
  }

  ghost predicate Inductive<S(!new), M(!new)>(next: Steps<S, M>, init: S, inv: S -> bool) {
    inv(init) && forall s, m :: inv(s) && next(s, m).Some? ==> inv(next(s, m).value)
  }

  lemma {:induction false} ExecInv<S(!new), M(!new)>(next: Steps<S, M>, init: S, inv: S -> bool, moves: seq<M>)
    requires Inductive(next, init, inv) && Exec(next, init, moves).Some?
    ensures inv(Exec(next, init, moves).value)
  {
    if moves != [] {
      ExecInv(next, init, inv, moves[..|moves| - 1]);
    }
  }

  /** What holds at the start and is kept by every step holds in every reachable state. */
  lemma ReachableInv<S(!new), M(!new)>(next: Steps<S, M>, init: S, inv: S -> bool, s: S)
    requires Inductive(next, init, inv) && Reachable(next, init, s)
    ensures inv(s)
  {
    var moves :| Exec(next, init, moves) == Some(s);
    ExecInv(next, init, inv, moves);
  }

  lemma ReachableInit<S, M(!new)>(next: Steps<S, M>, init: S)
    ensures Reachable(next, init, init)
  {
    assert Exec(next, init, []) == Some(init);
  }

  lemma ReachableStep<S, M(!new)>(next: Steps<S, M>, init: S, s: S, m: M)
    requires Reachable(next, init, s) && next(s, m).Some?
    ensures Reachable(next, init, next(s, m).value)
  {
    var moves :| Exec(next, init, moves) == Some(s);
    assert (moves + [m])[..|moves|] == moves;
    assert Exec(next, init, moves + [m]) == next(s, m);
  }

  /** Every step lowers the fuel, which never falls below 0. */
  ghost predicate Fuelled<S(!new), M(!new)>(next: Steps<S, M>, inv: S -> bool, fuel: S -> int) {
    && (forall s :: inv(s) ==> fuel(s) >= 0)
    && forall s, m :: inv(s) && next(s, m).Some? ==> fuel(next(s, m).value) < fuel(s)
  }

  lemma {:induction false} RunsAreBounded<S(!new), M(!new)>(next: Steps<S, M>, init: S, inv: S -> bool,
      fuel: S -> int, moves: seq<M>)
    requires Inductive(next, init, inv) && Fuelled(next, inv, fuel) && Exec(next, init, moves).Some?
    ensures |moves| + fuel(Exec(next, init, moves).value) <= fuel(init)
  {
    if moves != [] {
      RunsAreBounded(next, init, inv, fuel, moves[..|moves| - 1]);
      ExecInv(next, init, inv, moves[..|moves| - 1]);
    }
  }

  /** So every reachable state goes on to a stuck one. */
  lemma {:induction false} RunsEnd<S(!new), M(!new)>(next: Steps<S, M>, init: S, inv: S -> bool,
      fuel: S -> int, s: S) returns (end: S)
    requires Inductive(next, init, inv) && Fuelled(next, inv, fuel) && Reachable(next, init, s)
    ensures Reachable(next, init, end) && Stuck(next, end)
    decreases fuel(s)
  {
    ReachableInv(next, init, inv, s);
    if Stuck(next, s) {
      end := s;
    } else {
      var m :| next(s, m).Some?;
      ReachableStep(next, init, s, m);
      ReachableInv(next, init, inv, next(s, m).value);
      end := RunsEnd(next, init, inv, fuel, next(s, m).value);
    }
  }
}
