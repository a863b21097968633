/** Runs of any transition system, and the states they reach. */
module Runs {

  ghost predicate IsRunOf<S(!new), M(!new)>(
      start: S -> bool, next: (S, M, S) -> bool, states: seq<S>, moves: seq<M>)
  {
    && |states| == |moves| + 1 && start(states[0])
    && forall k {:trigger moves[k]} | 0 <= k < |moves| :: next(states[k], moves[k], states[k + 1])
  }

  ghost predicate Reachable<S(!new), M(!new)>(start: S -> bool, next: (S, M, S) -> bool, s: S) {
    exists states: seq<S>, moves: seq<M> :: IsRunOf(start, next, states, moves) && states[|moves|] == s
  }

  /** The states a run can reach. */
  ghost function ReachableStates<S(!new), M(!new)>(start: S -> bool, next: (S, M, S) -> bool): S -> bool {
    s => Reachable(start, next, s)
  }

  /** No step leaves `q`. */
  ghost predicate Preserved<S(!new), M(!new)>(next: (S, M, S) -> bool, q: S -> bool) {
    forall s, m, s' | q(s) && next(s, m, s') :: q(s')
  }

  lemma StartIsReachable<S(!new), M(!new)>(start: S -> bool, next: (S, M, S) -> bool, s: S)
    requires start(s)
    ensures Reachable(start, next, s)
  {
    var none: seq<M> := [];
    assert IsRunOf(start, next, [s], none);
  }

  lemma RunGrows<S(!new), M(!new)>(
      start: S -> bool, next: (S, M, S) -> bool, states: seq<S>, moves: seq<M>, m: M, s': S)
    requires IsRunOf(start, next, states, moves) && next(states[|moves|], m, s')
    ensures IsRunOf(start, next, states + [s'], moves + [m])
  {
    var states', moves' := states + [s'], moves + [m];
    forall k | 0 <= k < |moves'| ensures next(states'[k], moves'[k], states'[k + 1]) {
      if k < |moves| {
        assert next(states[k], moves[k], states[k + 1]);
        assert states'[k + 1] == states[k + 1];
      }
    }
  }

  lemma ReachableIsPreserved<S(!new), M(!new)>(start: S -> bool, next: (S, M, S) -> bool)
    ensures Preserved(next, ReachableStates(start, next))
  {
    forall s, m, s' | Reachable(start, next, s) && next(s, m, s') ensures Reachable(start, next, s') {
      var states, moves :| IsRunOf(start, next, states, moves) && states[|moves|] == s;
      RunGrows(start, next, states, moves, m, s');
      assert (states + [s'])[|moves + [m]|] == s';
    }
  }
}
