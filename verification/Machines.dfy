/** Runs of state machines: which actions may happen in a state, and the state after one. */
module Machines {
  datatype Machine<!W, !A> = Machine(enabled: (W, A) -> bool, next: (W, A) -> W)

  ghost function After<W, A>(m: Machine<W, A>, w: W, actions: seq<A>): W
    decreases |actions|
  {
    if actions == [] then w else m.next(After(m, w, actions[..|actions| - 1]), actions[|actions| - 1])
  }

  // Every action is enabled when its turn comes.
  ghost predicate Legal<W, A>(m: Machine<W, A>, w: W, actions: seq<A>)
    decreases |actions|
  {
    actions != [] ==>
      && Legal(m, w, actions[..|actions| - 1])
      && m.enabled(After(m, w, actions[..|actions| - 1]), actions[|actions| - 1])
  }

  ghost predicate Reaches<W, A(!new)>(m: Machine<W, A>, w0: W, w: W) {
    exists actions :: Legal(m, w0, actions) && After(m, w0, actions) == w
  }

  lemma ReachesItself<W, A(!new)>(m: Machine<W, A>, w0: W)
    ensures Reaches(m, w0, w0)
  {
    assert Legal(m, w0, []) && After(m, w0, []) == w0;
  }

  lemma Then<W, A(!new)>(m: Machine<W, A>, w0: W, w: W, a: A) returns (w': W)
    requires Reaches(m, w0, w) && m.enabled(w, a)
    ensures w' == m.next(w, a) && Reaches(m, w0, w')
  {
    var actions :| Legal(m, w0, actions) && After(m, w0, actions) == w;
    var longer := actions + [a];
    assert longer[..|longer| - 1] == actions;
    w' := m.next(w, a);
    assert Legal(m, w0, longer) && After(m, w0, longer) == w';
  }
}
