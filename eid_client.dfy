/** The default `batch_evolve` of the client interface, over the client's own abstract
    `evolve`. */
module EidClientTrait {
  import opened Types
  import opened Replay

  /** A client whose whole state is `state`; `evolve` is the implementation's
      `evolve(&mut self, evolvement)`: the state it leaves and what it returns. */
  class Client<S, E> {
    var state: S
    const evolve: (S, E) -> Step<S>

    constructor (state: S, evolve: (S, E) -> Step<S>)
      ensures this.state == state && this.evolve == evolve
    {
      this.state := state;
      this.evolve := evolve;
    }

    /** The abstract `evolve`. */
    method Evolve(evolvement: E) returns (r: Outcome)
      modifies this`state
      ensures Step(state, r) == evolve(old(state), evolvement)
    {
      var next := evolve(state, evolvement);
      state := next.state;
      r := next.outcome;
    }

    /** Evolve by each evolvement in list order, returning the first error. */
    method BatchEvolve(evolvements: seq<E>) returns (r: Outcome)
      modifies this`state
      ensures Step(state, r) == Run(evolve, old(state), evolvements)
      ensures evolvements == [] ==> r == Pass && state == old(state)
      ensures r.Fail? ==> Accepted(evolve, old(state), evolvements) < |evolvements|
    {
      var i := 0;
      while i < |evolvements|
        invariant 0 <= i <= |evolvements|
        invariant Run(evolve, old(state), evolvements[..i]) == Step(state, Pass)
      {
        r := Evolve(evolvements[i]);
        RunSnoc(evolve, old(state), evolvements, i);
        if r.Fail? {
          RunStopsAt(evolve, old(state), evolvements, i);
          return;
        }
        i := i + 1;
      }
      assert evolvements[..i] == evolvements;
      r := Pass;
    }
  }
}
