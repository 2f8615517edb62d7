/** Default methods of the MLS state interface, over the implementation's abstract
    `apply` and `get_members`. */
module MlsStateTrait {
  import opened Types
  import opened Replay

  /** Default `verify_client`: an error from `get_members` propagates; otherwise whether the
      member list contains an element equal to `client`. */
  function VerifyClient<S, M(==)>(getMembers: S -> Result<seq<M>>, s: S, client: M): (r: Result<bool>)
    ensures getMembers(s).Err? ==> r == Err(getMembers(s).error)
    ensures getMembers(s).Ok? ==> r.Ok?
    ensures getMembers(s).Ok? ==>
              (r.value <==> exists i :: 0 <= i < |getMembers(s).value| && getMembers(s).value[i] == client)
  {
    match getMembers(s)
    case Err(e) => Err(e)
    case Ok(members) => Ok(client in members)
  }

  /** A state whose `apply(&mut self, evolvement)` is `apply`. */
  class MlsState<S, E> {
    var state: S
    const apply: (S, E) -> Step<S>

    constructor (state: S, apply: (S, E) -> Step<S>)
      ensures this.state == state && this.apply == apply
    {
      this.state := state;
      this.apply := apply;
    }

    /** The abstract `apply`. */
    method Apply(evolvement: E) returns (r: Outcome)
      modifies this`state
      ensures Step(state, r) == apply(old(state), evolvement)
    {
      var next := apply(state, evolvement);
      state := next.state;
      r := next.outcome;
    }

    /** Default `apply_log`: apply each entry in order and return the first error. */
    method ApplyLog(log: seq<E>) returns (r: Outcome)
      modifies this`state
      ensures Step(state, r) == Run(apply, old(state), log)
      ensures log == [] ==> r == Pass && state == old(state)
    {
      var i := 0;
      while i < |log|
        invariant 0 <= i <= |log|
        invariant Run(apply, old(state), log[..i]) == Step(state, Pass)
      {
        r := Apply(log[i]);
        RunSnoc(apply, old(state), log, i);
        if r.Fail? {
          RunStopsAt(apply, old(state), log, i);
          return;
        }
        i := i + 1;
      }
      assert log[..i] == log;
      r := Pass;
    }
  }
}
