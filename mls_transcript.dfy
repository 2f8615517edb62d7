/** The MLS transcript: a trusted state fixed at creation, a current state and the log of
    evolvements applied to reach it. Its state type is abstract: `apply` is the state's
    `apply`, `getMembers` its `get_members` and `serde` its serialising copy, which either
    fails or yields an equal copy.

    The transcript's invariant, `current_state` is the replay of `log` over
    `trusted_state`, holds only if a failing `apply` leaves the state as it found it,
    because `evolve` leaves whatever a failed `apply` did to `current_state` in place. That
    is an assumption on the state type, stated as `FailureAtomic(apply)`;
    `MlsClientState.ApplyIsFailureAtomic` shows the client state meets it. */
module MlsTranscript {
  import opened Types
  import opened Replay
  import MlsClientState

  class Transcript<S(!new), E(!new), M> {
    const trustedState: S
    var currentState: S
    var log: seq<E>
    const apply: (S, E) -> Step<S>
    const getMembers: S -> Result<seq<M>>
    const serde: S -> Outcome

    ghost predicate Valid()
      reads this
    {
      && FailureAtomic(apply)
      && Run(apply, trustedState, log) == Step(currentState, Pass)
    }

    /** The transcript before its log is replayed: the current state is the trusted state
        and the log is empty. */
    constructor Init(trustedState: S, apply: (S, E) -> Step<S>, getMembers: S -> Result<seq<M>>,
                     serde: S -> Outcome)
      requires FailureAtomic(apply)
      ensures Valid()
      ensures this.trustedState == trustedState && currentState == trustedState && log == []
      ensures this.apply == apply && this.getMembers == getMembers && this.serde == serde
    {
      this.trustedState := trustedState;
      this.currentState := trustedState;
      this.log := [];
      this.apply := apply;
      this.getMembers := getMembers;
      this.serde := serde;
    }

    /** `new`: copy the trusted state (which may fail), start from it with an empty log and
        evolve through each given log entry; the first error is returned. */
    static method New(trustedState: S, log: seq<E>, apply: (S, E) -> Step<S>,
                      getMembers: S -> Result<seq<M>>, serde: S -> Outcome)
      returns (r: Result<Transcript<S, E, M>>)
      requires FailureAtomic(apply)
      ensures serde(trustedState).Fail? ==> r == Err(serde(trustedState).error)
      ensures serde(trustedState).Pass? ==> (r.Ok? <==> Run(apply, trustedState, log).outcome.Pass?)
      ensures serde(trustedState).Pass? && r.Err? ==> r.error == Run(apply, trustedState, log).outcome.error
      ensures r.Ok? ==> && fresh(r.value) && r.value.Valid()
                        && r.value.trustedState == trustedState && r.value.log == log
                        && r.value.currentState == Run(apply, trustedState, log).state
                        && r.value.apply == apply && r.value.getMembers == getMembers
                        && r.value.serde == serde
    {
      var copied := serde(trustedState);
      if copied.Fail? {
        return Err(copied.error);
      }
      var t := new Transcript.Init(trustedState, apply, getMembers, serde);
      var replayed := t.BatchEvolve(log);
      if replayed.Fail? {
        return Err(replayed.error);
      }
      r := Ok(t);
    }

    /** `evolve`: apply to the current state; only when that succeeds is the evolvement
        appended to the log. The trusted state never changes. */
    method Evolve(e: E) returns (r: Outcome)
      requires Valid()
      modifies this`currentState, this`log
      ensures Valid()
      ensures Step(currentState, r) == apply(old(currentState), e)
      ensures log == if r.Pass? then old(log) + [e] else old(log)
      ensures r.Fail? ==> currentState == old(currentState)
    {
      var next := apply(currentState, e);
      currentState := next.state;
      if next.outcome.Fail? {
        return next.outcome;
      }
      RunAppend(apply, trustedState, log, [e]);
      assert [e][1..] == [];
      log := log + [e];
      r := Pass;
    }

    /** Batch evolve: `evolve` by each entry in order, stopping at the first error; the
        entries before it stay applied and logged. */
    method BatchEvolve(es: seq<E>) returns (r: Outcome)
      requires Valid()
      modifies this`currentState, this`log
      ensures Valid()
      ensures Step(currentState, r) == Run(apply, old(currentState), es)
      ensures log == old(log) + es[..Accepted(apply, old(currentState), es)]
    {
      var i := 0;
      while i < |es|
        invariant 0 <= i <= |es|
        invariant Valid()
        invariant log == old(log) + es[..i]
        invariant Run(apply, old(currentState), es[..i]) == Step(currentState, Pass)
      {
        r := Evolve(es[i]);
        RunSnoc(apply, old(currentState), es, i);
        if r.Fail? {
          RunStopsAt(apply, old(currentState), es, i);
          return;
        }
        assert es[..i + 1] == es[..i] + [es[i]];
        i := i + 1;
      }
      assert es[..i] == es;
      r := Pass;
    }

    /** `log`: a copy of the log. */
    function Log(): (l: seq<E>)
      reads this
      ensures l == log
    {
      log
    }

    /** `get_members`: the members of the current state, which are the members of the
        replay of the log over the trusted state. */
    function GetMembers(): (r: Result<seq<M>>)
      reads this
      requires Valid()
      ensures r == getMembers(Run(apply, trustedState, log).state)
    {
      getMembers(currentState)
    }

    /** `get_trusted_state`: a serialising copy of the trusted state, or the copy's error. */
    function GetTrustedState(): (r: Result<S>)
      reads this
      ensures r.Ok? <==> serde(trustedState).Pass?
      ensures r.Ok? ==> r.value == trustedState
      ensures r.Err? ==> r.error == serde(trustedState).error
    {
      match serde(trustedState)
      case Fail(e) => Err(e)
      case Pass => Ok(trustedState)
    }
  }

  /** A client state and a transcript bootstrapped from the same group and fed the same
      log agree on the group and on the member list. */
  method Convergence<G(!new), Msg(!new), P, C, K(==)>(
    ops: MlsClientState.Openmls<G, Msg, P, C, K>, group: G,
    es: seq<MlsClientState.MlsEvolvement<Msg>>, serde: G -> Outcome)
    returns (client: MlsClientState.ClientState<G, Msg, P, C, K>,
             t: Result<Transcript<G, MlsClientState.MlsEvolvement<Msg>, MlsClientState.MlsMember<K>>>)
    ensures fresh(client)
    ensures t.Ok? <==> serde(group).Pass? && Run(MlsClientState.ApplyFn(ops), group, es).outcome.Pass?
    ensures t.Ok? ==> t.value.Valid() && t.value.currentState == client.group
    ensures t.Ok? ==> t.value.Valid() && t.value.GetMembers() == client.GetMembers()
  {
    client := new MlsClientState.ClientState(group, ops);
    var applied := client.ApplyLog(es);
    MlsClientState.ApplyIsFailureAtomic(ops);
    t := Transcript.New(group, es, MlsClientState.ApplyFn(ops), g => Ok(MlsClientState.MembersOf(ops, g)), serde);
  }
}
