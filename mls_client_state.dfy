/** The MLS client state: a group handle driven through openmls's parse, verify and merge
    calls. Those calls are uninterpreted functions here; each either succeeds with a value
    or fails, and only a successful merge produces a new group. openmls works on the group
    in place (`&mut`); that a failing call leaves it as it was is part of this
    abstraction, not something shown of openmls. */
module MlsClientState {
  import opened Types
  import opened Replay

  /** What verifying a parsed message yields; only a staged commit can be merged. */
  datatype ProcessedMessage<C> =
    | ApplicationMessage
    | ProposalMessage
    | StagedCommitMessage(stagedCommit: C)

  /** The openmls entry points, over a group `G`, incoming message `Msg`, parsed message
      `P`, staged commit `C` and key package `K`. `None` is the call's error. Parsing and
      verifying return no group, and a failed merge returns none either: each is taken to
      leave the group unchanged. */
  datatype Openmls<!G, !Msg, !P, !C, K> = Openmls(
    parseMessage: (G, Msg) -> Option<P>,
    processUnverifiedMessage: (G, P) -> Option<ProcessedMessage<C>>,
    mergeStagedCommit: (G, C) -> Option<G>,
    members: G -> seq<K>)

  /** An MLS evolvement, reduced to the message that `apply` reads. */
  datatype MlsEvolvement<Msg> = MlsEvolvement(message: Msg)

  /** An MLS member wraps one key package. */
  datatype MlsMember<K> = MlsMember(keyPackage: K)

  /** The `map`/`collect` of `get_members`: each key package of the group wrapped as a
      member. */
  function MembersOf<G, Msg, P, C, K>(ops: Openmls<G, Msg, P, C, K>, group: G): seq<MlsMember<K>>
  {
    var packages := ops.members(group);
    seq(|packages|, i requires 0 <= i < |packages| => MlsMember(packages[i]))
  }

  /** `apply_processed_message` on a group. */
  function ProcessStep<G, Msg, P, C, K>(ops: Openmls<G, Msg, P, C, K>, group: G, message: ProcessedMessage<C>): (r: Step<G>)
    ensures r.outcome.Fail? ==> r.state == group
    ensures r.outcome.Pass? <==>
              message.StagedCommitMessage? && ops.mergeStagedCommit(group, message.stagedCommit).Some?
    ensures r.outcome.Pass? ==> ops.mergeStagedCommit(group, message.stagedCommit) == Some(r.state)
  {
    match message
    case ApplicationMessage => Step(group, Fail(InvalidMessageError))
    case ProposalMessage => Step(group, Fail(InvalidMessageError))
    case StagedCommitMessage(commit) =>
      match ops.mergeStagedCommit(group, commit)
      case None => Step(group, Fail(ApplyCommitError))
      case Some(merged) => Step(merged, Pass)
  }

  /** `apply` on a group: parse, then verify, then process the verified message. */
  function ApplyStep<G, Msg, P, C, K>(ops: Openmls<G, Msg, P, C, K>, group: G, e: MlsEvolvement<Msg>): (r: Step<G>)
    ensures r.outcome.Fail? ==> r.state == group
    ensures r.outcome.Pass? <==>
              && ops.parseMessage(group, e.message).Some?
              && ops.processUnverifiedMessage(group, ops.parseMessage(group, e.message).value).Some?
              && ProcessStep(ops, group,
                   ops.processUnverifiedMessage(group, ops.parseMessage(group, e.message).value).value).outcome.Pass?
  {
    match ops.parseMessage(group, e.message)
    case None => Step(group, Fail(ParseMessageError))
    case Some(parsed) =>
      match ops.processUnverifiedMessage(group, parsed)
      case None => Step(group, Fail(UnverifiedMessageError))
      case Some(verified) => ProcessStep(ops, group, verified)
  }

  /** `ApplyStep` as the step function of a replay. */
  function ApplyFn<G, Msg, P, C, K>(ops: Openmls<G, Msg, P, C, K>): (G, MlsEvolvement<Msg>) -> Step<G>
  {
    (g, e) => ApplyStep(ops, g, e)
  }

  /** The fixed mapping from each stage's failure to an error: a parse failure is reported
      before verification is tried, a verification failure before any merge; application
      and proposal messages are rejected; Ok only when parse, verify and merge all
      succeed, and then the group is the merged one. */
  lemma ApplyPipeline<G, Msg, P, C, K>(ops: Openmls<G, Msg, P, C, K>, group: G, e: MlsEvolvement<Msg>)
    ensures var parsed := ops.parseMessage(group, e.message);
      && (parsed.None? ==> ApplyStep(ops, group, e) == Step(group, Fail(ParseMessageError)))
      && (parsed.Some? ==>
            var verified := ops.processUnverifiedMessage(group, parsed.value);
            && (verified.None? ==> ApplyStep(ops, group, e) == Step(group, Fail(UnverifiedMessageError)))
            && (verified.Some? && !verified.value.StagedCommitMessage? ==>
                  ApplyStep(ops, group, e) == Step(group, Fail(InvalidMessageError)))
            && (verified.Some? && verified.value.StagedCommitMessage? ==>
                  var merged := ops.mergeStagedCommit(group, verified.value.stagedCommit);
                  && (merged.None? ==> ApplyStep(ops, group, e) == Step(group, Fail(ApplyCommitError)))
                  && (merged.Some? ==> ApplyStep(ops, group, e) == Step(merged.value, Pass))))
  {
  }

  /** Under this abstraction of openmls, a failing `apply` leaves the group untouched;
      this is what the transcript's replay invariant needs of its state. */
  lemma ApplyIsFailureAtomic<G(!new), Msg(!new), P, C, K>(ops: Openmls<G, Msg, P, C, K>)
    ensures FailureAtomic(ApplyFn(ops))
  {
    forall g: G, e: MlsEvolvement<Msg> | ApplyFn(ops)(g, e).outcome.Fail?
      ensures ApplyFn(ops)(g, e).state == g
    {
      assert ApplyFn(ops)(g, e) == ApplyStep(ops, g, e);
    }
  }

  class ClientState<G, Msg, P, C, K(==)> {
    var group: G
    const backend: Openmls<G, Msg, P, C, K>

    constructor (group: G, backend: Openmls<G, Msg, P, C, K>)
      ensures this.group == group && this.backend == backend
    {
      this.group := group;
      this.backend := backend;
    }

    /** `apply_processed_message`: application and proposal messages are rejected with the
        group untouched; a staged commit is merged, and a merge failure is
        `ApplyCommitError`. */
    method ApplyProcessedMessage(message: ProcessedMessage<C>) returns (r: Outcome)
      modifies this`group
      ensures Step(group, r) == ProcessStep(backend, old(group), message)
      ensures !message.StagedCommitMessage? ==> r == Fail(InvalidMessageError) && group == old(group)
    {
      match message
      case ApplicationMessage =>
        r := Fail(InvalidMessageError);
      case ProposalMessage =>
        r := Fail(InvalidMessageError);
      case StagedCommitMessage(commit) =>
        var merged := backend.mergeStagedCommit(group, commit);
        if merged.None? {
          r := Fail(ApplyCommitError);
        } else {
          group := merged.value;
          r := Pass;
        }
    }

    /** `apply`: parse (`ParseMessageError`), verify (`UnverifiedMessageError`), then
        process the verified message. */
    method Apply(e: MlsEvolvement<Msg>) returns (r: Outcome)
      modifies this`group
      ensures Step(group, r) == ApplyStep(backend, old(group), e)
      ensures r.Fail? ==> group == old(group)
    {
      var parsed := backend.parseMessage(group, e.message);
      if parsed.None? {
        return Fail(ParseMessageError);
      }
      var verified := backend.processUnverifiedMessage(group, parsed.value);
      if verified.None? {
        return Fail(UnverifiedMessageError);
      }
      r := ApplyProcessedMessage(verified.value);
    }

    /** `get_members`: one member per key package of the group, in the same order. */
    function GetMembers(): (r: Result<seq<MlsMember<K>>>)
      reads this
      ensures r.Ok? && |r.value| == |backend.members(group)|
      ensures forall i :: 0 <= i < |r.value| ==> r.value[i] == MlsMember(backend.members(group)[i])
    {
      Ok(MembersOf(backend, group))
    }

    /** `apply_log`: apply each entry in order and stop at the first error. */
    method ApplyLog(es: seq<MlsEvolvement<Msg>>) returns (r: Outcome)
      modifies this`group
      ensures Step(group, r) == Run(ApplyFn(backend), old(group), es)
      ensures es == [] ==> r == Pass && group == old(group)
    {
      var i := 0;
      while i < |es|
        invariant 0 <= i <= |es|
        invariant Run(ApplyFn(backend), old(group), es[..i]) == Step(group, Pass)
      {
        r := Apply(es[i]);
        RunSnoc(ApplyFn(backend), old(group), es, i);
        if r.Fail? {
          RunStopsAt(ApplyFn(backend), old(group), es, i);
          return;
        }
        i := i + 1;
      }
      assert es[..i] == es;
      r := Pass;
    }

    /** `verify_client`: whether the group lists the member's key package. The `?` on
        `get_members` never fires, since that call always succeeds. */
    function VerifyClient(member: MlsMember<K>): (r: Result<bool>)
      reads this
      ensures r.Ok? && (r.value <==> member.keyPackage in backend.members(group))
    {
      var members := GetMembers().value;
      Ok(member in members)
    }
  }
}
