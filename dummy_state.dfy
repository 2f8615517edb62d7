/** The no-crypto state: the member list, overwritten by each evolvement's snapshot. */
module DummyState {
  import opened Types
  import opened Replay
  import opened DummyMember
  import opened DummyEvolvement

  /** `apply` as a step on the member list: the snapshot replaces the list, and it never
      fails. */
  function ApplyStep(members: seq<Member>, e: Evolvement): (r: Step<seq<Member>>)
    ensures r.outcome == Pass
    ensures r.state == e.members
  {
    Step(e.members, Pass)
  }

  /** The result of `apply` does not depend on the prior members, so applying the same
      evolvement twice is the same as applying it once. */
  lemma ApplyIgnoresPriorState(s: seq<Member>, t: seq<Member>, e: Evolvement)
    ensures ApplyStep(s, e) == ApplyStep(t, e)
    ensures ApplyStep(ApplyStep(s, e).state, e) == ApplyStep(s, e)
  {
  }

  /** Applying only the last evolvement of a non-empty log, as `apply_log` does, has the
      same effect as applying every entry in order. */
  lemma {:induction false} LastEqualsReplay(s: seq<Member>, es: seq<Evolvement>)
    requires |es| > 0
    ensures Run(ApplyStep, s, es) == Step(es[|es| - 1].members, Pass)
    decreases |es|
  {
    if |es| > 1 {
      LastEqualsReplay(es[0].members, es[1..]);
    }
  }

  class State {
    var members: seq<Member>

    /** `Default`: no members. */
    constructor Default()
      ensures members == []
    {
      members := [];
    }

    /** The struct literal `EidDummyState { members }`. */
    constructor FromMembers(members: seq<Member>)
      ensures this.members == members
    {
      this.members := members;
    }

    /** `clone`: a fresh state with the same members. */
    method Clone() returns (c: State)
      ensures fresh(c) && c.members == members
    {
      c := new State.FromMembers(members);
    }

    /** `apply`: whatever the variant, the members become the evolvement's list; always Ok. */
    method Apply(e: Evolvement) returns (r: Outcome)
      modifies this`members
      ensures Step(members, r) == ApplyStep(old(members), e)
      ensures members == e.members && r == Pass
    {
      members := e.members;
      r := Pass;
    }

    /** `apply_log`: applies the last evolvement only. `last().unwrap()` panics on an empty
        log, hence the precondition. */
    method ApplyLog(es: seq<Evolvement>) returns (r: Outcome)
      requires |es| > 0
      modifies this`members
      ensures members == es[|es| - 1].members && r == Pass
      ensures Step(members, r) == Run(ApplyStep, old(members), es)
    {
      var last := es[|es| - 1];
      r := Apply(last);
      LastEqualsReplay(old(members), es);
    }

    /** `verify_member`: answers `Ok(true)` for every member, present or not. */
    function VerifyMember(m: Member): (r: Result<bool>)
      reads this
      ensures r == Ok(true)
    {
      Ok(true)
    }

    /** `get_members`: a copy of the member list. */
    function GetMembers(): (r: Result<seq<Member>>)
      reads this
      ensures r.Ok? && r.value == members
    {
      Ok(members)
    }
  }
}
