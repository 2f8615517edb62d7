/** The no-crypto evolvement: every variant carries a full snapshot of the member list. */
module DummyEvolvement {
  import opened DummyMember

  /** Each variant has the one field `members`, so `e.members` is total. */
  datatype Evolvement =
    | Add(members: seq<Member>)
    | Update(members: seq<Member>)
    | Remove(members: seq<Member>)

  /** `Default`: an `Add` of the empty list. */
  function Default(): (e: Evolvement)
    ensures e.Add? && e.members == []
  {
    Add([])
  }

  /** No ordering is enforced: every evolvement is a valid successor of every other. */
  function IsValidSuccessor(e: Evolvement, previous: Evolvement): (b: bool)
    ensures b
  {
    true
  }
}
