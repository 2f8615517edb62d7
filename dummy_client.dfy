/** The no-crypto client. Each operation copies the current member list, edits the copy and
    returns it as an evolvement; the client itself is never changed. The client's own
    public key, which the source reads from its key store, is a parameter here. */
module DummyClient {
  import opened Types
  import opened DummyMember
  import opened DummyEvolvement
  import opened DummyState
  import DummyKeystore

  /** Position of the first member with key `pk`, as `iter().position(...)` finds it. */
  function FirstMatch(xs: seq<Member>, pk: Bytes): (r: Option<nat>)
    ensures r.None? <==> forall j :: 0 <= j < |xs| ==> xs[j].pk != pk
    ensures r.Some? ==> r.value < |xs| && xs[r.value].pk == pk
    ensures r.Some? ==> forall j :: 0 <= j < r.value ==> xs[j].pk != pk
    decreases |xs|
  {
    if xs == [] then None
    else if xs[0].pk == pk then Some(0)
    else
      match FirstMatch(xs[1..], pk)
      case None => None
      case Some(i) => Some(i + 1)
  }

  /** `Vec::swap_remove(i)`: the last element takes position `i` and the length drops by
      one; as a multiset, one occurrence of `xs[i]` is gone. */
  function SwapRemove<T>(xs: seq<T>, i: nat): (r: seq<T>)
    requires i < |xs|
    ensures |r| == |xs| - 1
    ensures i < |r| ==> r[i] == xs[|xs| - 1]
    ensures forall j :: 0 <= j < |r| && j != i ==> r[j] == xs[j]
    ensures multiset(r) == multiset(xs) - multiset{xs[i]}
  {
    var last := |xs| - 1;
    if i == last then
      assert xs == xs[..last] + [xs[last]];
      xs[..last]
    else
      assert xs == xs[..i] + [xs[i]] + xs[i + 1..last] + [xs[last]];
      xs[..i] + [xs[last]] + xs[i + 1..last]
  }

  /** `retain(|m| m.pk != pk)`, filtering from the back of the list. */
  function Retain(xs: seq<Member>, pk: Bytes): (r: seq<Member>)
    ensures |r| <= |xs|
    decreases |xs|
  {
    if xs == [] then []
    else
      var init, last := xs[..|xs| - 1], xs[|xs| - 1];
      var kept := Retain(init, pk);
      if last.pk != pk then kept + [last] else kept
  }

  /** `retain` drops every member with key `pk` and keeps every occurrence of every other
      member. */
  lemma {:induction false} RetainCounts(xs: seq<Member>, pk: Bytes)
    ensures forall m :: multiset(Retain(xs, pk))[m] == if m.pk == pk then 0 else multiset(xs)[m]
    ensures forall m :: m in Retain(xs, pk) <==> m in xs && m.pk != pk
    decreases |xs|
  {
    if xs != [] {
      var init, last := xs[..|xs| - 1], xs[|xs| - 1];
      assert xs == init + [last];
      RetainCounts(init, pk);
      forall m
        ensures m in Retain(xs, pk) <==> m in xs && m.pk != pk
      {
        assert m in Retain(xs, pk) <==> multiset(Retain(xs, pk))[m] > 0;
        assert m in xs <==> multiset(xs)[m] > 0;
      }
    }
  }

  /** `retain` keeps the order: filtering a concatenation filters each part. */
  lemma {:induction false} RetainAppend(xs: seq<Member>, ys: seq<Member>, pk: Bytes)
    ensures Retain(xs + ys, pk) == Retain(xs, pk) + Retain(ys, pk)
    decreases |ys|
  {
    if ys == [] {
      assert xs + ys == xs;
    } else {
      var init, last := ys[..|ys| - 1], ys[|ys| - 1];
      assert (xs + ys)[..|xs + ys| - 1] == xs + init;
      assert (xs + ys)[|xs + ys| - 1] == last;
      RetainAppend(xs, init, pk);
    }
  }

  /** `new_pk[0] = new_pk[0] + 1` on a copy of the key; the `u8` addition panics at 255 and
      indexing panics on an empty key. */
  function BumpKey(pk: Bytes): (r: Bytes)
    requires |pk| > 0 && pk[0] < 255
    ensures |r| == |pk| && r[0] == pk[0] + 1 && r[1..] == pk[1..]
    ensures r != pk
  {
    pk[0 := pk[0] + 1]
  }

  /** `remove` undoes `add` for a member whose key was not yet present: the appended member
      is the first match, and swapping out the last position gives the old list back. */
  lemma AddThenRemove(xs: seq<Member>, m: Member)
    requires m !in xs
    ensures FirstMatch(xs + [m], m.pk) == Some(|xs|)
    ensures SwapRemove(xs + [m], |xs|) == xs
  {
    assert (xs + [m])[|xs|].pk == m.pk;
  }

  class Client {
    const state: State
    const keyStore: DummyKeystore.Keystore

    /** `create_eid`: a client whose state lists exactly the initial member. */
    constructor CreateEid(initialMember: Member, keyStore: DummyKeystore.Keystore)
      ensures fresh(state)
      ensures state.members == [initialMember] && this.keyStore == keyStore
    {
      state := new State.FromMembers([initialMember]);
      this.keyStore := keyStore;
    }

    /** `add`: the current list with `member` appended at the end. There is no duplicate
        check and no error: a member already present appears once more. */
    method Add(member: Member) returns (r: Result<Evolvement>)
      ensures r.Ok? && r.value.Add?
      ensures r.value.members == state.members + [member]
      ensures multiset(r.value.members)[member] == multiset(state.members)[member] + 1
    {
      var newMembers := state.members;
      newMembers := newMembers + [member];
      r := Ok(Evolvement.Add(newMembers));
    }

    /** `remove`: the first member with the same key is swap-removed; without such a member
        the list is returned unchanged, and still Ok. */
    method Remove(member: Member) returns (r: Result<Evolvement>)
      ensures r.Ok? && r.value.Remove?
      ensures FirstMatch(state.members, member.pk).Some? <==> member in state.members
      ensures member !in state.members ==> r.value.members == state.members
      ensures member in state.members ==>
                r.value.members == SwapRemove(state.members, FirstMatch(state.members, member.pk).value)
      ensures member in state.members ==>
                multiset(r.value.members) == multiset(state.members) - multiset{member}
    {
      var members := state.members;
      var pos := 0;
      while pos < |members| && members[pos].pk != member.pk
        invariant 0 <= pos <= |members|
        invariant forall j :: 0 <= j < pos ==> members[j].pk != member.pk
      {
        pos := pos + 1;
      }
      ghost var found := FirstMatch(members, member.pk);
      if pos < |members| {
        assert members[pos] == member;
        assert found.Some? && found.value == pos;
        members := SwapRemove(members, pos);
      } else {
        assert member !in members;
      }
      r := Ok(Evolvement.Remove(members));
    }

    /** `update`: every member holding the client's own key is dropped and one member with
        that key's first byte incremented is appended; the old key is then absent. */
    method Update(ownKey: Bytes) returns (r: Result<Evolvement>)
      requires |ownKey| > 0 && ownKey[0] < 255
      ensures r.Ok? && r.value.Update?
      ensures r.value.members == Retain(state.members, ownKey) + [New(BumpKey(ownKey))]
      ensures forall m :: m in r.value.members ==> m.pk != ownKey
      ensures forall m :: m in state.members && m.pk != ownKey ==> m in r.value.members
    {
      var members := state.members;
      var newMembers: seq<Member> := [];
      var i := 0;
      while i < |members|
        invariant 0 <= i <= |members|
        invariant newMembers == Retain(members[..i], ownKey)
      {
        assert members[..i + 1][..i] == members[..i];
        if members[i].pk != ownKey {
          newMembers := newMembers + [members[i]];
        }
        i := i + 1;
      }
      assert members[..i] == members;
      RetainCounts(members, ownKey);
      var newPk := ownKey;
      newPk := newPk[0 := newPk[0] + 1];
      newMembers := newMembers + [New(newPk)];
      r := Ok(Evolvement.Update(newMembers));
    }
  }
}
