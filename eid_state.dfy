/** The default `verify_member` of the state interface, over the state's abstract
    `get_members`. Both take `&self`, so they are functions of the state. The member type's
    `PartialEq` is the parameter `eq`. */
module EidStateTrait {

  /** `xs.contains(x)`: some element `y` of `xs` has `y == x` under `eq`. */
  function Contains<M>(eq: (M, M) -> bool, xs: seq<M>, x: M): (b: bool)
    ensures b <==> exists i :: 0 <= i < |xs| && eq(xs[i], x)
    decreases |xs|
  {
    if xs == [] then false
    else eq(xs[0], x) || Contains(eq, xs[1..], x)
  }

  /** `get_members().contains(member)`. */
  function VerifyMember<S, M>(getMembers: S -> seq<M>, eq: (M, M) -> bool, s: S, member: M): (b: bool)
    ensures b <==> exists i :: 0 <= i < |getMembers(s)| && eq(getMembers(s)[i], member)
    ensures getMembers(s) == [] ==> !b
  {
    Contains(eq, getMembers(s), member)
  }

  /** When `PartialEq` is transitive, members it equates (in both directions) get the same
      answer, and the answer depends only on the member list: two states listing the same
      members verify the same members. */
  lemma VerifyMemberRespectsEquality<S, M(!new)>(getMembers: S -> seq<M>, eq: (M, M) -> bool,
                                           s: S, t: S, m: M, n: M)
    requires forall a, b, c :: eq(a, b) && eq(b, c) ==> eq(a, c)
    requires eq(m, n) && eq(n, m)
    requires getMembers(s) == getMembers(t)
    ensures VerifyMember(getMembers, eq, s, m) == VerifyMember(getMembers, eq, t, n)
  {
    var xs := getMembers(s);
    if VerifyMember(getMembers, eq, s, m) {
      var i :| 0 <= i < |xs| && eq(xs[i], m);
      assert eq(xs[i], n);
    }
    if VerifyMember(getMembers, eq, t, n) {
      var i :| 0 <= i < |xs| && eq(xs[i], n);
      assert eq(xs[i], m);
    }
  }

  /** With structural equality as `PartialEq`, as for members that derive it,
      `verify_member` is plain list membership. */
  lemma VerifyMemberStructural<S, M>(getMembers: S -> seq<M>, s: S, m: M)
    ensures VerifyMember(getMembers, (a: M, b: M) => a == b, s, m) <==> m in getMembers(s)
  {
    var xs := getMembers(s);
    if m in xs {
      var i :| 0 <= i < |xs| && xs[i] == m;
      assert ((a: M, b: M) => a == b)(xs[i], m);
    }
  }
}
