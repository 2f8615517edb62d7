/** The no-crypto member: nothing but a public key, compared by that key. */
module DummyMember {
  import opened Types

  datatype Member = Member(pk: Bytes)

  /** `Member::new(cred)`: the credential becomes the public key. */
  function New(cred: Bytes): (m: Member)
    ensures m.pk == cred
  {
    Member(cred)
  }

  /** `get_pk`: a copy of the key; the member is rebuilt from it unchanged. */
  function GetPk(m: Member): (pk: Bytes)
    ensures New(pk) == m
  {
    m.pk
  }

  /** The hand-written `PartialEq`: equal keys. It coincides with structural equality. */
  function Eq(a: Member, b: Member): (r: bool)
    ensures r <==> a == b
  {
    a.pk == b.pk
  }

  lemma GetPkOfNew(cred: Bytes)
    ensures GetPk(New(cred)) == cred
  {
  }

  /** `Eq` is an equivalence, as the derived `Eq` marker promises. */
  lemma EqIsEquivalence(a: Member, b: Member, c: Member)
    ensures Eq(a, a)
    ensures Eq(a, b) == Eq(b, a)
    ensures Eq(a, b) && Eq(b, c) ==> Eq(a, c)
  {
  }

  lemma NewInjective(a: Bytes, b: Bytes)
    ensures Eq(New(a), New(b)) <==> a == b
  {
  }
}
