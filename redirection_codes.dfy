/** The `RedirectionCodes` enum: 3xx redirection responses: the client must take further action. */
module RedirectionCodes {
  import opened StatusCode

  /** The members in declaration order. */
  const Members: seq<Entry> := [
    Entry("MULTIPLE_CHOICE", 300),
    Entry("MOVED_PERMANENTLY", 301),
    Entry("FOUND", 302),
    Entry("SEE_OTHER", 303),
    Entry("NOT_MODIFIED", 304),
    Entry("USE_PROXY", 305),
    Entry("TEMPORARY_REDIRECT", 307),
    Entry("PERMANENT_REDIRECT", 308)
  ]

  /** There are 8 members and every code lies in 300..399. */
  lemma CodesInClass()
    ensures |Members| == 8
    ensures InRange(Members, 300, 399)
  {
  }

  /** Codes rise in declaration order. */
  lemma CodesIncrease()
    ensures StrictlyIncreasing(Members)
  {
  }

  /** Every name is an identifier. */
  lemma NamesAreIdentifiers()
    ensures forall i :: 0 <= i < |Members| ==> IsEnumName(Members[i].name)
  {
  }

  /** No name occurs twice. */
  lemma NamesDistinct()
    ensures forall i, j :: 0 <= i < j < |Members| ==> Members[i].name != Members[j].name
  {
  }

  /** No name and no code occurs twice, so the enum object loses nothing. */
  lemma MembersWellFormed()
    ensures WellFormed(Members)
  {
    NamesAreIdentifiers();
    NamesDistinct();
    CodesIncrease();
    IncreasingCodesDistinct(Members);
  }

  /** Members the catalogue is known by, and the codes it leaves out: 306 is unused (section 6.4.6 of RFC 7231). */
  lemma KnownMembers()
    ensures Members[0] == Entry("MULTIPLE_CHOICE", 300)
    ensures Members[5] == Entry("USE_PROXY", 305)
    ensures Members[6] == Entry("TEMPORARY_REDIRECT", 307)
    ensures Members[7] == Entry("PERMANENT_REDIRECT", 308)
    ensures forall i :: 0 <= i < |Members| ==> Members[i].code != 306
  {
  }

  /** The enum object, holding the forward and the reverse entry of every member. */
  function Object(): (o: map<string, Value>)
    ensures |o| == 2 * |Members|
    ensures forall e :: e in Members ==>
      && e.name in o && o[e.name] == Num(e.code)
      && CodeKey(e.code) in o && o[CodeKey(e.code)] == Name(e.name)
  {
    MembersWellFormed();
    EnumObjectSize(Members);
    EnumObjectLookup(Members);
    EnumObject(Members)
  }
}
