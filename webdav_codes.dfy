/** The `WebDAVCodes` enum: the codes WebDAV adds (RFC 2518, RFC 4918, RFC 5842); a member may come from any class. */
module WebDAVCodes {
  import opened StatusCode

  /** The members in declaration order. */
  const Members: seq<Entry> := [
    Entry("PROCESSING", 102),
    Entry("MULTI_STATUS", 207),
    Entry("ALREADY_REPORTED", 208),
    Entry("UNPROCESSABLE_ENTITY", 422),
    Entry("LOCKED", 423),
    Entry("FAILED_DEPENDENCY", 424),
    Entry("INSUFFICIENT_STORAGE", 507),
    Entry("LOOP_DETECTED", 508)
  ]

  /** There are 8 members and every code lies in 100..599. */
  lemma CodesInClass()
    ensures |Members| == 8
    ensures InRange(Members, 100, 599)
  {
  }

  /** Codes rise in declaration order. */
  lemma CodesIncrease()
    ensures StrictlyIncreasing(Members)
  {
  }

  /** Every name is an identifier. */
  lemma NamesAreIdentifiers()
    ensures forall i :: 0 <= i < |Members| ==> IsEnumName(Members[i].name)
  {
  }

  /** No name occurs twice. */
  lemma NamesDistinct()
    ensures forall i, j :: 0 <= i < j < |Members| ==> Members[i].name != Members[j].name
  {
  }

  /** No name and no code occurs twice, so the enum object loses nothing. */
  lemma MembersWellFormed()
    ensures WellFormed(Members)
  {
    NamesAreIdentifiers();
    NamesDistinct();
    CodesIncrease();
    IncreasingCodesDistinct(Members);
  }

  /** Members the catalogue is known by. */
  lemma KnownMembers()
    ensures Members[0] == Entry("PROCESSING", 102)
    ensures Members[4] == Entry("LOCKED", 423)
    ensures Members[7] == Entry("LOOP_DETECTED", 508)
  {
  }

  /** The enum object, holding the forward and the reverse entry of every member. */
  function Object(): (o: map<string, Value>)
    ensures |o| == 2 * |Members|
    ensures forall e :: e in Members ==>
      && e.name in o && o[e.name] == Num(e.code)
      && CodeKey(e.code) in o && o[CodeKey(e.code)] == Name(e.name)
  {
    MembersWellFormed();
    EnumObjectSize(Members);
    EnumObjectLookup(Members);
    EnumObject(Members)
  }
}
