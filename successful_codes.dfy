/** The `SuccessfulCodes` enum: 2xx successful responses: the request was received, understood and accepted. */
module SuccessfulCodes {
  import opened StatusCode

  /** The members in declaration order. */
  const Members: seq<Entry> := [
    Entry("OK", 200),
    Entry("CREATED", 201),
    Entry("ACCEPTED", 202),
    Entry("NON_AUTHORITATIVE_INFORMATION", 203),
    Entry("NO_CONTENT", 204),
    Entry("RESET_CONTENT", 205),
    Entry("PARTIAL_CONTENT", 206),
    Entry("IM_USED", 226)
  ]

  /** There are 8 members and every code lies in 200..299. */
  lemma CodesInClass()
    ensures |Members| == 8
    ensures InRange(Members, 200, 299)
  {
  }

  /** Codes rise in declaration order. */
  lemma CodesIncrease()
    ensures StrictlyIncreasing(Members)
  {
  }

  /** Every name is an identifier. */
  lemma NamesAreIdentifiers()
    ensures forall i :: 0 <= i < |Members| ==> IsEnumName(Members[i].name)
  {
  }

  /** No name occurs twice. */
  lemma NamesDistinct()
    ensures forall i, j :: 0 <= i < j < |Members| ==> Members[i].name != Members[j].name
  {
  }

  /** No name and no code occurs twice, so the enum object loses nothing. */
  lemma MembersWellFormed()
    ensures WellFormed(Members)
  {
    NamesAreIdentifiers();
    NamesDistinct();
    CodesIncrease();
    IncreasingCodesDistinct(Members);
  }

  /** Members the catalogue is known by, and the codes it leaves out: WebDAVCodes holds 207 and 208. */
  lemma KnownMembers()
    ensures Members[0] == Entry("OK", 200)
    ensures Members[7] == Entry("IM_USED", 226)
    ensures forall i :: 0 <= i < |Members| ==> Members[i].code != 207 && Members[i].code != 208
  {
  }

  /** The enum object, holding the forward and the reverse entry of every member. */
  function Object(): (o: map<string, Value>)
    ensures |o| == 2 * |Members|
    ensures forall e :: e in Members ==>
      && e.name in o && o[e.name] == Num(e.code)
      && CodeKey(e.code) in o && o[CodeKey(e.code)] == Name(e.name)
  {
    MembersWellFormed();
    EnumObjectSize(Members);
    EnumObjectLookup(Members);
    EnumObject(Members)
  }
}
