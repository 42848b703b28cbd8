/** The `InformationalCodes` enum: 1xx informational responses: the request was received and processing continues. */
module InformationalCodes {
  import opened StatusCode

  /** The members in declaration order. */
  const Members: seq<Entry> := [
    Entry("CONTINUE", 100),
    Entry("SWITCHING_PROTOCAL", 101),
    Entry("EARLY_HINTS", 103)
  ]

  /** There are 3 members and every code lies in 100..199. */
  lemma CodesInClass()
    ensures |Members| == 3
    ensures InRange(Members, 100, 199)
  {
  }

  /** Codes rise in declaration order. */
  lemma CodesIncrease()
    ensures StrictlyIncreasing(Members)
  {
  }

  /** Every name is an identifier. */
  lemma NamesAreIdentifiers()
    ensures forall i :: 0 <= i < |Members| ==> IsEnumName(Members[i].name)
  {
  }

  /** No name occurs twice. */
  lemma NamesDistinct()
    ensures forall i, j :: 0 <= i < j < |Members| ==> Members[i].name != Members[j].name
  {
  }

  /** No name and no code occurs twice, so the enum object loses nothing. */
  lemma MembersWellFormed()
    ensures WellFormed(Members)
  {
    NamesAreIdentifiers();
    NamesDistinct();
    CodesIncrease();
    IncreasingCodesDistinct(Members);
  }

  /** Members the catalogue is known by, and the codes it leaves out: WebDAVCodes holds 102. */
  lemma KnownMembers()
    ensures Members[0] == Entry("CONTINUE", 100)
    ensures Members[1] == Entry("SWITCHING_PROTOCAL", 101)
    ensures Members[2] == Entry("EARLY_HINTS", 103)
    ensures forall i :: 0 <= i < |Members| ==> Members[i].code != 102
  {
  }

  /** The enum object, holding the forward and the reverse entry of every member. */
  function Object(): (o: map<string, Value>)
    ensures |o| == 2 * |Members|
    ensures forall e :: e in Members ==>
      && e.name in o && o[e.name] == Num(e.code)
      && CodeKey(e.code) in o && o[CodeKey(e.code)] == Name(e.name)
  {
    MembersWellFormed();
    EnumObjectSize(Members);
    EnumObjectLookup(Members);
    EnumObject(Members)
  }
}
