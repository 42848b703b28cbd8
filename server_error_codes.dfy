/** The `ServerErrorCodes` enum: 5xx server error responses: the server failed to fulfil an apparently valid request. */
module ServerErrorCodes {
  import opened StatusCode

  /** The members in declaration order. */
  const Members: seq<Entry> := [
    Entry("INTERNAL_SERVER_ERROR", 500),
    Entry("NOT_IMPLEMENTED", 501),
    Entry("BAD_GATEWAY", 502),
    Entry("SERVICE_UNAVAILABLE", 503),
    Entry("GATEWAY_TIMEOUT", 504),
    Entry("HTTP_VERSION_NOT_SUPPORTED", 505),
    Entry("VARIANT_ALSO_NEGOTIATES", 506),
    Entry("NOT_EXTENDED", 510),
    Entry("NETWORK_AUTHENTICATION_REQUIRED", 511)
  ]

  /** There are 9 members and every code lies in 500..599. */
  lemma CodesInClass()
    ensures |Members| == 9
    ensures InRange(Members, 500, 599)
  {
  }

  /** Codes rise in declaration order. */
  lemma CodesIncrease()
    ensures StrictlyIncreasing(Members)
  {
  }

  /** Every name is an identifier. */
  lemma NamesAreIdentifiers()
    ensures forall i :: 0 <= i < |Members| ==> IsEnumName(Members[i].name)
  {
  }

  /** No name occurs twice. */
  lemma NamesDistinct()
    ensures forall i, j :: 0 <= i < j < |Members| ==> Members[i].name != Members[j].name
  {
  }

  /** No name and no code occurs twice, so the enum object loses nothing. */
  lemma MembersWellFormed()
    ensures WellFormed(Members)
  {
    NamesAreIdentifiers();
    NamesDistinct();
    CodesIncrease();
    IncreasingCodesDistinct(Members);
  }

  /** Members the catalogue is known by, and the codes it leaves out: WebDAVCodes holds 507 and 508. */
  lemma KnownMembers()
    ensures Members[0] == Entry("INTERNAL_SERVER_ERROR", 500)
    ensures Members[8] == Entry("NETWORK_AUTHENTICATION_REQUIRED", 511)
    ensures forall i :: 0 <= i < |Members| ==> Members[i].code != 507 && Members[i].code != 508
  {
  }

  /** The enum object, holding the forward and the reverse entry of every member. */
  function Object(): (o: map<string, Value>)
    ensures |o| == 2 * |Members|
    ensures forall e :: e in Members ==>
      && e.name in o && o[e.name] == Num(e.code)
      && CodeKey(e.code) in o && o[CodeKey(e.code)] == Name(e.name)
  {
    MembersWellFormed();
    EnumObjectSize(Members);
    EnumObjectLookup(Members);
    EnumObject(Members)
  }
}
