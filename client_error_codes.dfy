/** The `ClientErrorCodes` enum: 4xx client error responses: the request has bad syntax or cannot be fulfilled. */
module ClientErrorCodes {
  import opened StatusCode

  /** The members in declaration order. */
  const Members: seq<Entry> := [
    Entry("BAD_REQUEST", 400),
    Entry("UNAUTHORIZED", 401),
    Entry("PAYMENT_REQUIRED", 402),
    Entry("FORBIDDEN", 403),
    Entry("NOT_FOUND", 404),
    Entry("METHOD_NOT_ALLOWED", 405),
    Entry("NOT_ACCEPTABLE", 406),
    Entry("PROXY_AUTHENTICATION_REQUIRED", 407),
    Entry("REQUEST_TIMEOUT", 408),
    Entry("CONFLICT", 409),
    Entry("GONE", 410),
    Entry("LENGTH_REQUIRED", 411),
    Entry("PRECONDITION_FAILED", 412),
    Entry("PAYLOAD_TOO_LARGE", 413),
    Entry("URI_TOO_LONG", 414),
    Entry("UNSUPPORTED_MEDIA_TYPE", 415),
    Entry("RANGE_NOT_SATISFIABLE", 416),
    Entry("EXPECTATION_FAILED", 417),
    Entry("IM_A_TEAPOT", 418),
    Entry("MISDIRECTED_REQUEST", 421),
    Entry("TOO_EARLY", 425),
    Entry("UPGRADE_REQUIRED", 426),
    Entry("PRECONDITION_REQUIRED", 428),
    Entry("TOO_MANY_REQUESTS", 429),
    Entry("REQUEST_HEADER_FIELDS_TOO_LARGE", 431),
    Entry("UNAVAILABLE_FOR_LEGAL_REASONS", 451)
  ]

  /** There are 26 members and every code lies in 400..499. */
  lemma CodesInClass()
    ensures |Members| == 26
    ensures InRange(Members, 400, 499)
  {
  }

  /** Codes rise in declaration order. */
  lemma CodesIncrease()
    ensures StrictlyIncreasing(Members)
  {
  }

  /** Every name is an identifier. */
  lemma NamesAreIdentifiers()
    ensures forall i :: 0 <= i < |Members| ==> IsEnumName(Members[i].name)
  {
  }

  /** No name occurs twice. */
  lemma NamesDistinct()
    ensures forall i, j :: 0 <= i < j < |Members| ==> Members[i].name != Members[j].name
  {
    NamesDistinctWithinFirst();
    NamesDistinctFirstSecond();
    NamesDistinctFirstThird();
    NamesDistinctWithinSecond();
    NamesDistinctSecondThird();
    NamesDistinctWithinThird();
  }

  // The table is long: its 325 pairs of names are compared in three blocks of members.

  lemma NamesDistinctWithinFirst()
    ensures |Members| == 26
    ensures forall i, j :: 0 <= i < j < 9 ==> Members[i].name != Members[j].name
  {
  }

  lemma NamesDistinctFirstSecond()
    ensures |Members| == 26
    ensures forall i, j :: 0 <= i < 9 && 9 <= j < 18 ==> Members[i].name != Members[j].name
  {
  }

  lemma NamesDistinctFirstThird()
    ensures |Members| == 26
    ensures forall i, j :: 0 <= i < 9 && 18 <= j < 26 ==> Members[i].name != Members[j].name
  {
  }

  lemma NamesDistinctWithinSecond()
    ensures |Members| == 26
    ensures forall i, j :: 9 <= i < j < 18 ==> Members[i].name != Members[j].name
  {
  }

  lemma NamesDistinctSecondThird()
    ensures |Members| == 26
    ensures forall i, j :: 9 <= i < 18 && 18 <= j < 26 ==> Members[i].name != Members[j].name
  {
  }

  lemma NamesDistinctWithinThird()
    ensures |Members| == 26
    ensures forall i, j :: 18 <= i < j < 26 ==> Members[i].name != Members[j].name
  {
  }

  /** No name and no code occurs twice, so the enum object loses nothing. */
  lemma MembersWellFormed()
    ensures WellFormed(Members)
  {
    NamesAreIdentifiers();
    NamesDistinct();
    CodesIncrease();
    IncreasingCodesDistinct(Members);
  }

  /** Members the catalogue is known by, and the codes it leaves out: WebDAVCodes holds 422, 423 and 424. */
  lemma KnownMembers()
    ensures Members[4] == Entry("NOT_FOUND", 404)
    ensures Members[18] == Entry("IM_A_TEAPOT", 418)
    ensures Members[25] == Entry("UNAVAILABLE_FOR_LEGAL_REASONS", 451)
    ensures forall i :: 0 <= i < |Members| ==> Members[i].code != 422 && Members[i].code != 423 && Members[i].code != 424
  {
  }

  /** The enum object, holding the forward and the reverse entry of every member. */
  function Object(): (o: map<string, Value>)
    ensures |o| == 2 * |Members|
    ensures forall e :: e in Members ==>
      && e.name in o && o[e.name] == Num(e.code)
      && CodeKey(e.code) in o && o[CodeKey(e.code)] == Name(e.name)
  {
    MembersWellFormed();
    EnumObjectSize(Members);
    EnumObjectLookup(Members);
    EnumObject(Members)
  }
}
