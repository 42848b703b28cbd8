/**
 * The package entry point: the six category enums spread into one object
 * `HttpStatusCodes`, and what `listSupportedCodesByNode` makes of that object.
 */
module HttpStatusCodes {
  import opened StatusCode
  import opened Sequences
  import opened ObjectSpread
  import opened Reconciliation
  import InformationalCodes
  import SuccessfulCodes
  import RedirectionCodes
  import ClientErrorCodes
  import ServerErrorCodes
  import WebDAVCodes
  import CrossCategory

  /** The category tables in the order `HttpStatusCodes` spreads them. */
  function CategoryMembers(): seq<seq<Entry>> {
    [WebDAVCodes.Members, InformationalCodes.Members, SuccessfulCodes.Members,
     RedirectionCodes.Members, ClientErrorCodes.Members, ServerErrorCodes.Members]
  }

  /** The category enum objects in the same order. */
  function Categories(): seq<map<string, Value>> {
    EnumObjects(CategoryMembers())
  }

  /**
   * `HttpStatusCodes`, the default export: the six category objects spread in
   * order, which builds the enum object of all 62 members in that order.
   */
  function Merged(): (m: map<string, Value>)
    ensures m == EnumObject(AllMembers())
  {
    SpreadEnumObjects(CategoryMembers());
    Spread(Categories())
  }

  /** Every member of every category, in merge order. */
  function AllMembers(): seq<Entry> {
    Flatten(CategoryMembers())
  }

  /** Each entry of the spread list is the object its category file exports. */
  lemma CategoriesAreExports()
    ensures Categories()[0] == WebDAVCodes.Object()
    ensures Categories()[1] == InformationalCodes.Object()
    ensures Categories()[2] == SuccessfulCodes.Object()
    ensures Categories()[3] == RedirectionCodes.Object()
    ensures Categories()[4] == ClientErrorCodes.Object()
    ensures Categories()[5] == ServerErrorCodes.Object()
  {
    var cm := CategoryMembers();
    assert cm[0] == WebDAVCodes.Members;
    assert cm[1] == InformationalCodes.Members;
    assert cm[2] == SuccessfulCodes.Members;
    assert cm[3] == RedirectionCodes.Members;
    assert cm[4] == ClientErrorCodes.Members;
    assert cm[5] == ServerErrorCodes.Members;
  }

  /** The catalogue lists the six category tables one after another. */
  lemma AllMembersJoined()
    ensures AllMembers() == WebDAVCodes.Members + InformationalCodes.Members + SuccessfulCodes.Members
                          + RedirectionCodes.Members + ClientErrorCodes.Members + ServerErrorCodes.Members
  {
    var cm := CategoryMembers();
    assert cm[..1][..0] == [];
    assert Flatten(cm[..1]) == cm[0];
    assert cm[..2][..1] == cm[..1];
    assert Flatten(cm[..2]) == cm[0] + cm[1];
    assert cm[..3][..2] == cm[..2];
    assert Flatten(cm[..3]) == cm[0] + cm[1] + cm[2];
    assert cm[..4][..3] == cm[..3];
    assert Flatten(cm[..4]) == cm[0] + cm[1] + cm[2] + cm[3];
    assert cm[..5][..4] == cm[..4];
    assert Flatten(cm[..5]) == cm[0] + cm[1] + cm[2] + cm[3] + cm[4];
    assert cm[..5] == cm[..|cm| - 1];
  }

  /**
   * No name and no code occurs in two category files; in particular every
   * WebDAV code is missing from the file of its own class.
   */
  lemma CategoriesDisjoint()
    ensures forall a, b :: 0 <= a < b < |CategoryMembers()| ==> Disjoint(CategoryMembers()[a], CategoryMembers()[b])
  {
    CrossCategory.WebDAVInformationalDisjoint();
    CrossCategory.WebDAVSuccessfulDisjoint();
    CrossCategory.WebDAVRedirectionDisjoint();
    CrossCategory.WebDAVClientErrorDisjoint();
    CrossCategory.WebDAVServerErrorDisjoint();
    CrossCategory.InformationalSuccessfulDisjoint();
    CrossCategory.InformationalRedirectionDisjoint();
    CrossCategory.InformationalClientErrorDisjoint();
    CrossCategory.InformationalServerErrorDisjoint();
    CrossCategory.SuccessfulRedirectionDisjoint();
    CrossCategory.SuccessfulClientErrorDisjoint();
    CrossCategory.SuccessfulServerErrorDisjoint();
    CrossCategory.RedirectionClientErrorDisjoint();
    CrossCategory.RedirectionServerErrorDisjoint();
    CrossCategory.ClientErrorServerErrorDisjoint();
  }

  /** Every category table is well formed. */
  lemma CategoriesWellFormed()
    ensures forall t :: 0 <= t < |CategoryMembers()| ==> WellFormed(CategoryMembers()[t])
  {
    WebDAVCodes.MembersWellFormed();
    InformationalCodes.MembersWellFormed();
    SuccessfulCodes.MembersWellFormed();
    RedirectionCodes.MembersWellFormed();
    ClientErrorCodes.MembersWellFormed();
    ServerErrorCodes.MembersWellFormed();
  }

  /** All 62 members together have distinct names and distinct codes. */
  lemma AllMembersWellFormed()
    ensures |AllMembers()| == 62
    ensures WellFormed(AllMembers())
  {
    WebDAVCodes.CodesInClass();
    InformationalCodes.CodesInClass();
    SuccessfulCodes.CodesInClass();
    RedirectionCodes.CodesInClass();
    ClientErrorCodes.CodesInClass();
    ServerErrorCodes.CodesInClass();
    AllMembersJoined();
    CategoriesWellFormed();
    CategoriesDisjoint();
    WellFormedFlatten(CategoryMembers());
  }

  /**
   * Merge coverage: every key of every category object is in `HttpStatusCodes`
   * with the value the category gives it.
   */
  lemma MergeCoverage()
    ensures forall c, k :: 0 <= c < |Categories()| && k in Categories()[c] ==>
      k in Merged() && Merged()[k] == Categories()[c][k]
  {
    AllMembersWellFormed();
    CategoriesWellFormed();
    forall c, k | 0 <= c < |Categories()| && k in Categories()[c]
      ensures k in Merged() && Merged()[k] == Categories()[c][k]
    {
      FlattenCoversKey(CategoryMembers(), c, k);
    }
  }

  /**
   * The merge is lossless: 62 forward entries (8 + 3 + 8 + 8 + 26 + 9) and
   * 62 reverse entries, the reverse keys being the members' code strings.
   */
  lemma MergeLossless()
    ensures |ForwardKeys(Merged())| == 62
    ensures |ReverseKeys(Merged())| == 62
    ensures |Merged()| == 124
    ensures ReverseKeys(Merged()) == set e | e in AllMembers() :: CodeKey(e.code)
  {
    AllMembersWellFormed();
    ForwardKeysCount(AllMembers());
    ReverseKeysCount(AllMembers());
    EnumObjectSize(AllMembers());
    ReverseKeysAreCodeKeys(AllMembers());
  }

  // ---------------------------------------------------------------------------
  // What listSupportedCodesByNode makes of the shipped catalogue
  // ---------------------------------------------------------------------------

  /**
   * Of `HttpStatusCodes` the filter keeps exactly the 62 reverse keys, the code
   * strings such as "404", and drops every symbolic name such as "NOT_FOUND".
   */
  lemma KeptAreCodeStrings(keys: seq<string>)
    requires IsKeyOrder(keys, Merged())
    ensures forall k :: k in Kept(keys, Merged()) <==> exists e :: e in AllMembers() && k == CodeKey(e.code)
    ensures forall e :: e in AllMembers() ==> e.name !in Kept(keys, Merged())
    ensures NoDuplicates(Kept(keys, Merged()))
    ensures |Kept(keys, Merged())| == 62
  {
    AllMembersWellFormed();
    KeptOfEnum(keys, AllMembers());
  }

  /**
   * Whatever the host table, the string of each member's code is reported
   * supported exactly when the host table has it, and unsupported otherwise.
   */
  lemma HostCodeKeysMatched(keys: seq<string>, host: seq<string>)
    requires IsKeyOrder(keys, Merged())
    ensures forall e :: e in AllMembers() ==>
      && (CodeKey(e.code) in Partition(Kept(keys, Merged()), host).supported <==> CodeKey(e.code) in host)
      && (CodeKey(e.code) in Partition(Kept(keys, Merged()), host).unsupported <==> CodeKey(e.code) !in host)
  {
    AllMembersWellFormed();
    forall e | e in AllMembers()
      ensures CodeKey(e.code) in Partition(Kept(keys, Merged()), host).supported <==> CodeKey(e.code) in host
      ensures CodeKey(e.code) in Partition(Kept(keys, Merged()), host).unsupported <==> CodeKey(e.code) !in host
    {
      HostCodeKeyOfEnum(keys, AllMembers(), host, e);
    }
  }

  /** Whatever the host table, no symbolic name is reported at all, supported or not. */
  lemma NamesNeverReported(keys: seq<string>, host: seq<string>)
    requires IsKeyOrder(keys, Merged())
    ensures forall e :: e in AllMembers() ==>
      e.name !in Partition(Kept(keys, Merged()), host).supported &&
      e.name !in Partition(Kept(keys, Merged()), host).unsupported
  {
    AllMembersWellFormed();
    forall e | e in AllMembers()
      ensures e.name !in Partition(Kept(keys, Merged()), host).supported
      ensures e.name !in Partition(Kept(keys, Merged()), host).unsupported
    {
      HostNameOfEnum(keys, AllMembers(), host, e);
    }
  }

  /**
   * A host table keyed by names, such as ["OK"] or ["ok"], is never matched:
   * when no host key begins with a digit, nothing is supported and all 62
   * code strings are unsupported.
   */
  lemma HostNameIsNeverSupported(keys: seq<string>, host: seq<string>)
    requires IsKeyOrder(keys, Merged())
    requires forall h :: h in host ==> h == [] || !IsDigit(h[0])
    ensures Partition(Kept(keys, Merged()), host).supported == []
    ensures Partition(Kept(keys, Merged()), host).unsupported == Kept(keys, Merged())
  {
    AllMembersWellFormed();
    HostNamesOfEnum(keys, AllMembers(), host);
  }

  /**
   * A host table whose only key is "404" is matched: the supported list is
   * exactly ["404"], and "404" is not unsupported.
   */
  lemma HostCodeKeyIsSupported(keys: seq<string>)
    requires IsKeyOrder(keys, Merged())
    ensures Partition(Kept(keys, Merged()), ["404"]).supported == ["404"]
    ensures "404" !in Partition(Kept(keys, Merged()), ["404"]).unsupported
  {
    AllMembersWellFormed();
    NotFoundIsMember();
    HostCodeKeyAloneOfEnum(keys, AllMembers(), Entry("NOT_FOUND", 404));
  }

  /** `NOT_FOUND = 404` is in the catalogue, and its code string is "404". */
  lemma NotFoundIsMember()
    ensures Entry("NOT_FOUND", 404) in AllMembers()
    ensures CodeKey(404) == "404"
  {
    ClientErrorCodes.KnownMembers();
    MemberOfFlatten(CategoryMembers(), 4, 4);
  }

  /** `OK = 200` is in the catalogue. */
  lemma OkIsMember()
    ensures Entry("OK", 200) in AllMembers()
  {
    SuccessfulCodes.KnownMembers();
    MemberOfFlatten(CategoryMembers(), 2, 0);
  }
}
