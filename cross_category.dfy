/**
 * The six category files compared pairwise: no two of them declare the same
 * name or the same code. The range of each class and the codes known to be
 * missing from a class file keep each comparison small.
 */
module CrossCategory {
  import opened StatusCode
  import InformationalCodes
  import SuccessfulCodes
  import RedirectionCodes
  import ClientErrorCodes
  import ServerErrorCodes
  import WebDAVCodes

  lemma WebDAVInformationalDisjoint()
    ensures Disjoint(WebDAVCodes.Members, InformationalCodes.Members)
  {
    InformationalCodes.CodesInClass();
    InformationalCodes.KnownMembers();
  }

  lemma WebDAVSuccessfulDisjoint()
    ensures Disjoint(WebDAVCodes.Members, SuccessfulCodes.Members)
  {
    SuccessfulCodes.CodesInClass();
    SuccessfulCodes.KnownMembers();
  }

  lemma WebDAVRedirectionDisjoint()
    ensures Disjoint(WebDAVCodes.Members, RedirectionCodes.Members)
  {
    RedirectionCodes.CodesInClass();
  }

  lemma WebDAVClientErrorDisjoint()
    ensures Disjoint(WebDAVCodes.Members, ClientErrorCodes.Members)
  {
    WebDAVClientErrorNames(0, 13);
    WebDAVClientErrorNames(13, 26);
    ClientErrorCodes.CodesInClass();
    ClientErrorCodes.KnownMembers();
  }

  /**
   * No WebDAV name is the name of a client error member between `lo` and `hi`.
   * The 8 x 26 name comparisons are done in two halves because all of them at
   * once are more than the verifier handles comfortably; the requires names
   * the two halves.
   */
  lemma WebDAVClientErrorNames(lo: nat, hi: nat)
    requires (lo, hi) == (0, 13) || (lo, hi) == (13, 26)
    ensures forall i, j :: 0 <= i < |WebDAVCodes.Members| && lo <= j < hi ==>
      WebDAVCodes.Members[i].name != ClientErrorCodes.Members[j].name
  {
  }

  lemma WebDAVServerErrorDisjoint()
    ensures Disjoint(WebDAVCodes.Members, ServerErrorCodes.Members)
  {
    ServerErrorCodes.CodesInClass();
    ServerErrorCodes.KnownMembers();
  }

  lemma InformationalSuccessfulDisjoint()
    ensures Disjoint(InformationalCodes.Members, SuccessfulCodes.Members)
  {
    InformationalCodes.CodesInClass();
    SuccessfulCodes.CodesInClass();
  }

  lemma InformationalRedirectionDisjoint()
    ensures Disjoint(InformationalCodes.Members, RedirectionCodes.Members)
  {
    InformationalCodes.CodesInClass();
    RedirectionCodes.CodesInClass();
  }

  lemma InformationalClientErrorDisjoint()
    ensures Disjoint(InformationalCodes.Members, ClientErrorCodes.Members)
  {
    InformationalCodes.CodesInClass();
    ClientErrorCodes.CodesInClass();
  }

  lemma InformationalServerErrorDisjoint()
    ensures Disjoint(InformationalCodes.Members, ServerErrorCodes.Members)
  {
    InformationalCodes.CodesInClass();
    ServerErrorCodes.CodesInClass();
  }

  lemma SuccessfulRedirectionDisjoint()
    ensures Disjoint(SuccessfulCodes.Members, RedirectionCodes.Members)
  {
    SuccessfulCodes.CodesInClass();
    RedirectionCodes.CodesInClass();
  }

  lemma SuccessfulClientErrorDisjoint()
    ensures Disjoint(SuccessfulCodes.Members, ClientErrorCodes.Members)
  {
    SuccessfulCodes.CodesInClass();
    ClientErrorCodes.CodesInClass();
  }

  lemma SuccessfulServerErrorDisjoint()
    ensures Disjoint(SuccessfulCodes.Members, ServerErrorCodes.Members)
  {
    SuccessfulCodes.CodesInClass();
    ServerErrorCodes.CodesInClass();
  }

  lemma RedirectionClientErrorDisjoint()
    ensures Disjoint(RedirectionCodes.Members, ClientErrorCodes.Members)
  {
    RedirectionCodes.CodesInClass();
    ClientErrorCodes.CodesInClass();
  }

  lemma RedirectionServerErrorDisjoint()
    ensures Disjoint(RedirectionCodes.Members, ServerErrorCodes.Members)
  {
    RedirectionCodes.CodesInClass();
    ServerErrorCodes.CodesInClass();
  }

  lemma ClientErrorServerErrorDisjoint()
    ensures Disjoint(ClientErrorCodes.Members, ServerErrorCodes.Members)
  {
    ClientErrorCodes.CodesInClass();
    ServerErrorCodes.CodesInClass();
  }
}
