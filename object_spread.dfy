/**
 * Object spread, `{ ...a, ...b }`, on the objects TypeScript numeric enums
 * compile to: every key of every object is copied in order, so a later object
 * overwrites an earlier one; spreading the objects of several enum tables is
 * building the object of all their members at once.
 */
module ObjectSpread {
  import opened StatusCode

  /** `{ ...objs[0], ...objs[1], ... }`: every key is copied, so an object spread later overwrites an earlier one. */
  function Spread(objs: seq<map<string, Value>>): (r: map<string, Value>)
    ensures forall i, k :: 0 <= i < |objs| && k in objs[i] ==> k in r
  {
    if objs == [] then map[] else Spread(objs[..|objs| - 1]) + objs[|objs| - 1]
  }

  /** The spread holds exactly the keys of the objects spread: it adds none of its own. */
  lemma {:induction false} SpreadKeys(objs: seq<map<string, Value>>)
    ensures forall k :: k in Spread(objs) <==> exists i :: 0 <= i < |objs| && k in objs[i]
  {
    if objs != [] {
      var p := objs[..|objs| - 1];
      SpreadKeys(p);
      forall k | k in Spread(objs)
        ensures exists i :: 0 <= i < |objs| && k in objs[i]
      {
        if k !in objs[|objs| - 1] {
          assert k in Spread(p);
          var i :| 0 <= i < |p| && k in p[i];
          assert objs[i] == p[i];
        }
      }
    }
  }

  /** The last object that has a key decides its value: the later spread wins. */
  lemma {:induction false} SpreadLastWins(objs: seq<map<string, Value>>, i: nat, k: string)
    requires i < |objs| && k in objs[i]
    requires forall j :: i < j < |objs| ==> k !in objs[j]
    ensures k in Spread(objs) && Spread(objs)[k] == objs[i][k]
  {
    var p := objs[..|objs| - 1];
    if i < |p| {
      assert p[i] == objs[i];
      SpreadLastWins(p, i, k);
    }
  }

  /** The enum object of each table. */
  function EnumObjects(tables: seq<seq<Entry>>): (objs: seq<map<string, Value>>)
    ensures |objs| == |tables|
    ensures forall t :: 0 <= t < |tables| ==> objs[t] == EnumObject(tables[t])
  {
    if tables == [] then []
    else EnumObjects(tables[..|tables| - 1]) + [EnumObject(tables[|tables| - 1])]
  }

  /** All members of the tables, one table after another. */
  function Flatten(tables: seq<seq<Entry>>): seq<Entry> {
    if tables == [] then [] else Flatten(tables[..|tables| - 1]) + tables[|tables| - 1]
  }

  /** Spreading the enum objects of several tables builds the enum object of all their members. */
  lemma {:induction false} SpreadEnumObjects(tables: seq<seq<Entry>>)
    ensures Spread(EnumObjects(tables)) == EnumObject(Flatten(tables))
  {
    if tables != [] {
      var p := tables[..|tables| - 1];
      assert EnumObjects(tables)[..|tables| - 1] == EnumObjects(p);
      SpreadEnumObjects(p);
      EnumObjectConcat(Flatten(p), tables[|tables| - 1]);
    }
  }

  /** Joining a table shares nothing with a third when neither part does. */
  lemma DisjointConcat(a: seq<Entry>, b: seq<Entry>, c: seq<Entry>)
    requires Disjoint(a, c) && Disjoint(b, c)
    ensures Disjoint(a + b, c)
  {
    forall i, j | 0 <= i < |a + b| && 0 <= j < |c|
      ensures (a + b)[i].name != c[j].name && (a + b)[i].code != c[j].code
    {
      if i < |a| {
        assert (a + b)[i] == a[i];
      } else {
        assert (a + b)[i] == b[i - |a|];
      }
    }
  }

  /** Tables that each share nothing with `c` share nothing with it together. */
  lemma {:induction false} DisjointFlatten(tables: seq<seq<Entry>>, c: seq<Entry>)
    requires forall t :: 0 <= t < |tables| ==> Disjoint(tables[t], c)
    ensures Disjoint(Flatten(tables), c)
  {
    if tables != [] {
      var p := tables[..|tables| - 1];
      DisjointFlatten(p, c);
      DisjointConcat(Flatten(p), tables[|tables| - 1], c);
    }
  }

  /** Well-formed tables that pairwise share nothing join into a well-formed table. */
  lemma {:induction false} WellFormedFlatten(tables: seq<seq<Entry>>)
    requires forall t :: 0 <= t < |tables| ==> WellFormed(tables[t])
    requires forall a, b :: 0 <= a < b < |tables| ==> Disjoint(tables[a], tables[b])
    ensures WellFormed(Flatten(tables))
  {
    if tables != [] {
      var n := |tables| - 1;
      var p := tables[..n];
      WellFormedFlatten(p);
      DisjointFlatten(p, tables[n]);
      WellFormedConcat(Flatten(p), tables[n]);
    }
  }

  /**
   * A key of one table's enum object keeps its value in the enum object of all
   * the tables joined, provided the joined table is well formed.
   */
  lemma FlattenCoversKey(tables: seq<seq<Entry>>, t: nat, k: string)
    requires t < |tables| && WellFormed(tables[t]) && WellFormed(Flatten(tables))
    requires k in EnumObject(tables[t])
    ensures k in EnumObject(Flatten(tables)) && EnumObject(Flatten(tables))[k] == EnumObject(tables[t])[k]
  {
    var i := KeyOwner(tables[t], k);
    FlattenCoversMember(tables, t, i);
  }

  /** Both keys of one member keep their values in the enum object of the joined tables. */
  lemma FlattenCoversMember(tables: seq<seq<Entry>>, t: nat, i: nat)
    requires t < |tables| && i < |tables[t]| && WellFormed(tables[t]) && WellFormed(Flatten(tables))
    ensures var e, whole, part := tables[t][i], EnumObject(Flatten(tables)), EnumObject(tables[t]);
      && e.name in whole && e.name in part && whole[e.name] == part[e.name]
      && CodeKey(e.code) in whole && CodeKey(e.code) in part && whole[CodeKey(e.code)] == part[CodeKey(e.code)]
  {
    MemberOfFlatten(tables, t, i);
    EnumObjectLookup(tables[t]);
    EnumObjectLookup(Flatten(tables));
  }

  /** A member of one table is a member of the joined tables. */
  lemma {:induction false} MemberOfFlatten(tables: seq<seq<Entry>>, t: nat, i: nat)
    requires t < |tables| && i < |tables[t]|
    ensures tables[t][i] in Flatten(tables)
  {
    var p := tables[..|tables| - 1];
    if t < |p| {
      assert p[t] == tables[t];
      MemberOfFlatten(p, t, i);
    }
    assert Flatten(tables) == Flatten(p) + tables[|tables| - 1];
  }
}
