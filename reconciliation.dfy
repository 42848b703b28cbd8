/**
 * `listSupportedCodesByNode`: the keys of the merged object whose values are
 * not numbers (`isNaN`) are sorted, in the order `Object.keys` lists them,
 * into those the host runtime's status table includes and those it does not.
 *
 * The function reads three things from its surroundings, which are parameters
 * here: the merged object `obj`, the order `keys` in which `Object.keys` lists
 * it, and the keys `host` of the host runtime's status table.
 */
module Reconciliation {
  import opened StatusCode
  import opened Sequences

  /** `isNaN(obj[key])`: the value is a name, or the key is missing and reads as `undefined`. */
  predicate NotANumber(obj: map<string, Value>, key: string) {
    key !in obj || obj[key].Name?
  }

  /** `keys.filter((key) => isNaN(obj[key]))`. */
  function Kept(keys: seq<string>, obj: map<string, Value>): (r: seq<string>)
    ensures forall k :: k in r <==> k in keys && NotANumber(obj, k)
  {
    if keys == [] then []
    else
      var p, k := keys[..|keys| - 1], keys[|keys| - 1];
      assert keys == p + [k];
      if NotANumber(obj, k) then Kept(p, obj) + [k] else Kept(p, obj)
  }

  /** The filter keeps the order of the keys it is given. */
  lemma {:induction false} KeptKeepsOrder(keys: seq<string>, obj: map<string, Value>)
    ensures IsSubsequence(Kept(keys, obj), keys)
  {
    if keys != [] {
      var p, k := keys[..|keys| - 1], keys[|keys| - 1];
      assert keys == p + [k];
      KeptKeepsOrder(p, obj);
      if NotANumber(obj, k) {
        SubsequenceSnocBoth(Kept(p, obj), p, k);
      } else {
        SubsequenceSnoc(Kept(p, obj), p, k);
      }
    }
  }

  /** The accumulator of the `reduce`: `{ supported, unsupported }`. */
  datatype Codes = Codes(supported: seq<string>, unsupported: seq<string>)

  /**
   * The `reduce` over the kept keys: each key is pushed onto `supported` when
   * the host table includes it and onto `unsupported` otherwise.
   */
  function Partition(kept: seq<string>, host: seq<string>): (c: Codes)
    ensures forall k :: k in c.supported <==> k in kept && k in host
    ensures forall k :: k in c.unsupported <==> k in kept && k !in host
    ensures |c.supported| + |c.unsupported| == |kept|
  {
    if kept == [] then Codes([], [])
    else
      var p, k := kept[..|kept| - 1], kept[|kept| - 1];
      assert kept == p + [k];
      var acc := Partition(p, host);
      if k in host then Codes(acc.supported + [k], acc.unsupported)
      else Codes(acc.supported, acc.unsupported + [k])
  }

  /** Each kept key lands in exactly one list: the two lists together are the kept keys, counted with repetition. */
  lemma {:induction false} PartitionIsSplit(kept: seq<string>, host: seq<string>)
    ensures multiset(Partition(kept, host).supported) + multiset(Partition(kept, host).unsupported) == multiset(kept)
  {
    if kept != [] {
      var p, k := kept[..|kept| - 1], kept[|kept| - 1];
      assert kept == p + [k];
      PartitionIsSplit(p, host);
    }
  }

  /** Both lists keep the order of the kept keys, since the `reduce` only appends. */
  lemma {:induction false} PartitionKeepsOrder(kept: seq<string>, host: seq<string>)
    ensures IsSubsequence(Partition(kept, host).supported, kept)
    ensures IsSubsequence(Partition(kept, host).unsupported, kept)
  {
    if kept != [] {
      var p, k := kept[..|kept| - 1], kept[|kept| - 1];
      assert kept == p + [k];
      PartitionKeepsOrder(p, host);
      var acc := Partition(p, host);
      if k in host {
        SubsequenceSnocBoth(acc.supported, p, k);
        SubsequenceSnoc(acc.unsupported, p, k);
      } else {
        SubsequenceSnoc(acc.supported, p, k);
        SubsequenceSnocBoth(acc.unsupported, p, k);
      }
    }
  }

  /** Keys without repetition stay without repetition in each list. */
  lemma {:induction false} PartitionNoDuplicates(kept: seq<string>, host: seq<string>)
    requires NoDuplicates(kept)
    ensures NoDuplicates(Partition(kept, host).supported)
    ensures NoDuplicates(Partition(kept, host).unsupported)
  {
    if kept != [] {
      var p, k := kept[..|kept| - 1], kept[|kept| - 1];
      assert kept == p + [k];
      assert NoDuplicates(p);
      PartitionNoDuplicates(p, host);
      assert k !in p;
    }
  }

  /**
   * When the host table has none of the kept keys, nothing is supported and
   * every kept key is unsupported, in order; an empty host table is one such.
   */
  lemma {:induction false} UnknownKeysAreUnsupported(kept: seq<string>, host: seq<string>)
    requires forall k :: k in kept ==> k !in host
    ensures Partition(kept, host) == Codes([], kept)
  {
    if kept != [] {
      var p, k := kept[..|kept| - 1], kept[|kept| - 1];
      assert kept == p + [k];
      UnknownKeysAreUnsupported(p, host);
    }
  }

  /**
   * `listSupportedCodesByNode(supported)`. The merged object `obj`, the order
   * `keys` in which `Object.keys` lists it and the keys `host` of the host's
   * status table are what the function reads from its surroundings.
   */
  method ListSupportedCodesByNode(obj: map<string, Value>, keys: seq<string>, host: seq<string>, supported: bool := true)
    returns (codes: seq<string>)
    ensures codes == if supported then Partition(Kept(keys, obj), host).supported
                     else Partition(Kept(keys, obj), host).unsupported
    ensures forall k :: k in codes <==> k in keys && NotANumber(obj, k) && (k in host <==> supported)
  {
    var kept := Kept(keys, obj);
    var acc := Codes([], []);
    for i := 0 to |kept|
      invariant acc == Partition(kept[..i], host)
    {
      var key := kept[i];
      assert kept[..i + 1] == kept[..i] + [key];
      if key in host {
        acc := acc.(supported := acc.supported + [key]);
      } else {
        acc := acc.(unsupported := acc.unsupported + [key]);
      }
    }
    assert kept[..|kept|] == kept;
    if supported {
      codes := acc.supported;
    } else {
      codes := acc.unsupported;
    }
  }

  /** The output is a subsequence of the key order it was given, whichever list the flag selects. */
  lemma OutputKeepsKeyOrder(keys: seq<string>, obj: map<string, Value>, host: seq<string>)
    ensures IsSubsequence(Partition(Kept(keys, obj), host).supported, keys)
    ensures IsSubsequence(Partition(Kept(keys, obj), host).unsupported, keys)
  {
    var kept := Kept(keys, obj);
    KeptKeepsOrder(keys, obj);
    PartitionKeepsOrder(kept, host);
    SubsequenceTransitive(Partition(kept, host).supported, kept, keys);
    SubsequenceTransitive(Partition(kept, host).unsupported, kept, keys);
  }

  /** Filtering keys without repetition leaves keys without repetition. */
  lemma {:induction false} KeptNoDuplicates(keys: seq<string>, obj: map<string, Value>)
    requires NoDuplicates(keys)
    ensures NoDuplicates(Kept(keys, obj))
  {
    if keys != [] {
      var p, k := keys[..|keys| - 1], keys[|keys| - 1];
      assert keys == p + [k];
      assert NoDuplicates(p);
      KeptNoDuplicates(p, obj);
      assert k !in p;
    }
  }

  /** `keys` is an `Object.keys` listing of `obj`: every key once, in some order. */
  predicate IsKeyOrder(keys: seq<string>, obj: map<string, Value>) {
    NoDuplicates(keys) && (forall k :: k in keys ==> k in obj) && (forall k :: k in obj ==> k in keys)
  }

  /** An `Object.keys` listing has one entry per key of the object. */
  lemma KeyOrderLength(keys: seq<string>, obj: map<string, Value>)
    requires IsKeyOrder(keys, obj)
    ensures |keys| == |obj|
  {
    DistinctCardinality(keys);
    assert (set k | k in keys) == obj.Keys;
  }

  /**
   * What `isNaN` makes of an enum object's values: a member's name holds a
   * number, the string of its code holds a name.
   */
  lemma EnumValuesNaN(es: seq<Entry>)
    requires WellFormed(es)
    ensures forall e :: e in es ==> !NotANumber(EnumObject(es), e.name)
    ensures forall e :: e in es ==> NotANumber(EnumObject(es), CodeKey(e.code))
  {
    EnumObjectLookup(es);
  }

  /**
   * Of an enum object the filter keeps exactly the reverse keys, the code
   * strings, once each, and drops every symbolic name.
   */
  lemma KeptOfEnum(keys: seq<string>, es: seq<Entry>)
    requires WellFormed(es) && IsKeyOrder(keys, EnumObject(es))
    ensures forall k :: k in Kept(keys, EnumObject(es)) <==> exists e :: e in es && k == CodeKey(e.code)
    ensures forall e :: e in es ==> e.name !in Kept(keys, EnumObject(es))
    ensures NoDuplicates(Kept(keys, EnumObject(es)))
    ensures |Kept(keys, EnumObject(es))| == |es|
  {
    var obj := EnumObject(es);
    var kept := Kept(keys, obj);
    EnumObjectLookup(es);
    ReverseKeysAreCodeKeys(es);
    ReverseKeysCount(es);
    assert forall k :: k in kept <==> k in ReverseKeys(obj);
    assert (set k | k in kept) == ReverseKeys(obj);
    KeptNoDuplicates(keys, obj);
    DistinctCardinality(kept);
  }

  /**
   * Whatever the host table, the string of a member's code is reported
   * supported exactly when the host table has it, and unsupported exactly
   * when it does not.
   */
  lemma HostCodeKeyOfEnum(keys: seq<string>, es: seq<Entry>, host: seq<string>, e: Entry)
    requires WellFormed(es) && IsKeyOrder(keys, EnumObject(es)) && e in es
    ensures CodeKey(e.code) in Partition(Kept(keys, EnumObject(es)), host).supported <==> CodeKey(e.code) in host
    ensures CodeKey(e.code) in Partition(Kept(keys, EnumObject(es)), host).unsupported <==> CodeKey(e.code) !in host
  {
    KeptOfEnum(keys, es);
  }

  /** Whatever the host table, a member's name is in neither list: the filter dropped it. */
  lemma HostNameOfEnum(keys: seq<string>, es: seq<Entry>, host: seq<string>, e: Entry)
    requires WellFormed(es) && IsKeyOrder(keys, EnumObject(es)) && e in es
    ensures e.name !in Partition(Kept(keys, EnumObject(es)), host).supported
    ensures e.name !in Partition(Kept(keys, EnumObject(es)), host).unsupported
  {
    KeptOfEnum(keys, es);
  }

  /**
   * A host table keyed by names is never matched: when no host key begins
   * with a digit (names in any letter case, for one), nothing is supported and
   * every kept key is unsupported.
   */
  lemma HostNamesOfEnum(keys: seq<string>, es: seq<Entry>, host: seq<string>)
    requires WellFormed(es) && IsKeyOrder(keys, EnumObject(es))
    requires forall h :: h in host ==> h == [] || !IsDigit(h[0])
    ensures Partition(Kept(keys, EnumObject(es)), host) == Codes([], Kept(keys, EnumObject(es)))
  {
    var kept := Kept(keys, EnumObject(es));
    KeptOfEnum(keys, es);
    forall k | k in kept
      ensures k !in host
    {
      var e :| e in es && k == CodeKey(e.code);
      assert IsDigit(k[0]);
    }
    UnknownKeysAreUnsupported(kept, host);
  }

  /** With a host table whose only key is the string of a member's code, the supported list is exactly that key. */
  lemma HostCodeKeyAloneOfEnum(keys: seq<string>, es: seq<Entry>, e: Entry)
    requires WellFormed(es) && IsKeyOrder(keys, EnumObject(es)) && e in es
    ensures Partition(Kept(keys, EnumObject(es)), [CodeKey(e.code)]).supported == [CodeKey(e.code)]
    ensures CodeKey(e.code) !in Partition(Kept(keys, EnumObject(es)), [CodeKey(e.code)]).unsupported
  {
    var key := CodeKey(e.code);
    var kept := Kept(keys, EnumObject(es));
    KeptOfEnum(keys, es);
    PartitionNoDuplicates(kept, [key]);
    var sup := Partition(kept, [key]).supported;
    assert key in sup;
    OnlyElement(sup, key);
  }
}
