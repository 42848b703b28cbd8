/**
 * What every status-code table of the catalogue has in common: a member is a
 * symbolic name with a numeric code, and a TypeScript numeric enum turns its
 * members into an object that maps in both directions, name to code and the
 * decimal string of the code back to the name.
 */
module StatusCode {

  /** One enum member: `NOT_FOUND = 404`. */
  datatype Entry = Entry(name: string, code: nat)

  /** A property value of an enum object: a code for a forward key, a name for a reverse key. */
  datatype Value = Num(n: int) | Name(s: string)

  /** The decimal digit character for `d`. */
  function DigitChar(d: nat): (c: char)
    requires d < 10
    ensures '0' <= c <= '9'
  {
    (48 + d) as char
  }

  predicate IsDigit(c: char) {
    '0' <= c <= '9'
  }

  /** The property key JavaScript uses for the number `n`: its decimal string, `String(404) == "404"`. */
  function CodeKey(n: nat): (r: string)
    ensures |r| > 0
    ensures forall k :: 0 <= k < |r| ==> IsDigit(r[k])
    ensures n < 10 <==> |r| == 1
    ensures r[0] == '0' <==> n == 0
  {
    if n < 10 then [DigitChar(n)] else CodeKey(n / 10) + [DigitChar(n % 10)]
  }

  /** Reads a string of decimal digits back as a number (what `Number(key)` does for such a key). */
  function ParseDecimal(s: string): nat
    requires forall k :: 0 <= k < |s| ==> IsDigit(s[k])
  {
    if s == [] then 0
    else
      var d := s[|s| - 1];
      assert IsDigit(d);
      ParseDecimal(s[..|s| - 1]) * 10 + (d as int - 48)
  }

  /** A code key reads back as the code it was made from. */
  lemma {:induction false} ParseCodeKey(n: nat)
    ensures ParseDecimal(CodeKey(n)) == n
  {
    if n >= 10 {
      var s := CodeKey(n);
      assert s[..|s| - 1] == CodeKey(n / 10);
      ParseCodeKey(n / 10);
    }
  }

  /** Different codes have different keys, so reverse entries never collide. */
  lemma CodeKeyInjective(m: nat, n: nat)
    requires CodeKey(m) == CodeKey(n)
    ensures m == n
  {
    ParseCodeKey(m);
    ParseCodeKey(n);
  }

  /**
   * A member name begins with a letter, as every upper snake case name of the
   * catalogue does; an identifier never begins with a digit.
   */
  predicate IsEnumName(s: string) {
    |s| > 0 && 'A' <= s[0] <= 'Z'
  }

  /** A name is never the key of a code: it begins with a letter, a code key with a digit. */
  lemma NameIsNotCodeKey(s: string, n: nat)
    requires IsEnumName(s)
    ensures s != CodeKey(n)
  {
    assert IsDigit(CodeKey(n)[0]);
  }

  /** Distinct identifiers and distinct codes, as an enum without aliases has them. */
  predicate WellFormed(es: seq<Entry>) {
    && (forall i :: 0 <= i < |es| ==> IsEnumName(es[i].name))
    && (forall i, j :: 0 <= i < j < |es| ==> es[i].name != es[j].name && es[i].code != es[j].code)
  }

  /** Codes strictly increase from each member to the next. */
  predicate StrictlyIncreasing(es: seq<Entry>) {
    forall i :: 0 < i < |es| ==> es[i - 1].code < es[i].code
  }

  /** Every code of `es` lies in `lo..hi`. */
  predicate InRange(es: seq<Entry>, lo: nat, hi: nat) {
    forall i :: 0 <= i < |es| ==> lo <= es[i].code <= hi
  }

  /** Two tables share no name and no code. */
  predicate Disjoint(a: seq<Entry>, b: seq<Entry>) {
    forall i, j :: 0 <= i < |a| && 0 <= j < |b| ==> a[i].name != b[j].name && a[i].code != b[j].code
  }

  /** Increasing codes are pairwise distinct, whatever their distance in the table. */
  lemma {:induction false} IncreasingCodesDistinct(es: seq<Entry>)
    requires StrictlyIncreasing(es)
    ensures forall i, j :: 0 <= i < j < |es| ==> es[i].code < es[j].code
  {
    if |es| > 1 {
      var p := es[..|es| - 1];
      assert StrictlyIncreasing(p);
      IncreasingCodesDistinct(p);
      forall i, j | 0 <= i < j < |es|
        ensures es[i].code < es[j].code
      {
        if j < |es| - 1 {
          assert es[i] == p[i] && es[j] == p[j];
        } else if i < j - 1 {
          assert es[i] == p[i] && es[j - 1] == p[j - 1];
        }
      }
    }
  }

  /** Two well-formed tables that share nothing make a well-formed table when joined. */
  lemma WellFormedConcat(a: seq<Entry>, b: seq<Entry>)
    requires WellFormed(a) && WellFormed(b) && Disjoint(a, b)
    ensures WellFormed(a + b)
  {
    var ab := a + b;
    forall i | 0 <= i < |ab|
      ensures IsEnumName(ab[i].name)
    {
      if i < |a| {
        assert ab[i] == a[i];
      } else {
        assert ab[i] == b[i - |a|];
      }
    }
    forall i, j | 0 <= i < j < |ab|
      ensures ab[i].name != ab[j].name && ab[i].code != ab[j].code
    {
      if j < |a| {
        assert ab[i] == a[i] && ab[j] == a[j];
      } else if i >= |a| {
        assert ab[i] == b[i - |a|] && ab[j] == b[j - |a|];
      } else {
        assert ab[i] == a[i] && ab[j] == b[j - |a|];
      }
    }
  }

  /**
   * The object a TypeScript numeric enum compiles to. Members are processed in
   * declaration order and each runs `E[E["NAME"] = code] = "NAME"`: first the
   * forward key, then the reverse key.
   */
  function EnumObject(es: seq<Entry>): map<string, Value> {
    if es == [] then map[]
    else
      var e := es[|es| - 1];
      EnumObject(es[..|es| - 1])[e.name := Num(e.code)][CodeKey(e.code) := Name(e.name)]
  }

  /** An enum object's keys are its members' names and the strings of their codes. */
  lemma {:induction false} EnumObjectKeys(es: seq<Entry>)
    ensures EnumObject(es).Keys == (set e | e in es :: e.name) + (set e | e in es :: CodeKey(e.code))
  {
    if es != [] {
      var last, p := es[|es| - 1], es[..|es| - 1];
      assert es == p + [last];
      EnumObjectKeys(p);
    }
  }

  /** The member a key of an enum object belongs to: the key is its name or its code string. */
  lemma {:induction false} KeyOwner(es: seq<Entry>, k: string) returns (i: nat)
    requires k in EnumObject(es)
    ensures i < |es| && (k == es[i].name || k == CodeKey(es[i].code))
  {
    var n := |es| - 1;
    if k != es[n].name && k != CodeKey(es[n].code) {
      i := KeyOwner(es[..n], k);
    } else {
      i := n;
    }
  }

  /** Forward keys: the names, whose values are numbers. */
  function ForwardKeys(o: map<string, Value>): set<string> {
    set k | k in o && o[k].Num?
  }

  /** Reverse keys: the code strings, whose values are names. */
  function ReverseKeys(o: map<string, Value>): set<string> {
    set k | k in o && o[k].Name?
  }

  /**
   * The round trip of a well-formed enum: a member's name gives its code and
   * the string of its code gives its name back.
   */
  lemma {:induction false} EnumObjectLookup(es: seq<Entry>)
    requires WellFormed(es)
    ensures forall e :: e in es ==>
      && e.name in EnumObject(es) && EnumObject(es)[e.name] == Num(e.code)
      && CodeKey(e.code) in EnumObject(es) && EnumObject(es)[CodeKey(e.code)] == Name(e.name)
  {
    if es != [] {
      var n := |es| - 1;
      var last, p := es[n], es[..n];
      assert es == p + [last];
      assert WellFormed(p);
      EnumObjectLookup(p);
      LastKeysFresh(es);
    }
  }

  /** The last member of a well-formed table adds two keys the earlier members did not set. */
  lemma LastKeysFresh(es: seq<Entry>)
    requires WellFormed(es) && es != []
    ensures es[|es| - 1].name !in EnumObject(es[..|es| - 1])
    ensures CodeKey(es[|es| - 1].code) !in EnumObject(es[..|es| - 1])
    ensures es[|es| - 1].name != CodeKey(es[|es| - 1].code)
  {
    var n := |es| - 1;
    var last, p := es[n], es[..n];
    EnumObjectKeys(p);
    NameIsNotCodeKey(last.name, last.code);
    forall e | e in p
      ensures e.name != last.name && CodeKey(e.code) != last.name
      ensures e.name != CodeKey(last.code) && CodeKey(e.code) != CodeKey(last.code)
    {
      var i :| 0 <= i < n && p[i] == e;
      assert es[i] == e;
      NameIsNotCodeKey(last.name, e.code);
      NameIsNotCodeKey(e.name, last.code);
      if CodeKey(e.code) == CodeKey(last.code) {
        CodeKeyInjective(e.code, last.code);
      }
    }
  }

  /** A well-formed enum object has one forward entry per member. */
  lemma {:induction false} ForwardKeysCount(es: seq<Entry>)
    requires WellFormed(es)
    ensures |ForwardKeys(EnumObject(es))| == |es|
  {
    if es != [] {
      var last, p := es[|es| - 1], es[..|es| - 1];
      assert WellFormed(p);
      ForwardKeysCount(p);
      LastKeysFresh(es);
      var o, o' := EnumObject(p), EnumObject(es);
      assert ForwardKeys(o') == ForwardKeys(o) + {last.name};
    }
  }

  /** A well-formed enum object has one reverse entry per member. */
  lemma {:induction false} ReverseKeysCount(es: seq<Entry>)
    requires WellFormed(es)
    ensures |ReverseKeys(EnumObject(es))| == |es|
  {
    if es != [] {
      var last, p := es[|es| - 1], es[..|es| - 1];
      assert WellFormed(p);
      ReverseKeysCount(p);
      LastKeysFresh(es);
      var o, o' := EnumObject(p), EnumObject(es);
      assert ReverseKeys(o') == ReverseKeys(o) + {CodeKey(last.code)};
    }
  }

  /** The reverse keys of a well-formed enum object are exactly its members' code strings. */
  lemma {:induction false} ReverseKeysAreCodeKeys(es: seq<Entry>)
    requires WellFormed(es)
    ensures ReverseKeys(EnumObject(es)) == set e | e in es :: CodeKey(e.code)
  {
    if es != [] {
      var last, p := es[|es| - 1], es[..|es| - 1];
      assert es == p + [last];
      assert WellFormed(p);
      ReverseKeysAreCodeKeys(p);
      LastKeysFresh(es);
      var o, o' := EnumObject(p), EnumObject(es);
      assert ReverseKeys(o') == ReverseKeys(o) + {CodeKey(last.code)};
    }
  }

  /** A well-formed enum object has exactly two keys per member: nothing is overwritten. */
  lemma {:induction false} EnumObjectSize(es: seq<Entry>)
    requires WellFormed(es)
    ensures |EnumObject(es)| == 2 * |es|
  {
    if es != [] {
      var p := es[..|es| - 1];
      assert WellFormed(p);
      EnumObjectSize(p);
      LastKeysFresh(es);
    }
  }

  /** Setting a key after a merge is setting it in the object merged last. */
  lemma UnionThenUpdate(m: map<string, Value>, m': map<string, Value>, k: string, v: Value)
    ensures (m + m')[k := v] == m + m'[k := v]
  {
  }

  /**
   * Building the enum object of a joined table is building the first part and
   * then overwriting with the second part's object.
   */
  lemma {:induction false} EnumObjectConcat(a: seq<Entry>, b: seq<Entry>)
    ensures EnumObject(a + b) == EnumObject(a) + EnumObject(b)
  {
    if b == [] {
      assert a + b == a;
    } else {
      var n := |b| - 1;
      var last, p := b[n], b[..n];
      assert (a + b)[..|a + b| - 1] == a + p;
      assert (a + b)[|a + b| - 1] == last;
      EnumObjectConcat(a, p);
      var oa, op := EnumObject(a), EnumObject(p);
      UnionThenUpdate(oa, op, last.name, Num(last.code));
      UnionThenUpdate(oa, op[last.name := Num(last.code)], CodeKey(last.code), Name(last.name));
    }
  }
}
