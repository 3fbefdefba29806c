/**
 * The part of `JSONSerialization.data(withJSONObject:options: [.sortedKeys])`
 * that the request signature depends on: an object's members are written in
 * ascending key order, so the bytes do not depend on the dictionary's
 * iteration order. Keys are compared here by character code; Foundation's
 * comparison also ignores case and reads digit runs as numbers, and
 * `LessIgnoringCase` covers the first of these for keys made of letters.
 * String escaping is a parameter (see Tc3Signer.Primitives).
 */
module JsonBody {
  import opened Encoding

  datatype Value = Str(s: string) | Int(n: int)

  /** One key/value pair of a JSON object. */
  datatype Member = Member(key: string, value: Value)

  // ---------------------------------------------------------------------
  // Lexicographic order on keys (by character code)
  // ---------------------------------------------------------------------

  predicate Less(a: string, b: string)
    decreases |a|
  {
    if a == [] then b != []
    else if b == [] then false
    else if a[0] != b[0] then a[0] < b[0]
    else Less(a[1..], b[1..])
  }

  lemma {:induction false} LessIrreflexive(a: string)
    ensures !Less(a, a)
    decreases |a|
  {
    if a != [] {
      LessIrreflexive(a[1..]);
    }
  }

  lemma {:induction false} LessTransitive(a: string, b: string, c: string)
    requires Less(a, b) && Less(b, c)
    ensures Less(a, c)
    decreases |a|
  {
    if a != [] && b != [] && c != [] && a[0] == b[0] && b[0] == c[0] {
      LessTransitive(a[1..], b[1..], c[1..]);
    }
  }

  lemma {:induction false} LessTotal(a: string, b: string)
    requires a != b
    ensures Less(a, b) || Less(b, a)
    decreases |a|
  {
    if a != [] && b != [] && a[0] == b[0] {
      assert a == [a[0]] + a[1..] && b == [b[0]] + b[1..];
      LessTotal(a[1..], b[1..]);
    }
  }

  lemma LessAsymmetric(a: string, b: string)
    requires Less(a, b)
    ensures !Less(b, a)
  {
    if Less(b, a) {
      LessTransitive(a, b, a);
      LessIrreflexive(a);
    }
  }

  /** A proper prefix comes first. */
  lemma {:induction false} LessPrefix(a: string, b: string)
    requires b != []
    ensures Less(a, a + b)
    decreases |a|
  {
    if a != [] {
      assert (a + b)[0] == a[0] && (a + b)[1..] == a[1..] + b;
      LessPrefix(a[1..], b);
    }
  }

  /**
   * Comparison that ignores ASCII case, as Foundation's key comparison does
   * on keys made of letters: `Less` after lower-casing both keys.
   */
  predicate LessIgnoringCase(a: string, b: string) {
    Less(AsciiLower(a), AsciiLower(b))
  }

  /** Keys whose first letters differ (ignoring case) are ordered by those letters. */
  lemma LessIgnoringCaseByInitial(a: string, b: string)
    requires a != [] && b != [] && 'A' <= a[0] <= 'Z' && 'A' <= b[0] <= 'Z' && a[0] < b[0]
    ensures LessIgnoringCase(a, b)
  {
    assert AsciiLower(a)[0] < AsciiLower(b)[0];
  }

  /** A proper prefix comes first, ignoring case too. */
  lemma LessIgnoringCasePrefix(a: string, b: string)
    requires b != []
    ensures LessIgnoringCase(a, a + b)
  {
    assert AsciiLower(a + b) == AsciiLower(a) + AsciiLower(b);
    LessPrefix(AsciiLower(a), AsciiLower(b));
  }

  // ---------------------------------------------------------------------
  // Sorting members by key
  // ---------------------------------------------------------------------

  predicate StrictlySorted(ms: seq<Member>) {
    forall i, j :: 0 <= i < j < |ms| ==> Less(ms[i].key, ms[j].key)
  }

  predicate DistinctKeys(ms: seq<Member>) {
    forall i, j :: 0 <= i < j < |ms| ==> ms[i].key != ms[j].key
  }

  predicate KeyAbsent(k: string, ms: seq<Member>) {
    forall i :: 0 <= i < |ms| ==> ms[i].key != k
  }

  function Insert(m: Member, ms: seq<Member>): (r: seq<Member>)
    requires StrictlySorted(ms) && KeyAbsent(m.key, ms)
    ensures StrictlySorted(r)
    ensures multiset(r) == multiset(ms) + multiset{m}
  {
    if ms == [] then [m]
    else if Less(m.key, ms[0].key) then
      PrependSmallest(m, ms);
      [m] + ms
    else
      LessTotal(m.key, ms[0].key);
      var rest := Insert(m, ms[1..]);
      InsertAfterHead(m, ms, rest);
      [ms[0]] + rest
  }

  /** A member whose key is below the first key of a sorted sequence can go in front. */
  lemma PrependSmallest(m: Member, ms: seq<Member>)
    requires StrictlySorted(ms) && ms != [] && Less(m.key, ms[0].key)
    ensures StrictlySorted([m] + ms)
  {
    forall j | 0 < j < |ms| ensures Less(m.key, ms[j].key) {
      LessTransitive(m.key, ms[0].key, ms[j].key);
    }
  }

  /** The head of a sorted sequence stays in front of the sorted insertion into its tail. */
  lemma InsertAfterHead(m: Member, ms: seq<Member>, rest: seq<Member>)
    requires StrictlySorted(ms) && ms != [] && Less(ms[0].key, m.key)
    requires StrictlySorted(rest) && multiset(rest) == multiset(ms[1..]) + multiset{m}
    ensures StrictlySorted([ms[0]] + rest)
    ensures multiset([ms[0]] + rest) == multiset(ms) + multiset{m}
  {
    assert ms == [ms[0]] + ms[1..];
    forall j | 0 <= j < |rest| ensures Less(ms[0].key, rest[j].key) {
      var x := rest[j];
      assert x in multiset(rest);
      assert x in multiset(ms[1..]) + multiset{m};
      if x != m {
        assert x in ms[1..];
      }
    }
  }

  /** Members in strictly ascending key order, keys compared by character code. */
  function SortByKey(ms: seq<Member>): (r: seq<Member>)
    requires DistinctKeys(ms)
    ensures StrictlySorted(r)
    ensures multiset(r) == multiset(ms)
  {
    if ms == [] then []
    else
      var rest := SortByKey(ms[1..]);
      HeadKeyAbsent(ms, rest);
      assert ms == [ms[0]] + ms[1..];
      Insert(ms[0], rest)
  }

  /** The first key of members with distinct keys is not among the others, however ordered. */
  lemma HeadKeyAbsent(ms: seq<Member>, rest: seq<Member>)
    requires DistinctKeys(ms) && ms != [] && multiset(rest) == multiset(ms[1..])
    ensures KeyAbsent(ms[0].key, rest)
  {
    forall j | 0 <= j < |rest| ensures rest[j].key != ms[0].key {
      assert rest[j] in multiset(ms[1..]);
      assert rest[j] in ms[1..];
    }
  }

  lemma MultisetOfTail(s: seq<Member>)
    requires s != []
    ensures multiset(s[1..]) == multiset(s) - multiset{s[0]}
  {
    assert s == [s[0]] + s[1..];
  }

  /** Sorted sequences with the same members start with the same member. */
  lemma SameHead(s: seq<Member>, t: seq<Member>)
    requires StrictlySorted(s) && StrictlySorted(t)
    requires multiset(s) == multiset(t) && s != []
    ensures t != [] && s[0] == t[0]
  {
    assert s[0] in multiset(t);
    var i :| 0 <= i < |t| && t[i] == s[0];
    assert t[0] in multiset(s);
    var j :| 0 <= j < |s| && s[j] == t[0];
    if i != 0 && j != 0 {
      // s[0] comes after t[0] in t, and t[0] comes after s[0] in s
      LessAsymmetric(t[0].key, s[0].key);
      assert false;
    }
  }

  /** Two strictly key-sorted sequences holding the same members are the same sequence. */
  lemma {:induction false} SortedUnique(s: seq<Member>, t: seq<Member>)
    requires StrictlySorted(s) && StrictlySorted(t)
    requires multiset(s) == multiset(t)
    ensures s == t
    decreases |s|
  {
    if s != [] {
      SameHead(s, t);
      MultisetOfTail(s);
      MultisetOfTail(t);
      SortedUnique(s[1..], t[1..]);
      assert s == [s[0]] + s[1..] && t == [t[0]] + t[1..];
    }
  }

  /** The sorted order depends only on which members there are, not on their input order. */
  lemma SortByKeyIgnoresOrder(a: seq<Member>, b: seq<Member>)
    requires DistinctKeys(a) && DistinctKeys(b)
    requires multiset(a) == multiset(b)
    ensures SortByKey(a) == SortByKey(b)
  {
    SortedUnique(SortByKey(a), SortByKey(b));
  }

  // ---------------------------------------------------------------------
  // Writing the object
  // ---------------------------------------------------------------------

  function Quoted(s: string): string {
    "\"" + s + "\""
  }

  /** A JSON value; strings are quoted after `escape` has been applied. */
  function ValueText(v: Value, escape: string -> string): string {
    match v
    case Str(s) => Quoted(escape(s))
    case Int(n) => IntToDecimal(n)
  }

  /**
   * One member as `"key":value`. Keys are written as they are: the only keys
   * here are fixed ASCII identifiers, which JSON escaping leaves unchanged.
   */
  function MemberText(m: Member, escape: string -> string): string {
    "\"" + m.key + "\":" + ValueText(m.value, escape)
  }

  /** Members separated by commas, without whitespace. */
  function MembersText(ms: seq<Member>, escape: string -> string): string {
    if ms == [] then ""
    else if |ms| == 1 then MemberText(ms[0], escape)
    else MemberText(ms[0], escape) + "," + MembersText(ms[1..], escape)
  }

  /** Compact JSON text of an object with sorted keys. */
  function Serialize(ms: seq<Member>, escape: string -> string): string
    requires DistinctKeys(ms)
  {
    "{" + MembersText(SortByKey(ms), escape) + "}"
  }

  /** Serializing is insensitive to the order in which the dictionary lists its members. */
  lemma SerializeIgnoresOrder(a: seq<Member>, b: seq<Member>, escape: string -> string)
    requires DistinctKeys(a) && DistinctKeys(b)
    requires multiset(a) == multiset(b)
    ensures Serialize(a, escape) == Serialize(b, escape)
  {
    SortByKeyIgnoresOrder(a, b);
  }
}
