/** Values of a parsed profile, and the canonical projection its fingerprint is taken from. */
module Canonical {
  import opened Prelude
  import opened Sorting

  /** An IEEE double: a finite one by its bit pattern. */
  datatype Float = Finite(bits: int) | Infinite(negative: bool) | NaN

  datatype Toml =
    | TString(s: string) | TInteger(i: int) | TFloat(f: Float) | TBoolean(b: bool) | TDatetime(text: string)
    | TArray(items: seq<Toml>) | TTable(entries: seq<Entry>)

  datatype Entry = Entry(key: string, value: Toml)

  /** An object lists its members in iteration order. */
  datatype Json =
    | Null | Bool(b: bool) | Int(i: int) | Double(bits: int) | String(s: string)
    | Array(items: seq<Json>) | Object(members: seq<Member>)

  datatype Member = Member(key: string, value: Json)

  /** A table is a map: no key occurs twice, at any depth. */
  ghost predicate ProperToml(v: Toml) {
    match v
    case TArray(items) => forall i :: 0 <= i < |items| ==> ProperToml(items[i])
    case TTable(es) =>
      DistinctEntries(es) && forall i :: 0 <= i < |es| ==> ProperToml(es[i].value)
    case _ => true
  }

  ghost predicate Proper(v: Json) {
    match v
    case Array(items) => forall i :: 0 <= i < |items| ==> Proper(items[i])
    case Object(ms) => DistinctKeys(ms) && forall i :: 0 <= i < |ms| ==> Proper(ms[i].value)
    case _ => true
  }

  ghost predicate DistinctKeys(ms: seq<Member>) {
    forall i, j :: 0 <= i < j < |ms| ==> ms[i].key != ms[j].key
  }

  predicate ByKey(a: Member, b: Member) { StringLe(a.key, b.key) }

  /** `Value::from(f64)`: JSON has no infinities and no NaN. */
  function FromFloat(f: Float): Json {
    match f
    case Finite(bits) => Double(bits)
    case _ => Null
  }

  // ----- what the projections compute -----

  /** The value as JSON, keys in their given order. */
  function AsJson(v: Toml): Json {
    match v
    case TString(s) => String(s)
    case TInteger(i) => Int(i)
    case TFloat(f) => FromFloat(f)
    case TBoolean(b) => Bool(b)
    case TDatetime(text) => String(text)
    case TArray(items) => Array(seq(|items|, i requires 0 <= i < |items| => AsJson(items[i])))
    case TTable(es) => Object(seq(|es|, i requires 0 <= i < |es| => Member(es[i].key, AsJson(es[i].value))))
  }

  function SortedMembers(ms: seq<Member>): (r: seq<Member>)
    ensures |r| == |ms| && forall i :: 0 <= i < |r| ==> r[i] == Member(ms[i].key, SortedValue(ms[i].value))
    decreases ms
  {
    seq(|ms|, i requires 0 <= i < |ms| => Member(ms[i].key, SortedValue(ms[i].value)))
  }

  /** Every object's members in ascending order of their keys. */
  function SortedValue(v: Json): Json
    decreases v
  {
    match v
    case Array(items) => Array(seq(|items|, i requires 0 <= i < |items| => SortedValue(items[i])))
    case Object(ms) => Object(StableSort(SortedMembers(ms), ByKey))
    case _ => v
  }

  // ----- as the program computes them -----

  predicate EntryByKey(a: Entry, b: Entry) { StringLe(a.key, b.key) }

  /** `Map::insert`: a known key keeps its place. */
  function Put(ms: seq<Member>, key: string, value: Json): seq<Member> {
    if ms == [] then [Member(key, value)]
    else if ms[0].key == key then [Member(key, value)] + ms[1..]
    else [ms[0]] + Put(ms[1..], key, value)
  }

  lemma {:induction false} PutNew(ms: seq<Member>, key: string, value: Json)
    requires forall i :: 0 <= i < |ms| ==> ms[i].key != key
    ensures Put(ms, key, value) == ms + [Member(key, value)]
  {
    if ms != [] {
      PutNew(ms[1..], key, value);
    }
  }

  method SortJson(v: Json) returns (r: Json)
    requires Proper(v)
    ensures r == SortedValue(v)
    decreases v, 1
  {
    match v
    case Array(items) =>
      var out := [];
      for i := 0 to |items|
        invariant |out| == i && forall k :: 0 <= k < i ==> out[k] == SortedValue(items[k])
      {
        var child := SortJson(items[i]);
        out := out + [child];
      }
      r := Array(out);
    case Object(ms) =>
      var out := SortObject(v);
      SortThenMap(ms);
      r := Object(out);
    case _ =>
      r := v;
  }

  function SortedMember(m: Member): Member { Member(m.key, SortedValue(m.value)) }

  function Projected(e: Entry): Member { Member(e.key, SortedValue(AsJson(e.value))) }

  lemma SortThenMap(ms: seq<Member>)
    ensures Map(StableSort(ms, ByKey), SortedMember) == StableSort(SortedMembers(ms), ByKey)
  {
    SortOfMap(ms, SortedMember, ByKey, ByKey);
    assert Map(ms, SortedMember) == SortedMembers(ms);
  }

  lemma ProjectedMembers(es: seq<Entry>)
    ensures Map(es, Projected) == SortedMembers(AsJson(TTable(es)).members)
  {
  }

  lemma SortedTable(es: seq<Entry>)
    ensures SortedValue(AsJson(TTable(es))) == Object(StableSort(Map(es, Projected), ByKey))
  {
    ProjectedMembers(es);
  }

  lemma SortThenProject(es: seq<Entry>)
    ensures Object(Map(StableSort(es, EntryByKey), Projected)) == SortedValue(AsJson(TTable(es)))
  {
    SortOfMap(es, Projected, EntryByKey, ByKey);
    SortedTable(es);
  }

  /** A turn of the loop, for any projection that keeps the keys. */
  lemma OneMoreMember(pairs: seq<Member>, i: nat, f: Member -> Member)
    requires i < |pairs| && DistinctKeys(pairs) && forall m :: f(m).key == m.key
    ensures Put(Map(pairs[..i], f), pairs[i].key, f(pairs[i]).value) == Map(pairs[..i + 1], f)
  {
    PutNew(Map(pairs[..i], f), pairs[i].key, f(pairs[i]).value);
    assert pairs[..i + 1] == pairs[..i] + [pairs[i]];
  }

  method SortObject(v: Json) returns (out: seq<Member>)
    requires v.Object? && Proper(v)
    ensures out == Map(StableSort(v.members, ByKey), SortedMember)
    decreases v, 0
  {
    var pairs := StableSort(v.members, ByKey);
    SortedMembersStayProper(v.members);
    out := [];
    for i := 0 to |pairs|
      invariant out == Map(pairs[..i], SortedMember)
    {
      ghost var j := PlaceOf(v.members, ByKey, pairs[i]);
      assert v.members[j].value < v;
      var child := SortJson(pairs[i].value);
      out := Put(out, pairs[i].key, child);
      OneMoreMember(pairs, i, SortedMember);
    }
    assert pairs[..|pairs|] == pairs;
  }

  lemma PlaceOf<T>(s: seq<T>, le: (T, T) -> bool, x: T) returns (j: nat)
    requires x in StableSort(s, le)
    ensures j < |s| && s[j] == x
  {
    InSorted(s, le, x);
    j :| j < |s| && s[j] == x;
  }

  lemma SortedMembersStayProper(ms: seq<Member>)
    requires DistinctKeys(ms)
    ensures DistinctKeys(StableSort(ms, ByKey))
  {
    KeysStayDistinct(ms, StableSort(ms, ByKey));
  }

  lemma {:induction false} OnceEach(ms: seq<Member>, m: Member)
    requires DistinctKeys(ms)
    ensures multiset(ms)[m] <= 1
  {
    if ms != [] {
      OnceEach(ms[1..], m);
      assert ms == [ms[0]] + ms[1..];
    }
  }

  /** A rearrangement of members with distinct keys has distinct keys. */
  lemma KeysStayDistinct(ms: seq<Member>, ns: seq<Member>)
    requires DistinctKeys(ms) && multiset(ms) == multiset(ns)
    ensures DistinctKeys(ns)
  {
    forall i, j | 0 <= i < j < |ns| ensures ns[i].key != ns[j].key {
      assert ns[i] in multiset(ms) && ns[j] in multiset(ms);
      var a :| 0 <= a < |ms| && ms[a] == ns[i];
      if ns[i].key == ns[j].key {
        var b :| 0 <= b < |ms| && ms[b] == ns[j];
        assert a == b;
        WithoutOne(ns, i);
        assert (ns[..i] + ns[i + 1..])[j - 1] == ns[j];
        OnceEach(ms, ns[i]);
      }
    }
  }

  method SortedJson(v: Toml) returns (r: Json)
    requires ProperToml(v)
    ensures r == SortedValue(AsJson(v))
    decreases v, 1
  {
    match v
    case TString(s) => r := String(s);
    case TInteger(i) => r := Int(i);
    case TFloat(f) => r := FromFloat(f);
    case TBoolean(b) => r := Bool(b);
    case TDatetime(text) => r := String(text);
    case TArray(items) =>
      var out := [];
      for i := 0 to |items|
        invariant |out| == i && forall k :: 0 <= k < i ==> out[k] == SortedValue(AsJson(items[k]))
      {
        var child := SortedJson(items[i]);
        out := out + [child];
      }
      r := Array(out);
    case TTable(_) =>
      var out := SortTable(v);
      SortThenProject(v.entries);
      r := Object(out);
  }

  ghost predicate DistinctEntries(es: seq<Entry>) {
    forall i, j :: 0 <= i < j < |es| ==> es[i].key != es[j].key
  }

  /** A turn of the loop, for any projection that keeps the keys. */
  lemma OneMorePut(pairs: seq<Entry>, i: nat, f: Entry -> Member)
    requires i < |pairs| && DistinctEntries(pairs) && forall e :: f(e).key == e.key
    ensures Put(Map(pairs[..i], f), pairs[i].key, f(pairs[i]).value) == Map(pairs[..i + 1], f)
  {
    PutNew(Map(pairs[..i], f), pairs[i].key, f(pairs[i]).value);
    assert pairs[..i + 1] == pairs[..i] + [pairs[i]];
  }

  method SortTable(v: Toml) returns (out: seq<Member>)
    requires v.TTable? && ProperToml(v)
    ensures out == Map(StableSort(v.entries, EntryByKey), Projected)
    decreases v, 0
  {
    var pairs := StableSort(v.entries, EntryByKey);
    EntriesStayDistinct(v.entries);
    out := [];
    for i := 0 to |pairs|
      invariant out == Map(pairs[..i], Projected)
    {
      ghost var j := PlaceOf(v.entries, EntryByKey, pairs[i]);
      assert v.entries[j].value < v;
      var child := SortedJson(pairs[i].value);
      out := Put(out, pairs[i].key, child);
      OneMorePut(pairs, i, Projected);
    }
    assert pairs[..|pairs|] == pairs;
  }

  lemma EntriesStayDistinct(es: seq<Entry>)
    requires DistinctEntries(es)
    ensures DistinctEntries(StableSort(es, EntryByKey))
  {
    var keyed := (e: Entry) => Member(e.key, Null);
    SortOfMap(es, keyed, EntryByKey, ByKey);
    SortedMembersStayProper(Map(es, keyed));
    var sorted := StableSort(es, EntryByKey);
    forall i, j | 0 <= i < j < |sorted| ensures sorted[i].key != sorted[j].key {
      assert Map(sorted, keyed)[i].key != Map(sorted, keyed)[j].key;
    }
  }
}
