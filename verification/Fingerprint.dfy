/** What a canonical projection identifies and what it tells apart. */
module Fingerprint {
  import opened Prelude
  import opened Sorting
  import opened Canonical

  // ----- equality up to key order -----

  function KeysOf(ms: seq<Member>): seq<string> { Map(ms, (m: Member) => m.key) }

  /** Where a key is, or the length when it is nowhere. */
  function IndexOf(keys: seq<string>, key: string): (i: nat)
    ensures i <= |keys| && (i < |keys| ==> keys[i] == key) && (i == |keys| ==> key !in keys)
  {
    if keys == [] then 0
    else if keys[0] == key then 0
    else
      assert keys == [keys[0]] + keys[1..];
      1 + IndexOf(keys[1..], key)
  }

  predicate SubsetOf(keys: seq<string>, others: seq<string>) {
    forall i :: 0 <= i < |keys| ==> IndexOf(others, keys[i]) < |others|
  }

  /** The same value, reading objects as maps: key order does not count, array order does. */
  predicate Same(a: Json, b: Json)
    decreases a
  {
    match a
    case Array(xs) => b.Array? && |xs| == |b.items| && forall i :: 0 <= i < |xs| ==> Same(xs[i], b.items[i])
    case Object(ms) =>
      b.Object? && SubsetOf(KeysOf(ms), KeysOf(b.members)) && SubsetOf(KeysOf(b.members), KeysOf(ms))
      && forall i :: 0 <= i < |ms| ==> Same(ms[i].value, b.members[IndexOf(KeysOf(b.members), ms[i].key)].value)
    case _ => a == b
  }

  lemma SortedKeepsShape(v: Json)
    ensures v.Array? <==> SortedValue(v).Array?
    ensures v.Object? <==> SortedValue(v).Object?
    ensures !v.Array? && !v.Object? ==> SortedValue(v) == v
  {
  }

  lemma ArrayOfSorted(v: Json)
    requires v.Array?
    ensures |SortedValue(v).items| == |v.items|
    ensures forall i :: 0 <= i < |v.items| ==> SortedValue(v).items[i] == SortedValue(v.items[i])
  {
  }

  lemma KeyOrder()
    ensures TotalPreorder(ByKey)
  {
    StringOrder();
    forall a: Member, b: Member ensures ByKey(a, b) || ByKey(b, a) {
      assert StringLe(a.key, b.key) || StringLe(b.key, a.key);
    }
    forall a: Member, b: Member, c: Member | ByKey(a, b) && ByKey(b, c) ensures ByKey(a, c) {
      assert StringLe(a.key, b.key) && StringLe(b.key, c.key);
    }
  }

  lemma DistinctKeysDoNotTie(ms: seq<Member>)
    requires DistinctKeys(ms)
    ensures NoTies(ms, ByKey)
  {
    forall a, b | a in ms && b in ms && ByKey(a, b) && ByKey(b, a) ensures a == b {
      StringAntisymmetric(a.key, b.key);
      var i :| 0 <= i < |ms| && ms[i] == a;
      var j :| 0 <= j < |ms| && ms[j] == b;
      assert i == j;
    }
  }

  ghost predicate SameElements<T(!new)>(a: seq<T>, b: seq<T>) {
    forall x :: x in a <==> x in b
  }

  /** Two member lists with distinct keys and the same members are rearrangements of each other. */
  lemma SameMembersSameMultiset(ms: seq<Member>, ns: seq<Member>)
    requires DistinctKeys(ms) && DistinctKeys(ns) && SameElements(ms, ns)
    ensures multiset(ms) == multiset(ns)
  {
    forall m ensures multiset(ms)[m] == multiset(ns)[m] {
      OnceEach(ms, m);
      OnceEach(ns, m);
      assert m in multiset(ms) <==> m in ms;
      assert m in multiset(ns) <==> m in ns;
    }
  }

  /** Sorting forgets the order of members with distinct keys and nothing else. */
  lemma SortedMembersAgree(ms: seq<Member>, ns: seq<Member>)
    requires DistinctKeys(ms) && DistinctKeys(ns)
    ensures StableSort(ms, ByKey) == StableSort(ns, ByKey) <==> SameElements(ms, ns)
  {
    if StableSort(ms, ByKey) == StableSort(ns, ByKey) {
      forall m ensures m in ms <==> m in ns {
        InSorted(ms, ByKey, m);
        InSorted(ns, ByKey, m);
      }
    }
    if SameElements(ms, ns) {
      SameMembersSameMultiset(ms, ns);
      KeyOrder();
      DistinctKeysDoNotTie(ms);
      OrderOfArrival(ms, ns, ByKey);
    }
  }

  /**
   Two JSON values with proper objects have the same canonical form exactly
   when they are the same value up to key order, at every depth.
   */
  lemma {:induction false} CanonicalIffSame(a: Json, b: Json)
    requires Proper(a) && Proper(b)
    ensures SortedValue(a) == SortedValue(b) <==> Same(a, b)
    decreases a
  {
    SortedKeepsShape(a);
    SortedKeepsShape(b);
    if a.Array? && b.Array? {
      ArrayIffSame(a, b);
    } else if a.Object? && b.Object? {
      ObjectIffSame(a, b);
    }
  }

  lemma {:induction false} ArrayIffSame(a: Json, b: Json)
    requires Proper(a) && Proper(b) && a.Array? && b.Array?
    ensures SortedValue(a) == SortedValue(b) <==> Same(a, b)
    decreases a, 0
  {
    ArrayOfSorted(a);
    ArrayOfSorted(b);
    if |a.items| == |b.items| {
      forall i | 0 <= i < |a.items|
        ensures SortedValue(a.items[i]) == SortedValue(b.items[i]) <==> Same(a.items[i], b.items[i])
      {
        CanonicalIffSame(a.items[i], b.items[i]);
      }
      if Same(a, b) {
        assert SortedValue(a).items == SortedValue(b).items;
      }
    }
  }

  /** The members agree once their values are sorted, key by key. */
  predicate AgreeSorted(ms: seq<Member>, ns: seq<Member>) {
    && SubsetOf(KeysOf(ms), KeysOf(ns)) && SubsetOf(KeysOf(ns), KeysOf(ms))
    && forall i :: 0 <= i < |ms| ==> SortedValue(ms[i].value) == SortedValue(ns[IndexOf(KeysOf(ns), ms[i].key)].value)
  }

  lemma KeyIsAt(ms: seq<Member>, j: nat)
    requires DistinctKeys(ms) && j < |ms|
    ensures IndexOf(KeysOf(ms), ms[j].key) == j
  {
    assert KeysOf(ms)[j] == ms[j].key;
    var i := IndexOf(KeysOf(ms), ms[j].key);
    assert i < |ms| && ms[i].key == ms[j].key;
  }

  lemma AgreeMeansSameMembers(ms: seq<Member>, ns: seq<Member>, m: Member)
    requires DistinctKeys(ms) && DistinctKeys(ns) && AgreeSorted(ms, ns)
    ensures m in SortedMembers(ms) <==> m in SortedMembers(ns)
  {
    var sm, sn := SortedMembers(ms), SortedMembers(ns);
    if m in sm {
      var i :| 0 <= i < |sm| && sm[i] == m;
      var j := IndexOf(KeysOf(ns), ms[i].key);
      assert KeysOf(ms)[i] == ms[i].key && sn[j] == m;
    }
    if m in sn {
      var j :| 0 <= j < |sn| && sn[j] == m;
      assert KeysOf(ns)[j] == ns[j].key;
      var i := IndexOf(KeysOf(ms), ns[j].key);
      KeyIsAt(ns, j);
      assert ms[i].key == ns[j].key && sm[i] == m;
    }
  }

  lemma MemberHasIndex(ms: seq<Member>, ns: seq<Member>, i: nat)
    requires DistinctKeys(ns) && i < |ms| && SortedMembers(ms)[i] in SortedMembers(ns)
    ensures var j := IndexOf(KeysOf(ns), ms[i].key); j < |ns| && SortedValue(ms[i].value) == SortedValue(ns[j].value)
  {
    var j :| 0 <= j < |ns| && SortedMembers(ns)[j] == SortedMembers(ms)[i];
    KeyIsAt(ns, j);
  }

  lemma SameMembersAgree(ms: seq<Member>, ns: seq<Member>)
    requires DistinctKeys(ms) && DistinctKeys(ns)
    ensures SameElements(SortedMembers(ms), SortedMembers(ns)) <==> AgreeSorted(ms, ns)
  {
    if SameElements(SortedMembers(ms), SortedMembers(ns)) {
      forall i | 0 <= i < |ms|
        ensures var j := IndexOf(KeysOf(ns), ms[i].key);
          j < |ns| && SortedValue(ms[i].value) == SortedValue(ns[j].value)
      {
        assert SortedMembers(ms)[i] in SortedMembers(ms);
        MemberHasIndex(ms, ns, i);
      }
      forall j | 0 <= j < |ns| ensures IndexOf(KeysOf(ms), ns[j].key) < |ms| {
        assert SortedMembers(ns)[j] in SortedMembers(ns);
        MemberHasIndex(ns, ms, j);
      }
      assert forall i :: 0 <= i < |ms| ==> KeysOf(ms)[i] == ms[i].key;
      assert SubsetOf(KeysOf(ms), KeysOf(ns));
      assert forall j :: 0 <= j < |ns| ==> KeysOf(ns)[j] == ns[j].key;
      assert SubsetOf(KeysOf(ns), KeysOf(ms));
    }
    if AgreeSorted(ms, ns) {
      forall m ensures m in SortedMembers(ms) <==> m in SortedMembers(ns) {
        AgreeMeansSameMembers(ms, ns, m);
      }
    }
  }

  lemma {:induction false} ObjectIffSame(a: Json, b: Json)
    requires Proper(a) && Proper(b) && a.Object? && b.Object?
    ensures SortedValue(a) == SortedValue(b) <==> Same(a, b)
    decreases a, 0
  {
    var ms, ns := a.members, b.members;
    SortedMembersAgree(SortedMembers(ms), SortedMembers(ns));
    SameMembersAgree(ms, ns);
    if SubsetOf(KeysOf(ms), KeysOf(ns)) {
      forall i | 0 <= i < |ms|
        ensures var j := IndexOf(KeysOf(ns), ms[i].key);
          j < |ns| && (SortedValue(ms[i].value) == SortedValue(ns[j].value) <==> Same(ms[i].value, ns[j].value))
      {
        assert KeysOf(ms)[i] == ms[i].key;
        CanonicalIffSame(ms[i].value, ns[IndexOf(KeysOf(ns), ms[i].key)].value);
      }
    }
  }

  // ----- the projection of TOML -----

  function EntryKeys(es: seq<Entry>): seq<string> { Map(es, (e: Entry) => e.key) }

  /** The same for parsed TOML. */
  predicate SameToml(a: Toml, b: Toml)
    decreases a
  {
    match a
    case TArray(xs) => b.TArray? && |xs| == |b.items| && forall i :: 0 <= i < |xs| ==> SameToml(xs[i], b.items[i])
    case TTable(es) =>
      b.TTable? && SubsetOf(EntryKeys(es), EntryKeys(b.entries)) && SubsetOf(EntryKeys(b.entries), EntryKeys(es))
      && forall i :: 0 <= i < |es| ==> SameToml(es[i].value, b.entries[IndexOf(EntryKeys(b.entries), es[i].key)].value)
    case _ => a == b
  }

  /** Values JSON can tell apart: finite floats, no datetimes. */
  predicate Plain(v: Toml) {
    match v
    case TFloat(f) => f.Finite?
    case TDatetime(_) => false
    case TArray(items) => forall i :: 0 <= i < |items| ==> Plain(items[i])
    case TTable(es) => forall i :: 0 <= i < |es| ==> Plain(es[i].value)
    case _ => true
  }

  /** The TOML value a JSON value without nulls stands for. */
  function AsToml(v: Json): Toml
    requires NullFree(v)
    decreases v
  {
    match v
    case Bool(b) => TBoolean(b)
    case Int(i) => TInteger(i)
    case Double(bits) => TFloat(Finite(bits))
    case String(s) => TString(s)
    case Array(items) => TArray(seq(|items|, i requires 0 <= i < |items| => AsToml(items[i])))
    case Object(ms) => TTable(seq(|ms|, i requires 0 <= i < |ms| => Entry(ms[i].key, AsToml(ms[i].value))))
  }

  predicate NullFree(v: Json) {
    match v
    case Null => false
    case Array(items) => forall i :: 0 <= i < |items| ==> NullFree(items[i])
    case Object(ms) => forall i :: 0 <= i < |ms| ==> NullFree(ms[i].value)
    case _ => true
  }

  /** A plain value is read back from its JSON as it was, every kind as that kind. */
  lemma {:induction false} JsonReadsBack(v: Toml)
    requires Plain(v)
    ensures NullFree(AsJson(v)) && AsToml(AsJson(v)) == v
    decreases v
  {
    match v
    case TArray(items) =>
      forall i | 0 <= i < |items| ensures NullFree(AsJson(items[i])) && AsToml(AsJson(items[i])) == items[i] {
        JsonReadsBack(items[i]);
      }
      assert AsToml(AsJson(v)).items == items;
    case TTable(es) =>
      forall i | 0 <= i < |es| ensures NullFree(AsJson(es[i].value)) && AsToml(AsJson(es[i].value)) == es[i].value {
        JsonReadsBack(es[i].value);
      }
      assert AsToml(AsJson(v)).entries == es;
    case _ =>
  }

  lemma {:induction false} ProjectionIsProper(v: Toml)
    requires ProperToml(v)
    ensures Proper(AsJson(v))
    decreases v
  {
    match v
    case TArray(items) =>
      forall i | 0 <= i < |items| ensures Proper(AsJson(items[i])) {
        ProjectionIsProper(items[i]);
      }
    case TTable(es) =>
      forall i | 0 <= i < |es| ensures Proper(AsJson(es[i].value)) {
        ProjectionIsProper(es[i].value);
      }
    case _ =>
  }

  /** The projection keeps the keys of a table where they are. */
  lemma ProjectionKeepsKeys(es: seq<Entry>)
    ensures KeysOf(AsJson(TTable(es)).members) == EntryKeys(es)
  {
  }

  /** Equal values up to key order project to equal values up to key order; on plain values, only they do. */
  lemma {:induction false} ProjectionRespectsSame(a: Toml, b: Toml)
    ensures SameToml(a, b) ==> Same(AsJson(a), AsJson(b))
    ensures Plain(a) && Plain(b) && Same(AsJson(a), AsJson(b)) ==> SameToml(a, b)
    decreases a
  {
    if a.TArray? && b.TArray? {
      ArrayProjection(a, b);
    } else if a.TTable? && b.TTable? {
      TableProjection(a, b);
    }
  }

  lemma {:induction false} ArrayProjection(a: Toml, b: Toml)
    requires a.TArray? && b.TArray?
    ensures SameToml(a, b) ==> Same(AsJson(a), AsJson(b))
    ensures Plain(a) && Plain(b) && Same(AsJson(a), AsJson(b)) ==> SameToml(a, b)
    decreases a, 0
  {
    var xs, ys := AsJson(a).items, AsJson(b).items;
    if |a.items| == |b.items| {
      forall i | 0 <= i < |a.items|
        ensures SameToml(a.items[i], b.items[i]) ==> Same(xs[i], ys[i])
        ensures Plain(a) && Plain(b) && Same(xs[i], ys[i]) ==> SameToml(a.items[i], b.items[i])
      {
        ProjectionRespectsSame(a.items[i], b.items[i]);
      }
    }
  }

  lemma {:induction false} TableProjection(a: Toml, b: Toml)
    requires a.TTable? && b.TTable?
    ensures SameToml(a, b) ==> Same(AsJson(a), AsJson(b))
    ensures Plain(a) && Plain(b) && Same(AsJson(a), AsJson(b)) ==> SameToml(a, b)
    decreases a, 0
  {
    var es, fs, ms, ns := a.entries, b.entries, AsJson(a).members, AsJson(b).members;
    ProjectionKeepsKeys(es);
    ProjectionKeepsKeys(fs);
    if SubsetOf(EntryKeys(es), EntryKeys(fs)) {
      forall i | 0 <= i < |es|
        ensures var j := IndexOf(EntryKeys(fs), es[i].key);
          && j < |fs|
          && (SameToml(es[i].value, fs[j].value) ==> Same(ms[i].value, ns[j].value))
          && (Plain(a) && Plain(b) && Same(ms[i].value, ns[j].value) ==> SameToml(es[i].value, fs[j].value))
      {
        assert EntryKeys(es)[i] == es[i].key;
        ProjectionRespectsSame(es[i].value, fs[IndexOf(EntryKeys(fs), es[i].key)].value);
      }
    }
  }

  /** Sources that differ in key order alone, at any depth, have one projection. */
  lemma KeyOrderDoesNotMatter(a: Toml, b: Toml)
    requires ProperToml(a) && ProperToml(b) && SameToml(a, b)
    ensures SortedValue(AsJson(a)) == SortedValue(AsJson(b))
  {
    ProjectionIsProper(a);
    ProjectionIsProper(b);
    ProjectionRespectsSame(a, b);
    CanonicalIffSame(AsJson(a), AsJson(b));
  }

  /** With finite floats and no datetimes, one projection means one value up to key order. */
  lemma PlainValuesAreToldApart(a: Toml, b: Toml)
    requires ProperToml(a) && ProperToml(b) && Plain(a) && Plain(b)
    ensures SortedValue(AsJson(a)) == SortedValue(AsJson(b)) <==> SameToml(a, b)
  {
    ProjectionIsProper(a);
    ProjectionIsProper(b);
    CanonicalIffSame(AsJson(a), AsJson(b));
    ProjectionRespectsSame(a, b);
  }

  /** `stable_fingerprint_parts`: the projections of several sources, in their order. */
  function Parts(sources: seq<Toml>): Json {
    Array(seq(|sources|, i requires 0 <= i < |sources| => SortedValue(AsJson(sources[i]))))
  }

  /** Several sources have one projection exactly when they match one by one: their positions count. */
  lemma PartsMatchByPosition(a: seq<Toml>, b: seq<Toml>)
    requires forall i :: 0 <= i < |a| ==> ProperToml(a[i]) && Plain(a[i])
    requires forall i :: 0 <= i < |b| ==> ProperToml(b[i]) && Plain(b[i])
    ensures Parts(a) == Parts(b) <==> |a| == |b| && forall i :: 0 <= i < |a| ==> SameToml(a[i], b[i])
  {
    if |a| == |b| {
      forall i | 0 <= i < |a| ensures Parts(a).items[i] == Parts(b).items[i] <==> SameToml(a[i], b[i]) {
        PlainValuesAreToldApart(a[i], b[i]);
      }
      assert Parts(a) == Parts(b) <==> Parts(a).items == Parts(b).items;
    } else {
      assert |Parts(a).items| == |a| && |Parts(b).items| == |b|;
    }
  }

  /** Without that, different values can share a projection. */
  lemma OthersMayCollide()
    ensures SortedValue(AsJson(TDatetime("1979-05-27"))) == SortedValue(AsJson(TString("1979-05-27")))
      && !SameToml(TDatetime("1979-05-27"), TString("1979-05-27"))
    ensures SortedValue(AsJson(TFloat(NaN))) == SortedValue(AsJson(TFloat(Infinite(true))))
      && !SameToml(TFloat(NaN), TFloat(Infinite(true)))
  {
  }

  // ----- the canonical form itself -----

  /** Every object, at every depth, lists its members in strictly ascending order of their keys. */
  ghost predicate KeySorted(v: Json) {
    match v
    case Array(items) => forall i :: 0 <= i < |items| ==> KeySorted(items[i])
    case Object(ms) => Ascending(ms) && forall i :: 0 <= i < |ms| ==> KeySorted(ms[i].value)
    case _ => true
  }

  ghost predicate Ascending(ms: seq<Member>) {
    forall i, j :: 0 <= i < j < |ms| ==> StringLe(ms[i].key, ms[j].key) && ms[i].key != ms[j].key
  }

  lemma SortedMembersAscend(ms: seq<Member>)
    requires DistinctKeys(ms)
    ensures Ascending(StableSort(ms, ByKey))
  {
    KeyOrder();
    SortSorts(ms, ByKey);
    SortedMembersStayProper(ms);
    var sorted := StableSort(ms, ByKey);
    forall i, j | 0 <= i < j < |sorted| ensures StringLe(sorted[i].key, sorted[j].key) {
      assert ByKey(sorted[i], sorted[j]);
    }
  }

  lemma {:induction false} CanonicalFormIsSorted(v: Json)
    requires Proper(v)
    ensures KeySorted(SortedValue(v))
    decreases v
  {
    match v
    case Array(items) =>
      forall i | 0 <= i < |items| ensures KeySorted(SortedValue(items[i])) {
        CanonicalFormIsSorted(items[i]);
      }
    case Object(ms) =>
      SortedMembersAscend(SortedMembers(ms));
      var sorted := StableSort(SortedMembers(ms), ByKey);
      forall k | 0 <= k < |sorted| ensures KeySorted(sorted[k].value) {
        var i := PlaceOf(SortedMembers(ms), ByKey, sorted[k]);
        CanonicalFormIsSorted(ms[i].value);
      }
    case _ =>
  }

  /** A value already in order is its own canonical form. */
  lemma {:induction false} SortedIsFixed(v: Json)
    requires KeySorted(v)
    ensures SortedValue(v) == v
    decreases v
  {
    match v
    case Array(items) =>
      forall i | 0 <= i < |items| ensures SortedValue(items[i]) == items[i] {
        SortedIsFixed(items[i]);
      }
      assert SortedValue(v).items == items;
    case Object(ms) =>
      forall i | 0 <= i < |ms| ensures SortedMembers(ms)[i] == ms[i] {
        SortedIsFixed(ms[i].value);
      }
      assert SortedMembers(ms) == ms;
      SortedStays(ms, ByKey);
    case _ =>
  }

  lemma CanonicalisingTwiceIsOnce(v: Json)
    requires Proper(v)
    ensures SortedValue(SortedValue(v)) == SortedValue(v)
  {
    CanonicalFormIsSorted(v);
    SortedIsFixed(SortedValue(v));
  }

  // ----- profiles -----

  /** `Map::remove` of the top-level name. */
  function Unnamed(ms: seq<Member>): seq<Member> {
    if ms == [] then [] else (if ms[0].key == "name" then [] else [ms[0]]) + Unnamed(ms[1..])
  }

  function ProfileProjection(v: Json): Json {
    SortedValue(if v.Object? then Object(Unnamed(v.members)) else v)
  }

  lemma {:induction false} UnnamedHolds(ms: seq<Member>, m: Member)
    ensures m in Unnamed(ms) <==> m in ms && m.key != "name"
  {
    if ms != [] {
      assert ms == [ms[0]] + ms[1..];
      UnnamedHolds(ms[1..], m);
    }
  }

  lemma {:induction false} UnnamedStaysProper(ms: seq<Member>)
    requires DistinctKeys(ms) && forall i :: 0 <= i < |ms| ==> Proper(ms[i].value)
    ensures Proper(Object(Unnamed(ms)))
  {
    if ms != [] {
      UnnamedStaysProper(ms[1..]);
      var rest := Unnamed(ms[1..]);
      forall i | 0 <= i < |rest| ensures rest[i].key != ms[0].key {
        UnnamedHolds(ms[1..], rest[i]);
        var j :| 0 <= j < |ms[1..]| && ms[1..][j] == rest[i];
        assert ms[j + 1] == rest[i];
      }
    }
  }

  /** Two profiles share a fingerprint projection exactly when they are the same up to key order and name. */
  lemma ProfilesAreComparedWithoutName(a: seq<Member>, b: seq<Member>)
    requires Proper(Object(a)) && Proper(Object(b))
    ensures ProfileProjection(Object(a)) == ProfileProjection(Object(b)) <==>
      Same(Object(Unnamed(a)), Object(Unnamed(b)))
  {
    UnnamedStaysProper(a);
    UnnamedStaysProper(b);
    CanonicalIffSame(Object(Unnamed(a)), Object(Unnamed(b)));
  }
}
