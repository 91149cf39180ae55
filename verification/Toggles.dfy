/** The boolean toggles of a profile, and why their summary ignores key order. */
module Toggles {
  import opened Prelude
  import opened Sorting
  import opened Canonical
  import opened Fingerprint

  type Toggle = (string, bool)

  function Dotted(prefix: string, key: string): string {
    if prefix == [] then key else prefix + "." + key
  }

  function Leaves(v: Json, prefix: string): seq<Toggle>
    decreases v
  {
    match v
    case Bool(b) => [(prefix, b)]
    case Object(ms) => LeavesOf(ms, prefix)
    case _ => []
  }

  function LeavesOf(ms: seq<Member>, prefix: string): seq<Toggle>
    decreases ms
  {
    if ms == [] then []
    else Leaves(ms[0].value, Dotted(prefix, ms[0].key)) + LeavesOf(ms[1..], prefix)
  }

  lemma NextMember(ms: seq<Member>, i: nat, prefix: string, out: seq<Toggle>)
    requires i < |ms|
    ensures out + LeavesOf(ms[i..], prefix)
      == out + Leaves(ms[i].value, Dotted(prefix, ms[i].key)) + LeavesOf(ms[i + 1..], prefix)
  {
    assert ms[i..][1..] == ms[i + 1..];
  }

  method CollectBoolLeaves(v: Json, prefix: string, before: seq<Toggle>) returns (out: seq<Toggle>)
    ensures out == before + Leaves(v, prefix)
    decreases v, 1
  {
    out := before;
    match v
    case Bool(b) =>
      out := out + [(prefix, b)];
    case Object(_) =>
      out := CollectMembers(v, prefix, out);
    case _ =>
  }

  method CollectMembers(v: Json, prefix: string, before: seq<Toggle>) returns (out: seq<Toggle>)
    requires v.Object?
    ensures out == before + LeavesOf(v.members, prefix)
    decreases v, 0
  {
    out := before;
    for i := 0 to |v.members|
      invariant out + LeavesOf(v.members[i..], prefix) == before + LeavesOf(v.members, prefix)
    {
      var m := v.members[i];
      var name := if prefix == [] then m.key else prefix + "." + m.key;
      NextMember(v.members, i, prefix, out);
      out := CollectBoolLeaves(m.value, name, out);
    }
  }

  // ----- what a toggle is -----

  /** The value at the end of a way through nested objects, if there is one. */
  function ValueAt(v: Json, way: seq<string>): Option<Json>
    decreases |way|
  {
    if way == [] then Some(v)
    else if v.Object? && IndexOf(KeysOf(v.members), way[0]) < |v.members|
    then ValueAt(v.members[IndexOf(KeysOf(v.members), way[0])].value, way[1..])
    else None
  }

  /** The keys on the way, with dots between them. */
  function NameOf(prefix: string, way: seq<string>): string
    decreases |way|
  {
    if way == [] then prefix else NameOf(Dotted(prefix, way[0]), way[1..])
  }

  /** This way leads to this boolean, and is named so. */
  predicate LeadsTo(v: Json, prefix: string, way: seq<string>, t: Toggle) {
    ValueAt(v, way) == Some(Bool(t.1)) && NameOf(prefix, way) == t.0
  }

  lemma {:induction false} MemberOfLeaves(ms: seq<Member>, prefix: string, t: Toggle) returns (i: nat)
    requires t in LeavesOf(ms, prefix)
    ensures i < |ms| && t in Leaves(ms[i].value, Dotted(prefix, ms[i].key))
    decreases |ms|
  {
    if t in Leaves(ms[0].value, Dotted(prefix, ms[0].key)) {
      i := 0;
    } else {
      i := MemberOfLeaves(ms[1..], prefix, t);
      i := i + 1;
    }
  }

  lemma {:induction false} LeavesOfMember(ms: seq<Member>, prefix: string, i: nat, t: Toggle)
    requires i < |ms| && t in Leaves(ms[i].value, Dotted(prefix, ms[i].key))
    ensures t in LeavesOf(ms, prefix)
    decreases |ms|
  {
    if i > 0 {
      LeavesOfMember(ms[1..], prefix, i - 1, t);
    }
  }

  lemma {:induction false} ToggleHasAWay(v: Json, prefix: string, t: Toggle) returns (way: seq<string>)
    requires Proper(v) && t in Leaves(v, prefix)
    ensures LeadsTo(v, prefix, way, t)
    decreases v
  {
    if v.Bool? {
      way := [];
    } else {
      var i := MemberOfLeaves(v.members, prefix, t);
      var rest := ToggleHasAWay(v.members[i].value, Dotted(prefix, v.members[i].key), t);
      way := [v.members[i].key] + rest;
      KeyIsAt(v.members, i);
      assert way[1..] == rest;
    }
  }

  lemma {:induction false} WayHasAToggle(v: Json, prefix: string, t: Toggle, way: seq<string>)
    requires LeadsTo(v, prefix, way, t)
    ensures t in Leaves(v, prefix)
    decreases |way|
  {
    if way != [] {
      var i := IndexOf(KeysOf(v.members), way[0]);
      assert KeysOf(v.members)[i] == v.members[i].key;
      WayHasAToggle(v.members[i].value, Dotted(prefix, v.members[i].key), t, way[1..]);
      LeavesOfMember(v.members, prefix, i, t);
    }
  }

  /** The toggles of a profile are its booleans, each named by the keys on the way to it. */
  lemma TogglesAreTheBooleans(v: Json, t: Toggle)
    requires Proper(v)
    ensures t in Leaves(v, "") <==> exists way :: LeadsTo(v, "", way, t)
  {
    if t in Leaves(v, "") {
      var way := ToggleHasAWay(v, "", t);
    }
    if way :| LeadsTo(v, "", way, t) {
      WayHasAToggle(v, "", t, way);
    }
  }

  /** The order of `(String, bool)` pairs: `false` before `true`. */
  predicate ToggleLe(a: Toggle, b: Toggle) {
    if a.0 == b.0 then a.1 ==> b.1 else StringLe(a.0, b.0)
  }

  /** The toggles of a profile, sorted by name. */
  function Summary(v: Json): seq<Toggle> {
    StableSort(Leaves(v, ""), ToggleLe)
  }

  lemma ToggleOrder()
    ensures TotalPreorder(ToggleLe)
  {
    forall a: Toggle, b: Toggle ensures ToggleLe(a, b) || ToggleLe(b, a) {
      StringTotal(a.0, b.0);
    }
    forall a: Toggle, b: Toggle, c: Toggle | ToggleLe(a, b) && ToggleLe(b, c) ensures ToggleLe(a, c) {
      if a.0 != b.0 && b.0 != c.0 {
        StringTransitive(a.0, b.0, c.0);
        if a.0 == c.0 {
          StringAntisymmetric(a.0, b.0);
        }
      }
    }
  }

  lemma TogglesDoNotTie(s: seq<Toggle>)
    ensures NoTies(s, ToggleLe)
  {
    forall a, b | a in s && b in s && ToggleLe(a, b) && ToggleLe(b, a) ensures a == b {
      if a.0 != b.0 {
        StringAntisymmetric(a.0, b.0);
      }
    }
  }

  lemma {:induction false} InsertKeepsLeaves(m: Member, ms: seq<Member>, prefix: string)
    ensures multiset(LeavesOf(Insert(m, ms, ByKey), prefix))
      == multiset(Leaves(m.value, Dotted(prefix, m.key))) + multiset(LeavesOf(ms, prefix))
  {
    if ms == [] || ByKey(m, ms[0]) {
      assert ([m] + ms)[1..] == ms;
    } else {
      InsertKeepsLeaves(m, ms[1..], prefix);
      assert ([ms[0]] + Insert(m, ms[1..], ByKey))[1..] == Insert(m, ms[1..], ByKey);
    }
  }

  lemma {:induction false} SortKeepsLeaves(ms: seq<Member>, prefix: string)
    ensures multiset(LeavesOf(StableSort(ms, ByKey), prefix)) == multiset(LeavesOf(ms, prefix))
  {
    if ms != [] {
      SortKeepsLeaves(ms[1..], prefix);
      InsertKeepsLeaves(ms[0], StableSort(ms[1..], ByKey), prefix);
    }
  }

  /** Canonicalising rearranges the toggles and changes none. */
  lemma {:induction false} CanonicalKeepsLeaves(v: Json, prefix: string)
    ensures multiset(Leaves(SortedValue(v), prefix)) == multiset(Leaves(v, prefix))
    decreases v
  {
    if v.Object? {
      assert SortedValue(v) == Object(StableSort(SortedMembers(v.members), ByKey));
      SortKeepsLeaves(SortedMembers(v.members), prefix);
      MembersKeepLeaves(v.members, prefix);
    }
  }

  lemma {:induction false} MembersKeepLeaves(ms: seq<Member>, prefix: string)
    ensures multiset(LeavesOf(SortedMembers(ms), prefix)) == multiset(LeavesOf(ms, prefix))
    decreases ms
  {
    if ms != [] {
      CanonicalKeepsLeaves(ms[0].value, Dotted(prefix, ms[0].key));
      MembersKeepLeaves(ms[1..], prefix);
      assert SortedMembers(ms)[1..] == SortedMembers(ms[1..]);
    }
  }

  /** Profiles that are the same up to key order have the same toggle summary. */
  lemma SummaryIgnoresKeyOrder(a: Json, b: Json)
    requires Proper(a) && Proper(b) && Same(a, b)
    ensures Summary(a) == Summary(b)
  {
    CanonicalIffSame(a, b);
    CanonicalKeepsLeaves(a, "");
    CanonicalKeepsLeaves(b, "");
    ToggleOrder();
    TogglesDoNotTie(Leaves(a, ""));
    OrderOfArrival(Leaves(a, ""), Leaves(b, ""), ToggleLe);
  }
}
