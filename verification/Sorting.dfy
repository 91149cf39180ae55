/** Stable sorting by a total preorder, and the order of strings. */
module Sorting {
  import opened Prelude

  ghost predicate TotalPreorder<T(!new)>(le: (T, T) -> bool) {
    && (forall a, b :: le(a, b) || le(b, a))
    && (forall a, b, c :: le(a, b) && le(b, c) ==> le(a, c))
  }

  ghost predicate Sorted<T>(s: seq<T>, le: (T, T) -> bool) {
    forall i, j :: 0 <= i < j < |s| ==> le(s[i], s[j])
  }

  /** Puts `x` in front of the first element it does not exceed. */
  function Insert<T>(x: T, s: seq<T>, le: (T, T) -> bool): (r: seq<T>)
    ensures multiset(r) == multiset{x} + multiset(s) && |r| == |s| + 1
  {
    if s == [] || le(x, s[0]) then [x] + s
    else
      assert s == [s[0]] + s[1..];
      [s[0]] + Insert(x, s[1..], le)
  }

  /** What `sort` and `sort_by_key` do to a vector: equal elements keep their order. */
  function StableSort<T>(s: seq<T>, le: (T, T) -> bool): (r: seq<T>)
    ensures multiset(r) == multiset(s) && |r| == |s|
  {
    if s == [] then []
    else
      assert s == [s[0]] + s[1..];
      Insert(s[0], StableSort(s[1..], le), le)
  }

  lemma {:induction false} InsertSorts<T(!new)>(x: T, s: seq<T>, le: (T, T) -> bool)
    requires TotalPreorder(le) && Sorted(s, le)
    ensures Sorted(Insert(x, s, le), le)
  {
    if s != [] && !le(x, s[0]) {
      InsertSorts(x, s[1..], le);
      var rest := Insert(x, s[1..], le);
      forall j | 0 <= j < |rest| ensures le(s[0], rest[j]) {
        assert rest[j] in multiset(rest);
        if rest[j] != x {
          assert rest[j] in s[1..];
        }
      }
    }
  }

  lemma {:induction false} SortSorts<T(!new)>(s: seq<T>, le: (T, T) -> bool)
    requires TotalPreorder(le)
    ensures Sorted(StableSort(s, le), le)
  {
    if s != [] {
      SortSorts(s[1..], le);
      InsertSorts(s[0], StableSort(s[1..], le), le);
    }
  }

  lemma FirstIsLeast<T>(s: seq<T>, le: (T, T) -> bool)
    requires Sorted(s, le) && s != []
    ensures forall x :: x in s[1..] ==> le(s[0], x)
  {
    forall x | x in s[1..] ensures le(s[0], x) {
      var i :| 0 <= i < |s[1..]| && s[1..][i] == x;
      assert s[i + 1] == x;
    }
  }

  lemma LeastInFront<T>(x: T, s: seq<T>, le: (T, T) -> bool)
    requires Sorted(s, le) && forall y :: y in s ==> le(x, y)
    ensures Sorted([x] + s, le)
  {
  }

  /** A sorted sequence is a fixed point. */
  lemma {:induction false} SortedStays<T>(s: seq<T>, le: (T, T) -> bool)
    requires Sorted(s, le)
    ensures StableSort(s, le) == s
  {
    if s != [] {
      SortedStays(s[1..], le);
      assert s == [s[0]] + s[1..];
      if |s| > 1 { assert le(s[0], s[1]); }
    }
  }

  /** No two different elements of `s` tie. */
  ghost predicate NoTies<T>(s: seq<T>, le: (T, T) -> bool) {
    forall a, b :: a in s && b in s && le(a, b) && le(b, a) ==> a == b
  }

  /** There is one way to sort elements that do not tie. */
  lemma {:induction false} SortedIsUnique<T(!new)>(a: seq<T>, b: seq<T>, le: (T, T) -> bool)
    requires TotalPreorder(le) && Sorted(a, le) && Sorted(b, le) && NoTies(a, le)
    requires multiset(a) == multiset(b)
    ensures a == b
    decreases |a|
  {
    assert |multiset(a)| == |a| && |multiset(b)| == |b|;
    if a != [] {
      SameFirst(a, b, le);
      FewerTies(a, le);
      SameRest(a, b);
      SortedIsUnique(a[1..], b[1..], le);
      assert a == [a[0]] + a[1..] && b == [b[0]] + b[1..];
    }
  }

  lemma SameRest<T>(a: seq<T>, b: seq<T>)
    requires multiset(a) == multiset(b) && a != [] && b != [] && a[0] == b[0]
    ensures multiset(a[1..]) == multiset(b[1..])
  {
    WithoutTheFirst(a, b, 0);
    assert b[..0] + b[1..] == b[1..];
  }

  lemma SameFirst<T(!new)>(a: seq<T>, b: seq<T>, le: (T, T) -> bool)
    requires TotalPreorder(le) && Sorted(a, le) && Sorted(b, le) && NoTies(a, le)
    requires multiset(a) == multiset(b) && a != [] && b != []
    ensures a[0] == b[0]
  {
    assert a[0] in multiset(b) && b[0] in multiset(a);
    LeastFirst(a, b[0], le);
    LeastFirst(b, a[0], le);
  }

  lemma FewerTies<T>(a: seq<T>, le: (T, T) -> bool)
    requires a != [] && NoTies(a, le)
    ensures NoTies(a[1..], le)
  {
    assert forall x :: x in a[1..] ==> x in a;
  }

  lemma LeastFirst<T(!new)>(a: seq<T>, x: T, le: (T, T) -> bool)
    requires TotalPreorder(le) && Sorted(a, le) && x in a
    ensures le(a[0], x)
  {
  }

  /** So the order the elements arrive in does not matter. */
  lemma OrderOfArrival<T(!new)>(s: seq<T>, t: seq<T>, le: (T, T) -> bool)
    requires TotalPreorder(le) && NoTies(s, le) && multiset(s) == multiset(t)
    ensures StableSort(s, le) == StableSort(t, le)
  {
    SortSorts(s, le);
    SortSorts(t, le);
    var a, b := StableSort(s, le), StableSort(t, le);
    forall x, y | x in a && y in a && le(x, y) && le(y, x) ensures x == y {
      assert x in multiset(a) && y in multiset(a);
      assert x in s && y in s;
    }
    SortedIsUnique(a, b, le);
  }

  lemma WithoutOne<T>(s: seq<T>, k: nat)
    requires k < |s|
    ensures multiset(s) == multiset(s[..k] + s[k + 1..]) + multiset{s[k]}
  {
    assert s == s[..k] + [s[k]] + s[k + 1..];
  }

  lemma WithoutTheFirst<T>(a: seq<T>, b: seq<T>, k: nat)
    requires multiset(a) == multiset(b) && a != [] && k < |b| && b[k] == a[0]
    ensures multiset(a[1..]) == multiset(b[..k] + b[k + 1..])
  {
    WithoutOne(b, k);
    assert a == [a[0]] + a[1..];
    assert multiset(a[1..]) == multiset(a) - multiset{a[0]};
  }

  function Map<A, B>(s: seq<A>, f: A -> B): (r: seq<B>)
    ensures |r| == |s| && forall i :: 0 <= i < |s| ==> r[i] == f(s[i])
  {
    seq(|s|, i requires 0 <= i < |s| => f(s[i]))
  }

  lemma MapSnoc<A, B>(s: seq<A>, i: nat, f: A -> B)
    requires i < |s|
    ensures Map(s[..i + 1], f) == Map(s[..i], f) + [f(s[i])]
  {
  }

  lemma MapCons<A, B>(x: A, s: seq<A>, f: A -> B)
    ensures Map([x] + s, f) == [f(x)] + Map(s, f)
  {
  }

  lemma MapSplits<A, B>(s: seq<A>, f: A -> B)
    requires s != []
    ensures Map(s, f) != [] && Map(s, f)[0] == f(s[0]) && Map(s, f)[1..] == Map(s[1..], f)
  {
  }

  /** Mapping before or after sorting, when the map keeps what the order looks at. */
  lemma {:induction false} SortOfMap<A(!new), B>(s: seq<A>, f: A -> B, le: (A, A) -> bool, leMapped: (B, B) -> bool)
    requires forall a, b :: leMapped(f(a), f(b)) == le(a, b)
    ensures StableSort(Map(s, f), leMapped) == Map(StableSort(s, le), f)
  {
    if s != [] {
      SortOfMap(s[1..], f, le, leMapped);
      assert Map(s, f)[1..] == Map(s[1..], f);
      InsertOfMap(s[0], StableSort(s[1..], le), f, le, leMapped);
    }
  }

  lemma {:induction false} InsertOfMap<A(!new), B>(
    x: A, s: seq<A>, f: A -> B, le: (A, A) -> bool, leMapped: (B, B) -> bool)
    requires forall a, b :: leMapped(f(a), f(b)) == le(a, b)
    ensures Insert(f(x), Map(s, f), leMapped) == Map(Insert(x, s, le), f)
  {
    if s != [] && !le(x, s[0]) {
      InsertOfMap(x, s[1..], f, le, leMapped);
      MapSplits(s, f);
      MapCons(s[0], Insert(x, s[1..], le), f);
    } else {
      MapCons(x, s, f);
    }
  }

  lemma InSorted<T>(s: seq<T>, le: (T, T) -> bool, x: T)
    ensures x in StableSort(s, le) <==> x in s
  {
    assert x in StableSort(s, le) <==> x in multiset(StableSort(s, le));
    assert x in s <==> x in multiset(s);
  }

  // ----- counting -----

  function Counted<T>(s: seq<T>, p: T -> bool): nat {
    if s == [] then 0 else (if p(s[0]) then 1 else 0) + Counted(s[1..], p)
  }

  /** The places where it holds. */
  function Places<T>(s: seq<T>, p: T -> bool): set<int> {
    set i | 0 <= i < |s| && p(s[i])
  }

  lemma {:induction false} CountedSnoc<T>(s: seq<T>, x: T, p: T -> bool)
    ensures Counted(s + [x], p) == Counted(s, p) + if p(x) then 1 else 0
  {
    if s == [] {
      assert s + [x] == [x] && [x][1..] == [];
    } else {
      SplitFirst(s, [x]);
      CountedSnoc(s[1..], x, p);
    }
  }

  lemma {:induction false} CountedIsCardinality<T>(s: seq<T>, p: T -> bool)
    ensures Counted(s, p) == |Places(s, p)|
    decreases |s|
  {
    if s == [] {
      assert Places(s, p) == {};
    } else {
      var n := |s| - 1;
      CountedIsCardinality(s[..n], p);
      CountedSnoc(s[..n], s[n], p);
      assert s == s[..n] + [s[n]];
      assert Places(s, p) == Places(s[..n], p) + if p(s[n]) then {n} else {};
    }
  }

  lemma {:induction false} InsertCounts<T>(x: T, s: seq<T>, le: (T, T) -> bool, p: T -> bool)
    ensures Counted(Insert(x, s, le), p) == (if p(x) then 1 else 0) + Counted(s, p)
  {
    if s == [] || le(x, s[0]) {
      assert ([x] + s)[1..] == s;
    } else {
      InsertCounts(x, s[1..], le, p);
      assert ([s[0]] + Insert(x, s[1..], le))[1..] == Insert(x, s[1..], le);
    }
  }

  lemma {:induction false} SortCounts<T>(s: seq<T>, le: (T, T) -> bool, p: T -> bool)
    ensures Counted(StableSort(s, le), p) == Counted(s, p)
  {
    if s != [] {
      SortCounts(s[1..], le, p);
      InsertCounts(s[0], StableSort(s[1..], le), le, p);
    }
  }

  // ----- strings -----

  /** The order of Rust strings: by scalar value, a prefix before its extensions. */
  predicate StringLe(a: string, b: string) {
    a == [] || (b != [] && (a[0] < b[0] || (a[0] == b[0] && StringLe(a[1..], b[1..]))))
  }

  /** Up to place `k` the two agree; there the first ends, or has the lesser character. */
  predicate LessAt(a: string, b: string, k: nat) {
    && k <= |a| && k < |b| && a[..k] == b[..k]
    && (k == |a| || a[k] < b[k])
  }

  /** The order, told by the first place where two strings differ. */
  lemma {:induction false} StringLessIff(a: string, b: string)
    ensures StringLe(a, b) && a != b <==> exists k: nat :: LessAt(a, b, k)
  {
    if a == [] {
      assert b != [] ==> LessAt(a, b, 0);
    } else if b != [] && a[0] != b[0] {
      assert a[0] < b[0] ==> LessAt(a, b, 0);
    } else if b != [] {
      StringLessIff(a[1..], b[1..]);
      assert a == [a[0]] + a[1..] && b == [b[0]] + b[1..];
      if k: nat :| LessAt(a[1..], b[1..], k) {
        assert a[..k + 1] == [a[0]] + a[1..][..k] && b[..k + 1] == [b[0]] + b[1..][..k];
        assert LessAt(a, b, k + 1);
      }
      if k: nat :| LessAt(a, b, k) {
        assert k > 0 && a[1..][..k - 1] == a[..k][1..] && b[1..][..k - 1] == b[..k][1..];
        assert LessAt(a[1..], b[1..], k - 1);
      }
    }
  }

  /** Heads of one length decide, and only where they agree does the rest. */
  lemma {:induction false} HeadDecides(a: string, b: string, restA: string, restB: string)
    requires |a| == |b|
    ensures StringLe(a + restA, b + restB) <==> if a == b then StringLe(restA, restB) else StringLe(a, b)
  {
    if a == [] {
      assert a + restA == restA && b + restB == restB;
    } else {
      SplitFirst(a, restA);
      SplitFirst(b, restB);
      assert a == [a[0]] + a[1..] && b == [b[0]] + b[1..];
      HeadDecides(a[1..], b[1..], restA, restB);
    }
  }

  lemma {:induction false} StringTotal(a: string, b: string)
    ensures StringLe(a, b) || StringLe(b, a)
  {
    if a != [] && b != [] && a[0] == b[0] {
      StringTotal(a[1..], b[1..]);
    }
  }

  lemma {:induction false} StringTransitive(a: string, b: string, c: string)
    requires StringLe(a, b) && StringLe(b, c)
    ensures StringLe(a, c)
  {
    if a != [] && a[0] == b[0] && b[0] == c[0] {
      StringTransitive(a[1..], b[1..], c[1..]);
    }
  }

  lemma {:induction false} StringAntisymmetric(a: string, b: string)
    requires StringLe(a, b) && StringLe(b, a)
    ensures a == b
  {
    if a != [] {
      StringAntisymmetric(a[1..], b[1..]);
      assert a == [a[0]] + a[1..] && b == [b[0]] + b[1..];
    }
  }

  lemma StringOrder()
    ensures TotalPreorder(StringLe)
  {
    forall a: string, b: string ensures StringLe(a, b) || StringLe(b, a) {
      StringTotal(a, b);
    }
    forall a: string, b: string, c: string | StringLe(a, b) && StringLe(b, c) ensures StringLe(a, c) {
      StringTransitive(a, b, c);
    }
  }
}
