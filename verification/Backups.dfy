/** Backups of a catalog file in a directory, and pruning them down to the newest few. */
module Backups {
  import opened Prelude
  import opened Sorting
  import opened Decimal
  import opened Text
  import opened Instants

  const BACKUP_KEEP := 5
  const EXTENSION := ".bak"

  predicate HasSuffix(s: string, suffix: string) { |suffix| <= |s| && s[|s| - |suffix|..] == suffix }

  /** The names a stem's pruning looks at. */
  predicate InCluster(name: string, stem: string) {
    StartsWith(name, stem + "-") && HasSuffix(name, EXTENSION)
  }

  function Cluster(names: set<string>, stem: string): set<string> {
    set name | name in names && InCluster(name, stem)
  }

  /** `<stem>-<instant>-from-v<version>.bak`, the instant with its colons replaced. */
  function SnapshotName(stem: string, instant: string, version: int): string {
    stem + "-" + (instant + ("-from-v" + Print(version) + EXTENSION))
  }

  datatype BackupError = AlreadyThere | RemoveFailed

  function Elements(s: seq<string>): set<string> { set i | 0 <= i < |s| :: s[i] }

  ghost predicate Distinct(s: seq<string>) { forall i, j :: 0 <= i < j < |s| ==> s[i] != s[j] }

  /** What pruning leaves: everything outside the cluster, and the `keep` greatest names of it. */
  ghost predicate Pruned(before: set<string>, after: set<string>, stem: string, keep: nat) {
    && after <= before
    && (forall name :: name in before && !InCluster(name, stem) ==> name in after)
    && |Cluster(after, stem)| == (if |Cluster(before, stem)| <= keep then |Cluster(before, stem)| else keep)
    && (forall kept, gone :: kept in Cluster(after, stem) && gone in before - after ==>
      StringLe(gone, kept) && gone != kept)
  }

  /** A pass that could not remove `x`: it was one of the excess, the lesser names of the cluster are gone, no other. */
  ghost predicate StoppedAt(before: set<string>, after: set<string>, stem: string, keep: nat, stuck: set<string>,
                            x: string) {
    && x in Cluster(before, stem) && x in stuck && |Cluster(after, stem)| > keep
    && after <= before
    && (forall name :: name in before ==> (name in after <==> !InCluster(name, stem) || StringLe(x, name)))
    && (before - after) !! stuck
  }

  /** A directory of files. */
  class Directory {
    var names: set<string>

    constructor (names: set<string>)
      ensures this.names == names
    {
      this.names := names;
    }

    /** `read_dir`, in the order the file system gives, filtered down to the cluster. */
    method ListCluster(stem: string) returns (backups: seq<string>)
      ensures Distinct(backups) && Elements(backups) == Cluster(names, stem)
    {
      backups := [];
      var rest := names;
      while rest != {}
        invariant rest <= names
        invariant Distinct(backups) && Elements(backups) == Cluster(names - rest, stem)
        decreases |rest|
      {
        var name :| name in rest;
        assert names - (rest - {name}) == names - rest + {name};
        if InCluster(name, stem) {
          OneMoreListed(backups, names - rest, stem, name);
          backups := backups + [name];
        }
        rest := rest - {name};
      }
      assert names - {} == names;
    }

    /** Removes the excess in ascending order; the first file that cannot be removed (one of `stuck`) ends the pass. */
    method PruneOldBackups(stem: string, keep: nat, stuck: set<string>) returns (ok: bool)
      modifies this
      ensures ok ==> Pruned(old(names), names, stem, keep) && (old(names) - names) !! stuck
      ensures !ok ==> exists x :: StoppedAt(old(names), names, stem, keep, stuck, x)
    {
      var backups := ListCluster(stem);
      var sorted := StableSort(backups, StringLe);
      SortedListing(backups);
      var excess := if |sorted| <= keep then 0 else |sorted| - keep;
      for i := 0 to excess
        invariant Removed(old(names), names, sorted[..i], stuck)
      {
        if sorted[i] in stuck {
          StopsAt(old(names), stem, keep, stuck, sorted, i);
          return false;
        }
        OneMoreRemoved(old(names), names, sorted, i, stuck);
        names := names - {sorted[i]};
      }
      LastOnesAreKept(old(names), stem, keep, sorted, excess);
      return true;
    }

    /**
     A snapshot is written under a new name, then the cluster is pruned; a failed
     pruning leaves the snapshot there.
     */
    method BackupCatalog(stem: string, now: string, version: int, stuck: set<string>)
      returns (r: Result<string, BackupError>)
      modifies this
      ensures r == Err(AlreadyThere) <==> SnapshotName(stem, Dashed(now), version) in old(names)
      ensures r == Err(AlreadyThere) ==> names == old(names)
      ensures r.Ok? ==> r.value == SnapshotName(stem, Dashed(now), version)
      ensures r.Ok? ==> Pruned(old(names) + {r.value}, names, stem, BACKUP_KEEP)
      ensures r == Err(RemoveFailed) ==>
        var before := old(names) + {SnapshotName(stem, Dashed(now), version)};
        exists x :: StoppedAt(before, names, stem, BACKUP_KEEP, stuck, x)
    {
      var name := SnapshotName(stem, Dashed(now), version);
      if name in names {
        return Err(AlreadyThere);
      }
      names := names + {name};
      var ok := PruneOldBackups(stem, BACKUP_KEEP, stuck);
      return if ok then Ok(name) else Err(RemoveFailed);
    }
  }

  // ----- listing and sorting -----

  lemma OneMoreElement(s: seq<string>, x: string)
    ensures Elements(s + [x]) == Elements(s) + {x}
  {
    var more := s + [x];
    assert more[|s|] == x && forall i :: 0 <= i < |s| ==> more[i] == s[i];
  }

  lemma {:induction false} ElementsCount(s: seq<string>)
    requires Distinct(s)
    ensures |Elements(s)| == |s|
    decreases |s|
  {
    if s == [] {
      assert Elements(s) == {};
    } else {
      var before, last := s[..|s| - 1], s[|s| - 1];
      ElementsCount(before);
      assert s == before + [last];
      OneMoreElement(before, last);
      assert last !in Elements(before);
    }
  }

  lemma OneMoreListed(backups: seq<string>, seen: set<string>, stem: string, name: string)
    requires Distinct(backups) && Elements(backups) == Cluster(seen, stem) && name !in seen && InCluster(name, stem)
    ensures Distinct(backups + [name]) && Elements(backups + [name]) == Cluster(seen + {name}, stem)
  {
    assert name !in Elements(backups);
    OneMoreElement(backups, name);
  }

  /** These names and no others have gone, none of them a stuck one. */
  ghost predicate Removed(before: set<string>, after: set<string>, gone: seq<string>, stuck: set<string>) {
    after == before - Elements(gone) && Elements(gone) !! stuck
  }

  lemma OneMoreRemoved(before: set<string>, after: set<string>, sorted: seq<string>, i: nat, stuck: set<string>)
    requires i < |sorted| && Removed(before, after, sorted[..i], stuck) && sorted[i] !in stuck
    ensures Removed(before, after - {sorted[i]}, sorted[..i + 1], stuck)
  {
    assert sorted[..i + 1] == sorted[..i] + [sorted[i]];
    OneMoreElement(sorted[..i], sorted[i]);
  }

  lemma SortedListing(s: seq<string>)
    requires Distinct(s)
    ensures var sorted := StableSort(s, StringLe);
      Distinct(sorted) && Elements(sorted) == Elements(s) && Sorted(sorted, StringLe)
  {
    StringOrder();
    SortSorts(s, StringLe);
    var sorted := StableSort(s, StringLe);
    forall x ensures x in Elements(sorted) <==> x in Elements(s) {
      InSorted(s, StringLe, x);
    }
    assert Elements(sorted) == Elements(s);
    ElementsCount(s);
    FullMeansDistinct(sorted);
  }

  lemma {:induction false} FewerElements(s: seq<string>)
    ensures |Elements(s)| <= |s|
    decreases |s|
  {
    if s == [] {
      assert Elements(s) == {};
    } else {
      FewerElements(s[..|s| - 1]);
      assert s == s[..|s| - 1] + [s[|s| - 1]];
      OneMoreElement(s[..|s| - 1], s[|s| - 1]);
    }
  }

  /** A list with as many elements as places repeats none. */
  lemma {:induction false} FullMeansDistinct(s: seq<string>)
    requires |Elements(s)| == |s|
    ensures Distinct(s)
    decreases |s|
  {
    if s != [] {
      var before, last := s[..|s| - 1], s[|s| - 1];
      assert s == before + [last];
      OneMoreElement(before, last);
      FewerElements(before);
      assert last !in Elements(before);
      FullMeansDistinct(before);
    }
  }

  lemma LastOnesAreKept(before: set<string>, stem: string, keep: nat, sorted: seq<string>, excess: nat)
    requires Distinct(sorted) && Elements(sorted) == Cluster(before, stem) && Sorted(sorted, StringLe)
    requires excess == if |sorted| <= keep then 0 else |sorted| - keep
    ensures Pruned(before, before - Elements(sorted[..excess]), stem, keep)
  {
    var after := before - Elements(sorted[..excess]);
    assert forall i :: 0 <= i < excess ==> sorted[..excess][i] == sorted[i];
    forall name ensures name in Cluster(after, stem) <==> name in Elements(sorted[excess..]) {
      if name in Elements(sorted[excess..]) {
        var i :| 0 <= i < |sorted| - excess && sorted[excess..][i] == name;
        assert name == sorted[excess + i] && name in Elements(sorted);
        assert name !in Elements(sorted[..excess]);
      }
      if name in Cluster(after, stem) {
        assert name in Cluster(before, stem) && name in Elements(sorted);
        var i :| 0 <= i < |sorted| && sorted[i] == name;
        assert i >= excess ==> sorted[excess..][i - excess] == name;
      }
    }
    assert Cluster(after, stem) == Elements(sorted[excess..]);
    ElementsCount(sorted);
    ElementsCount(sorted[excess..]);
    forall kept, gone | kept in Cluster(after, stem) && gone in before - after
      ensures StringLe(gone, kept) && gone != kept
    {
      var i :| 0 <= i < excess && sorted[..excess][i] == gone;
      var k :| 0 <= k < |sorted| - excess && sorted[excess..][k] == kept;
      assert gone == sorted[i] && kept == sorted[excess + k];
    }
    forall name | name in before && !InCluster(name, stem) ensures name in after {
      assert name !in Elements(sorted);
      assert Elements(sorted[..excess]) <= Elements(sorted);
    }
  }

  /** Of a sorted listing, exactly the names before place `i` do not come at or after the one there. */
  lemma BeforePlace(sorted: seq<string>, i: nat, name: string)
    requires Distinct(sorted) && Sorted(sorted, StringLe) && i < |sorted| && name in Elements(sorted)
    ensures name in Elements(sorted[..i]) <==> !StringLe(sorted[i], name)
    ensures name in Elements(sorted[..i]) <==> name !in Elements(sorted[i..])
  {
    var k :| 0 <= k < |sorted| && sorted[k] == name;
    StringTotal(name, name);
    if k < i {
      assert sorted[..i][k] == name;
      if StringLe(sorted[i], name) { StringAntisymmetric(sorted[i], name); }
    } else {
      assert sorted[i..][k - i] == name;
    }
  }

  lemma StopsAt(before: set<string>, stem: string, keep: nat, stuck: set<string>, sorted: seq<string>, i: nat)
    requires Distinct(sorted) && Elements(sorted) == Cluster(before, stem) && Sorted(sorted, StringLe)
    requires i < |sorted| - keep && sorted[i] in stuck && Elements(sorted[..i]) !! stuck
    ensures StoppedAt(before, before - Elements(sorted[..i]), stem, keep, stuck, sorted[i])
  {
    var after := before - Elements(sorted[..i]);
    assert sorted[i] in Elements(sorted);
    assert Elements(sorted[..i]) <= Elements(sorted) by {
      assert forall k :: 0 <= k < i ==> sorted[..i][k] == sorted[k];
    }
    assert Elements(sorted[i..]) <= Elements(sorted) by {
      assert forall k :: 0 <= k < |sorted| - i ==> sorted[i..][k] == sorted[i + k];
    }
    forall name | name in before ensures name in after <==> !InCluster(name, stem) || StringLe(sorted[i], name) {
      if InCluster(name, stem) { BeforePlace(sorted, i, name); }
    }
    forall name ensures name in Cluster(after, stem) <==> name in Elements(sorted[i..]) {
      if name in Elements(sorted) { BeforePlace(sorted, i, name); }
    }
    assert Cluster(after, stem) == Elements(sorted[i..]);
    ElementsCount(sorted[i..]);
  }

  // ----- what it means for backups -----

  /** Snapshots of one stem, taken at different instants, are named in the order of time, whatever the versions. */
  lemma NamesOrderLikeInstants(stem: string, a: string, va: int, b: string, vb: int)
    requires IsInstant(a) && IsInstant(b) && a != b
    ensures StringLe(SnapshotName(stem, Dashed(a), va), SnapshotName(stem, Dashed(b), vb)) <==> Earlier(a, b)
    ensures SnapshotName(stem, Dashed(a), va) != SnapshotName(stem, Dashed(b), vb)
  {
    var restA, restB := "-from-v" + Print(va) + EXTENSION, "-from-v" + Print(vb) + EXTENSION;
    HeadDecides(stem + "-", stem + "-", Dashed(a) + restA, Dashed(b) + restB);
    DashedOrderLikeTime(a, b);
    HeadDecides(Dashed(a), Dashed(b), restA, restB);
    if SnapshotName(stem, Dashed(a), va) == SnapshotName(stem, Dashed(b), vb) {
      SameParts(stem + "-", Dashed(a), Dashed(b), restA, restB);
    }
  }

  lemma SameParts(p: string, a: string, b: string, restA: string, restB: string)
    requires |a| == |b| && p + (a + restA) == p + (b + restB)
    ensures a == b
  {
    assert a + restA == (p + (a + restA))[|p|..] && b + restB == (p + (b + restB))[|p|..];
    assert a == (a + restA)[..|a|] && b == (b + restB)[..|b|];
  }

  lemma SnapshotsAreInTheCluster(stem: string, instant: string, version: int)
    ensures InCluster(SnapshotName(stem, instant, version), stem)
  {
    var name := SnapshotName(stem, instant, version);
    assert name[..|stem + "-"|] == stem + "-";
    var head := stem + "-" + (instant + ("-from-v" + Print(version)));
    assert name == head + EXTENSION;
  }

  /** The greatest name of a cluster survives any pruning that keeps at least one. */
  lemma GreatestSurvives(before: set<string>, after: set<string>, stem: string, keep: nat, name: string)
    requires Pruned(before, after, stem, keep) && keep >= 1 && name in Cluster(before, stem)
    requires forall other :: other in Cluster(before, stem) && other != name ==> !StringLe(name, other)
    ensures name in after
  {
    assert Cluster(before, stem) != {};
    assert |Cluster(after, stem)| >= 1;
    var kept :| kept in Cluster(after, stem);
    assert kept in Cluster(before, stem);
    assert name in before - after ==> StringLe(name, kept) && name != kept;
  }

  /** This file is the snapshot its entry says. */
  predicate IsSnapshot(name: string, stem: string, taken: map<string, (string, int)>) {
    name in taken && IsInstant(taken[name].0) && name == SnapshotName(stem, Dashed(taken[name].0), taken[name].1)
  }

  /** No snapshot that a pruning removes was taken after one that it keeps. */
  lemma PruningKeepsTheLatest(before: set<string>, after: set<string>, stem: string, keep: nat,
                              taken: map<string, (string, int)>, kept: string, gone: string)
    requires Pruned(before, after, stem, keep) && kept in Cluster(after, stem) && gone in before - after
    requires IsSnapshot(kept, stem, taken) && IsSnapshot(gone, stem, taken)
    ensures taken[gone].0 == taken[kept].0 || Earlier(taken[gone].0, taken[kept].0)
  {
    if taken[gone].0 != taken[kept].0 {
      NamesOrderLikeInstants(stem, taken[gone].0, taken[gone].1, taken[kept].0, taken[kept].1);
    }
  }

  /** A snapshot taken after every other of its cluster survives the pruning that follows it. */
  lemma NewSnapshotSurvives(before: set<string>, after: set<string>, stem: string, now: string, version: int,
                            taken: map<string, (string, int)>)
    requires IsInstant(now) && Pruned(before + {SnapshotName(stem, Dashed(now), version)}, after, stem, BACKUP_KEEP)
    requires forall other :: other in Cluster(before, stem) ==>
      IsSnapshot(other, stem, taken) && Earlier(taken[other].0, now)
    ensures SnapshotName(stem, Dashed(now), version) in after
  {
    var name := SnapshotName(stem, Dashed(now), version);
    SnapshotsAreInTheCluster(stem, Dashed(now), version);
    forall other | other in Cluster(before + {name}, stem) && other != name ensures !StringLe(name, other) {
      assert other in Cluster(before, stem);
      InstantsOrderLikeTime(taken[other].0, now);
      NamesOrderLikeInstants(stem, taken[other].0, taken[other].1, now, version);
      if StringLe(name, other) {
        StringAntisymmetric(name, other);
      }
    }
    GreatestSurvives(before + {name}, after, stem, BACKUP_KEEP, name);
  }

  /**
   Two catalogs sharing a directory prune only their own snapshots exactly when
   neither stem with its dash leads the other.
   */
  lemma ClustersOverlapIff(a: string, b: string)
    ensures (exists name :: InCluster(name, a) && InCluster(name, b))
       <==> StartsWith(a + "-", b + "-") || StartsWith(b + "-", a + "-")
  {
    if name :| InCluster(name, a) && InCluster(name, b) {
      if |a| <= |b| {
        assert (b + "-")[..|a + "-"|] == name[..|a + "-"|];
      } else {
        assert (a + "-")[..|b + "-"|] == name[..|b + "-"|];
      }
    }
    if StartsWith(b + "-", a + "-") {
      LeadingStem(a, b);
    } else if StartsWith(a + "-", b + "-") {
      LeadingStem(b, a);
    }
  }

  lemma LeadingStem(a: string, b: string)
    requires StartsWith(b + "-", a + "-")
    ensures InCluster(b + "-" + EXTENSION, a) && InCluster(b + "-" + EXTENSION, b)
  {
    var name := b + "-" + EXTENSION;
    assert name[..|b + "-"|] == b + "-" && name[..|a + "-"|] == (b + "-")[..|a + "-"|];
  }

  /** A stem that extends another after a dash has its snapshots pruned by the other. */
  lemma ExtendedStemsAreNotApart(stem: string, more: string, instant: string, version: int)
    ensures InCluster(SnapshotName(stem + "-" + more, instant, version), stem)
  {
    SnapshotsAreInTheCluster(stem + "-" + more, instant, version);
    var name := SnapshotName(stem + "-" + more, instant, version);
    assert name[..|stem + "-"|] == stem + "-";
  }
}
