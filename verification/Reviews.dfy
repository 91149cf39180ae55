/**
 Review rows under any sequence of the three writes that touch them: the
 verdict write, the pipeline's own pass, and the notes refresh.
 */
module Reviews {
  import opened Prelude
  import opened Tables

  const PENDING := "pending"

  datatype Review = Review(reviewedAt: string, reviewedBy: string, status: string, notes: Option<string>)

  type Rows = map<Address, Review>

  /** `at` is the database clock at the moment of the write. */
  datatype Write =
    | Upsert(addr: Address, who: string, status: string, notes: Option<string>, at: string)
    | Pipeline(addr: Address, who: string, report: string, at: string)
    | Refresh(addr: Address, report: string)

  function Coalesce(a: Option<string>, b: Option<string>): Option<string> { if a.Some? then a else b }

  /** The three statements, clause by clause. */
  function Apply(rows: Rows, w: Write): Rows {
    match w
    case Upsert(a, who, status, notes, at) =>
      rows[a := Review(at, who, status, if a in rows then Coalesce(notes, rows[a].notes) else notes)]
    case Pipeline(a, who, report, at) =>
      if a in rows then
        rows[a := Review(
          if rows[a].status == PENDING then at else rows[a].reviewedAt,
          if rows[a].status == PENDING then who else rows[a].reviewedBy,
          rows[a].status, Some(report))]
      else rows[a := Review(at, who, PENDING, Some(report))]
    case Refresh(a, report) =>
      if a in rows then rows[a := rows[a].(notes := Some(report))] else rows
  }

  function Run(rows: Rows, history: seq<Write>): Rows {
    if history == [] then rows else Apply(Run(rows, history[..|history| - 1]), history[|history| - 1])
  }

  /** The table of `node_reviews`; `history` is every write made to it. */
  class ReviewTable {
    var rows: Rows
    ghost var history: seq<Write>

    ghost predicate Valid()
      reads this
    {
      rows == Run(map[], history)
    }

    constructor ()
      ensures Valid() && history == []
    {
      rows, history := map[], [];
    }

    method UpsertReview(intakeId: int, kind: ItemKind, who: string, status: string, notes: Option<string>, now: string)
      requires Valid()
      modifies this
      ensures Valid() && history == old(history) + [Upsert((intakeId, ScopeText(kind)), who, status, notes, now)]
    {
      var a := (intakeId, ScopeText(kind));
      var kept := notes;
      if a in rows && notes.None? {
        kept := rows[a].notes;
      }
      rows := rows[a := Review(now, who, status, kept)];
      Recorded(Upsert(a, who, status, notes, now));
    }

    method RecordPipelineReview(intakeId: int, kind: ItemKind, who: string, report: string, now: string)
      returns (status: string)
      requires Valid()
      modifies this
      ensures Valid() && history == old(history) + [Pipeline((intakeId, ScopeText(kind)), who, report, now)]
      ensures (intakeId, ScopeText(kind)) in rows && status == rows[(intakeId, ScopeText(kind))].status
    {
      var a := (intakeId, ScopeText(kind));
      var row := Review(now, who, PENDING, Some(report));
      if a in rows {
        row := rows[a].(notes := Some(report));
        if row.status == PENDING {
          row := row.(reviewedAt := now, reviewedBy := who);
        }
      }
      rows := rows[a := row];
      Recorded(Pipeline(a, who, report, now));
      status := row.status;
    }

    /** `updated` says whether there was a row; a missing one is not inserted. */
    method UpdateReviewNotes(intakeId: int, kind: ItemKind, report: string) returns (updated: bool)
      requires Valid()
      modifies this
      ensures Valid() && history == old(history) + [Refresh((intakeId, ScopeText(kind)), report)]
      ensures updated <==> (intakeId, ScopeText(kind)) in old(rows)
      ensures rows.Keys == old(rows).Keys
    {
      var a := (intakeId, ScopeText(kind));
      updated := a in rows;
      if updated {
        rows := rows[a := rows[a].(notes := Some(report))];
      }
      Recorded(Refresh(a, report));
    }

    ghost method Recorded(w: Write)
      requires rows == Apply(Run(map[], history), w)
      modifies this`history
      ensures Valid() && history == old(history) + [w]
    {
      history := history + [w];
      assert history[..|history| - 1] == old(history);
    }
  }

  // ----- what a history means, without replaying it -----

  predicate Opens(w: Write, a: Address) { w.addr == a && !w.Refresh? }

  predicate Annotates(w: Write, a: Address) { w.addr == a && (w.Upsert? ==> w.notes.Some?) }

  function NoteOf(w: Write): Option<string> {
    match w
    case Upsert(_, _, _, notes, _) => notes
    case Pipeline(_, _, report, _) => Some(report)
    case Refresh(_, report) => Some(report)
  }

  /** The last verdict write at the address. */
  function LastUpsert(h: seq<Write>, a: Address): (k: int)
    ensures -1 <= k < |h| && (k >= 0 ==> h[k].Upsert? && h[k].addr == a)
    ensures forall j :: k < j < |h| ==> !(h[j].Upsert? && h[j].addr == a)
  {
    if h == [] then -1
    else if h[|h| - 1].Upsert? && h[|h| - 1].addr == a then |h| - 1
    else LastUpsert(h[..|h| - 1], a)
  }

  /** The last write that could have opened the row. */
  function LastOpen(h: seq<Write>, a: Address): (k: int)
    ensures -1 <= k < |h| && (k >= 0 ==> Opens(h[k], a))
    ensures forall j :: k < j < |h| ==> !Opens(h[j], a)
  {
    if h == [] then -1 else if Opens(h[|h| - 1], a) then |h| - 1 else LastOpen(h[..|h| - 1], a)
  }

  /** A write that carries a note and found, or opened, a row. */
  predicate Noted(h: seq<Write>, j: nat, a: Address)
    requires j < |h|
  {
    Annotates(h[j], a) && LastOpen(h[..j + 1], a) >= 0
  }

  lemma NotedInPrefix(h: seq<Write>, n: nat, j: nat, a: Address)
    requires j < n <= |h|
    ensures Noted(h[..n], j, a) <==> Noted(h, j, a)
  {
    assert h[..n][..j + 1] == h[..j + 1];
  }

  function LastNote(h: seq<Write>, a: Address): (k: int)
    ensures -1 <= k < |h| && (k >= 0 ==> Noted(h, k, a))
    ensures forall j :: k < j < |h| ==> !Noted(h, j, a)
  {
    if h == [] then -1
    else if Noted(h, |h| - 1, a) then |h| - 1
    else
      assert forall j :: 0 <= j < |h| - 1 ==> (Noted(h[..|h| - 1], j, a) <==> Noted(h, j, a)) by {
        forall j | 0 <= j < |h| - 1 ensures Noted(h[..|h| - 1], j, a) <==> Noted(h, j, a) {
          NotedInPrefix(h, |h| - 1, j, a);
        }
      }
      LastNote(h[..|h| - 1], a)
  }

  /**
   The row as the history determines it: open once any write has opened it;
   the verdict, its reviewer and its time are those of the last verdict write
   if that decided something, and otherwise the row is pending and names
   whoever opened or re-stamped it last; the note is the last one written.
   */
  function Expected(h: seq<Write>, a: Address): Option<Review> {
    var open, verdict, note := LastOpen(h, a), LastUpsert(h, a), LastNote(h, a);
    if open < 0 then None
    else
      var notes := if note >= 0 then NoteOf(h[note]) else None;
      if verdict >= 0 && h[verdict].status != PENDING
      then Some(Review(h[verdict].at, h[verdict].who, h[verdict].status, notes))
      else Some(Review(h[open].at, h[open].who, PENDING, notes))
  }

  function RowAt(rows: Rows, a: Address): Option<Review> {
    if a in rows then Some(rows[a]) else None
  }

  lemma {:induction false} HistoryDecides(h: seq<Write>, a: Address)
    ensures RowAt(Run(map[], h), a) == Expected(h, a)
    decreases |h|
  {
    if h != [] {
      var before, w := h[..|h| - 1], h[|h| - 1];
      HistoryDecides(before, a);
      OneMoreWrite(Run(map[], before), h, a);
    }
  }

  lemma OneMoreWrite(rows: Rows, h: seq<Write>, a: Address)
    requires h != [] && RowAt(rows, a) == Expected(h[..|h| - 1], a)
    ensures RowAt(Apply(rows, h[|h| - 1]), a) == Expected(h, a)
  {
    LastOpenMoves(h, a);
    LastUpsertMoves(h, a);
    LastNoteMoves(h, a);
  }

  /** How one more write moves each of the three indices. */
  lemma LastOpenMoves(h: seq<Write>, a: Address)
    requires h != []
    ensures LastOpen(h, a) == (if Opens(h[|h| - 1], a) then |h| - 1 else LastOpen(h[..|h| - 1], a))
  {
  }

  lemma LastUpsertMoves(h: seq<Write>, a: Address)
    requires h != []
    ensures var before, w := h[..|h| - 1], h[|h| - 1];
      && LastUpsert(h, a) == (if w.Upsert? && w.addr == a then |h| - 1 else LastUpsert(before, a))
      && LastUpsert(before, a) <= LastOpen(before, a)
  {
    var before := h[..|h| - 1];
    if LastUpsert(before, a) >= 0 { assert Opens(before[LastUpsert(before, a)], a); }
  }

  lemma LastNoteMoves(h: seq<Write>, a: Address)
    requires h != []
    ensures var before, w := h[..|h| - 1], h[|h| - 1];
      && LastNote(h, a) == (if Annotates(w, a) && LastOpen(h, a) >= 0 then |h| - 1 else LastNote(before, a))
      && (LastOpen(before, a) < 0 ==> LastNote(before, a) < 0)
  {
    var before := h[..|h| - 1];
    assert h[..|h| - 1 + 1] == h;
    if LastNote(before, a) >= 0 {
      NotedMeansOpen(before, LastNote(before, a), a);
    }
  }

  lemma NotedMeansOpen(h: seq<Write>, k: nat, a: Address)
    requires k < |h| && Noted(h, k, a)
    ensures LastOpen(h, a) >= 0
  {
    var j := LastOpen(h[..k + 1], a);
    assert h[..k + 1][j] == h[j];
    assert Opens(h[j], a);
  }

  // ----- what follows for verdicts and notes -----

  /**
   Once a verdict is written, no pipeline pass and no notes refresh changes the
   status, the reviewer or the time, until the next verdict write.
   */
  lemma VerdictStandsUntilTheNext(h: seq<Write>, k: nat, a: Address)
    requires k < |h| && h[k].Upsert? && h[k].addr == a && h[k].status != PENDING
    requires forall j :: k < j < |h| ==> !(h[j].Upsert? && h[j].addr == a)
    ensures a in Run(map[], h)
    ensures var r := Run(map[], h)[a]; (r.status, r.reviewedBy, r.reviewedAt) == (h[k].status, h[k].who, h[k].at)
  {
    HistoryDecides(h, a);
    assert LastUpsert(h, a) == k && Opens(h[k], a);
  }

  /** Only a verdict write moves a status away from pending. */
  lemma OnlyVerdictWritesDecide(h: seq<Write>, a: Address)
    requires a in Run(map[], h) && Run(map[], h)[a].status != PENDING
    ensures exists k :: 0 <= k < |h| && h[k].Upsert? && h[k].addr == a && h[k].status == Run(map[], h)[a].status
  {
    HistoryDecides(h, a);
    assert h[LastUpsert(h, a)].Upsert?;
  }

  /** A verdict write without a note keeps the note; with one, it replaces it. */
  lemma VerdictKeepsTheNote(h: seq<Write>, w: Write)
    requires w.Upsert? && w.addr in Run(map[], h)
    ensures w.addr in Run(map[], h + [w])
    ensures Run(map[], h + [w])[w.addr].notes == Coalesce(w.notes, Run(map[], h)[w.addr].notes)
  {
    assert (h + [w])[..|h|] == h;
  }

  /** Writes at other addresses do not matter. */
  function At(h: seq<Write>, a: Address): seq<Write> {
    if h == [] then []
    else At(h[..|h| - 1], a) + if h[|h| - 1].addr == a then [h[|h| - 1]] else []
  }

  lemma {:induction false} AddressesAreIndependent(h: seq<Write>, a: Address)
    ensures RowAt(Run(map[], h), a) == RowAt(Run(map[], At(h, a)), a)
    decreases |h|
  {
    if h != [] {
      var before, w := h[..|h| - 1], h[|h| - 1];
      AddressesAreIndependent(before, a);
      if w.addr == a {
        assert (At(before, a) + [w])[..|At(before, a)|] == At(before, a);
      } else {
        assert At(before, a) + [] == At(before, a);
      }
    }
  }
}
