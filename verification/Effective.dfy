/**
 Effective metadata: the base layer with the curator's overrides applied, and
 the fields a volume inherits from its set.
 */
module Effective {
  import opened Prelude
  import opened Tables
  import opened Sorting

  /** The fields are exactly the effective values of one node. */
  ghost predicate IsEffective(fields: Fields, db: Db, id: int, scope: string) {
    forall f :: Get(fields, f) == EffectiveValue(db, id, scope, f)
  }

  // ----- the base layer -----

  const BASE_FIELDS: seq<Field> := [
    Title, Subtitle, Publisher, Year, PublicationDate, Isbn, Series, SeriesNumber, Edition, Language,
    PubPlace, OriginalTitle, OriginalLanguage, OriginalYear, SourceFormat, Source, Confidence,
    AuditVerdict, EnrichedBy, Doi, ArxivId, Issn, ContainerTitle, AbstractText, CslType]

  function SetPairs(a: PublicationAttrs, fs: seq<Field>): (pairs: seq<(Field, string)>)
    ensures forall p :: p in pairs <==> p.0 in fs && BaseColumn(a, p.0) == Some(p.1)
  {
    if fs == [] then []
    else (match BaseColumn(a, fs[0]) case Some(v) => [(fs[0], v)] case None => []) + SetPairs(a, fs[1..])
  }

  /** The set columns of a row, in declaration order. */
  function BasePairs(a: PublicationAttrs): seq<(Field, string)> {
    SetPairs(a, BASE_FIELDS)
  }

  lemma EveryColumnIsListed(f: Field)
    ensures f in BASE_FIELDS || f.Other?
  {
    var i := match f
      case Title => 0 case Subtitle => 1 case Publisher => 2 case Year => 3 case PublicationDate => 4
      case Isbn => 5 case Series => 6 case SeriesNumber => 7 case Edition => 8 case Language => 9
      case PubPlace => 10 case OriginalTitle => 11 case OriginalLanguage => 12 case OriginalYear => 13
      case SourceFormat => 14 case Source => 15 case Confidence => 16 case AuditVerdict => 17
      case EnrichedBy => 18 case Doi => 19 case ArxivId => 20 case Issn => 21 case ContainerTitle => 22
      case AbstractText => 23 case CslType => 24 case Other(_) => 0;
    assert f.Other? || BASE_FIELDS[i] == f;
  }

  /** The loop over the set columns: each is inserted under its field name. */
  method InsertPairs(pairs: seq<(Field, string)>) returns (fields: Fields)
    ensures forall f :: f in fields ==> (f, fields[f]) in pairs
    ensures forall p :: p in pairs ==> p.0 in fields
  {
    fields := map[];
    for i := 0 to |pairs|
      invariant forall f :: f in fields ==> (f, fields[f]) in pairs
      invariant forall j :: 0 <= j < i ==> pairs[j].0 in fields
    {
      assert pairs[i] == (pairs[i].0, pairs[i].1);
      fields := fields[pairs[i].0 := pairs[i].1];
    }
  }

  method BaseFields(a: PublicationAttrs) returns (fields: Fields)
    ensures forall f :: Get(fields, f) == BaseColumn(a, f)
  {
    fields := InsertPairs(BasePairs(a));
    forall f ensures Get(fields, f) == BaseColumn(a, f) {
      PairsAreTheColumns(a, f);
      if f in fields {
        assert (f, fields[f]) in BasePairs(a);
      }
    }
  }

  lemma PairsAreTheColumns(a: PublicationAttrs, f: Field)
    ensures forall v :: (f, v) in BasePairs(a) <==> BaseColumn(a, f) == Some(v)
    ensures BaseColumn(a, f).Some? ==> (f, BaseColumn(a, f).value) in BasePairs(a)
  {
    EveryColumnIsListed(f);
    PairsOfListed(a, BASE_FIELDS, f);
  }

  lemma PairsOfListed(a: PublicationAttrs, fs: seq<Field>, f: Field)
    requires f in fs || BaseColumn(a, f) == None
    ensures forall v :: (f, v) in SetPairs(a, fs) <==> BaseColumn(a, f) == Some(v)
  {
    forall v ensures (f, v) in SetPairs(a, fs) <==> BaseColumn(a, f) == Some(v) {
      assert (f, v).0 == f && (f, v).1 == v;
    }
  }

  // ----- overrides -----

  /** Every override of one address. */
  function OverridesFor(rows: seq<NodeOverride>, id: int, scope: string): (out: seq<NodeOverride>)
    ensures forall o :: o in out <==> o in rows && o.intakeId == id && o.scope == scope
  {
    if rows == [] then [] else
    var rest := OverridesFor(rows[1..], id, scope);
    if rows[0].intakeId == id && rows[0].scope == scope then [rows[0]] + rest else rest
  }

  function FieldName(f: Field): string {
    match f
    case Title => "title" case Subtitle => "subtitle" case Publisher => "publisher" case Year => "year"
    case PublicationDate => "publication_date" case Isbn => "isbn" case Series => "series"
    case SeriesNumber => "series_number" case Edition => "edition" case Language => "language"
    case PubPlace => "pub_place" case OriginalTitle => "original_title"
    case OriginalLanguage => "original_language" case OriginalYear => "original_year"
    case SourceFormat => "source_format" case Source => "source" case Confidence => "confidence"
    case AuditVerdict => "audit_verdict" case EnrichedBy => "enriched_by" case Doi => "doi"
    case ArxivId => "arxiv_id" case Issn => "issn" case ContainerTitle => "container_title"
    case AbstractText => "abstract_text" case CslType => "csl_type" case Other(name) => name
  }

  /** `ORDER BY intake_id, field`. */
  predicate ByIntakeAndField(a: NodeOverride, b: NodeOverride) {
    if a.intakeId == b.intakeId then StringLe(FieldName(a.field), FieldName(b.field)) else a.intakeId < b.intakeId
  }

  lemma ByIntakeAndFieldOrders()
    ensures TotalPreorder(ByIntakeAndField)
  {
    StringOrder();
  }

  lemma {:induction false} OverridesStaySorted(rows: seq<NodeOverride>, id: int, scope: string)
    requires Sorted(rows, ByIntakeAndField)
    ensures Sorted(OverridesFor(rows, id, scope), ByIntakeAndField)
  {
    if rows != [] {
      OverridesStaySorted(rows[1..], id, scope);
      FirstIsLeast(rows, ByIntakeAndField);
      LeastInFront(rows[0], OverridesFor(rows[1..], id, scope), ByIntakeAndField);
    }
  }

  lemma {:induction false} OverridesCounted(rows: seq<NodeOverride>, id: int, scope: string, o: NodeOverride)
    ensures multiset(OverridesFor(rows, id, scope))[o]
         == (if o.intakeId == id && o.scope == scope then multiset(rows)[o] else 0)
  {
    if rows != [] {
      OverridesCounted(rows[1..], id, scope, o);
      assert rows == [rows[0]] + rows[1..];
    }
  }

  /** A field's value once some overrides have been applied on top of a base. */
  function Overridden(base: Fields, overs: seq<NodeOverride>, f: Field): Option<string> {
    if overs == [] then Get(base, f)
    else if overs[|overs| - 1].field == f then overs[|overs| - 1].value
    else Overridden(base, overs[..|overs| - 1], f)
  }

  method ApplyOverrides(base: Fields, overs: seq<NodeOverride>) returns (fields: Fields)
    ensures forall f :: Get(fields, f) == Overridden(base, overs, f)
  {
    fields := base;
    for i := 0 to |overs|
      invariant forall f :: Get(fields, f) == Overridden(base, overs[..i], f)
    {
      assert overs[..i + 1][..i] == overs[..i];
      match overs[i].value
      case Some(v) =>
        fields := fields[overs[i].field := v];
      case None =>
        fields := fields - {overs[i].field};
    }
    assert overs[..|overs|] == overs;
  }

  lemma {:induction false} OverriddenByTheRow(base: Fields, overs: seq<NodeOverride>, f: Field)
    ensures (exists o :: o in overs && o.field == f && Overridden(base, overs, f) == o.value)
         || ((forall o :: o in overs ==> o.field != f) && Overridden(base, overs, f) == Get(base, f))
  {
    if overs != [] {
      OverriddenByTheRow(base, overs[..|overs| - 1], f);
    }
  }

  /** Merging the overrides of an address over its base, in any order, gives the effective values. */
  lemma MergeIsEffective(db: Db, id: int, scope: string, base: Fields, overs: seq<NodeOverride>, f: Field)
    requires Keyed(db) && Get(base, f) == BaseValue(db, id, scope, f)
    requires forall o :: o in overs <==> o in OverridesFor(db.overrides, id, scope)
    ensures Overridden(base, overs, f) == EffectiveValue(db, id, scope, f)
  {
    OverriddenByTheRow(base, overs, f);
    if o :| o in overs && o.field == f && Overridden(base, overs, f) == o.value {
      var i :| 0 <= i < |db.overrides| && db.overrides[i] == o;
      LookupIsTheRow(db.overrides, OverrideKey, i);
    }
  }

  // ----- what set and clear do to the effective values -----

  function ClearRow(rows: seq<NodeOverride>, k: (int, string, Field)): seq<NodeOverride> {
    if rows == [] then []
    else if OverrideKey(rows[0]) == k then rows[1..]
    else [rows[0]] + ClearRow(rows[1..], k)
  }

  lemma {:induction false} ClearRowLooksUp(rows: seq<NodeOverride>, k: (int, string, Field), q: (int, string, Field))
    requires Unique(rows, OverrideKey)
    ensures Lookup(ClearRow(rows, k), OverrideKey, q) == if q == k then None else Lookup(rows, OverrideKey, q)
    ensures Unique(ClearRow(rows, k), OverrideKey)
    ensures forall x :: x in ClearRow(rows, k) ==> x in rows
  {
    if rows != [] {
      assert Unique(rows[1..], OverrideKey);
      if OverrideKey(rows[0]) == k {
      } else {
        ClearRowLooksUp(rows[1..], k, q);
        var rest := ClearRow(rows[1..], k);
        assert ClearRow(rows, k)[1..] == rest;
        forall j | 0 <= j < |rest| ensures OverrideKey(rest[j]) != OverrideKey(rows[0]) {
          assert rest[j] in rest;
          var i :| 0 <= i < |rows[1..]| && rows[1..][i] == rest[j];
          assert OverrideKey(rows[0]) != OverrideKey(rows[i + 1]);
        }
      }
    }
  }

  // ----- the batch form -----

  /**
   What the batch computes for an id of its input. The loop takes the overrides
   of an id out of the map the first time it meets the id, so a repeated id is
   overwritten with its base values.
   */
  function BatchValue(db: Db, ids: seq<int>, id: int, scope: string, f: Field): Option<string> {
    if multiset(ids)[id] <= 1 then EffectiveValue(db, id, scope, f) else BaseValue(db, id, scope, f)
  }

  /** Some id is named more than once and has an override that differs from its base. */
  ghost predicate LosesAnOverride(db: Db, ids: seq<int>, scope: string) {
    exists o :: o in db.overrides && o.scope == scope && multiset(ids)[o.intakeId] > 1
      && o.value != BaseValue(db, o.intakeId, scope, o.field)
  }

  /** The batch agrees with the single form exactly when it loses no override. */
  lemma BatchEqualsSingle(db: Db, ids: seq<int>, scope: string)
    requires Keyed(db)
    ensures (forall id, f :: id in ids ==> BatchValue(db, ids, id, scope, f) == EffectiveValue(db, id, scope, f))
       <==> !LosesAnOverride(db, ids, scope)
  {
    if o :| o in db.overrides && o.scope == scope && multiset(ids)[o.intakeId] > 1
            && o.value != BaseValue(db, o.intakeId, scope, o.field) {
      var i :| 0 <= i < |db.overrides| && db.overrides[i] == o;
      LookupIsTheRow(db.overrides, OverrideKey, i);
      assert o.intakeId in multiset(ids);
      assert BatchValue(db, ids, o.intakeId, scope, o.field) != EffectiveValue(db, o.intakeId, scope, o.field);
    }
  }

  /** Naming one id twice loses its override. */
  lemma RepeatedIdLosesItsOverride()
    ensures var o := NodeOverride(1, "book", Title, Some("T"), false, "", "c", None);
      var db := Db([], [], [o], [], [], []);
      Keyed(db) && BatchValue(db, [1, 1], 1, "book", Title) != EffectiveValue(db, 1, "book", Title)
  {
    var o := NodeOverride(1, "book", Title, Some("T"), false, "", "c", None);
    assert Lookup([o], OverrideKey, (1, "book", Title)) == Some(o);
    assert multiset([1, 1])[1] == 2;
  }

  // ----- inheritance -----

  datatype EffectiveAttrs = EffectiveAttrs(intakeId: int, scope: string, fields: Fields)

  const INHERITABLE_FIELDS: seq<Field> := [Publisher, Series]

  function Inherited(own: Fields, parent: Fields): Fields {
    own + (map f | f in parent && f in INHERITABLE_FIELDS && f !in own :: parent[f])
  }

  method InheritFrom(self: EffectiveAttrs, parent: EffectiveAttrs) returns (merged: EffectiveAttrs)
    ensures merged == self.(fields := Inherited(self.fields, parent.fields))
  {
    var fields := self.fields;
    for i := 0 to |INHERITABLE_FIELDS|
      invariant forall f ::
        Get(fields, f)
        == if f !in self.fields && f in INHERITABLE_FIELDS[..i] then Get(parent.fields, f) else Get(self.fields, f)
    {
      var f := INHERITABLE_FIELDS[i];
      if f !in fields && f in parent.fields {
        fields := fields[f := parent.fields[f]];
      }
    }
    assert INHERITABLE_FIELDS[..|INHERITABLE_FIELDS|] == INHERITABLE_FIELDS;
    forall f ensures Get(fields, f) == Get(Inherited(self.fields, parent.fields), f) {
    }
    SameFields(fields, Inherited(self.fields, parent.fields));
    merged := self.(fields := fields);
  }

  lemma SameFields(a: Fields, b: Fields)
    requires forall f :: Get(a, f) == Get(b, f)
    ensures a == b
  {
    forall f ensures f in a <==> f in b {
      assert Get(a, f) == Get(b, f);
    }
    forall f | f in a ensures a[f] == b[f] {
      assert Get(a, f) == Get(b, f);
    }
  }

  /** Walking a chain from the root down, each node inheriting from its already-merged parent. */
  function WalkDown(chain: seq<Fields>): Fields
    requires chain != []
  {
    var leaf := chain[|chain| - 1];
    if |chain| == 1 then leaf else Inherited(leaf, WalkDown(chain[..|chain| - 1]))
  }

  /** The value at the nearest node, looking from the leaf up. */
  function Nearest(chain: seq<Fields>, f: Field): Option<string> {
    if chain == [] then None
    else if f in chain[|chain| - 1] then Some(chain[|chain| - 1][f])
    else Nearest(chain[..|chain| - 1], f)
  }

  lemma {:induction false} WalkGivesNearest(chain: seq<Fields>, f: Field)
    requires chain != []
    ensures Get(WalkDown(chain), f)
         == if f in INHERITABLE_FIELDS then Nearest(chain, f) else Get(chain[|chain| - 1], f)
  {
    if |chain| == 1 {
      assert Nearest(chain[..0], f) == None;
    } else {
      WalkGivesNearest(chain[..|chain| - 1], f);
    }
  }

  lemma GetInherited(own: Fields, parent: Fields, f: Field)
    ensures Get(Inherited(own, parent), f)
         == if f !in own && f in INHERITABLE_FIELDS then Get(parent, f) else Get(own, f)
  {
  }

  /** Inheriting is associative, so a chain may be merged from either end. */
  lemma InheritingAssociates(a: Fields, b: Fields, c: Fields)
    ensures Inherited(Inherited(a, b), c) == Inherited(a, Inherited(b, c))
  {
    forall f ensures Get(Inherited(Inherited(a, b), c), f) == Get(Inherited(a, Inherited(b, c)), f) {
      GetInherited(a, b, f);
      GetInherited(b, c, f);
      GetInherited(Inherited(a, b), c, f);
      GetInherited(a, Inherited(b, c), f);
    }
    SameFields(Inherited(Inherited(a, b), c), Inherited(a, Inherited(b, c)));
  }

  /** Inheriting twice from the same parent adds nothing. */
  lemma InheritingIsIdempotent(a: Fields, b: Fields)
    ensures Inherited(Inherited(a, b), b) == Inherited(a, b) && Inherited(a, a) == a
  {
    forall f ensures Get(Inherited(b, b), f) == Get(b, f) {
      GetInherited(b, b, f);
    }
    SameFields(Inherited(b, b), b);
    InheritingAssociates(a, b, b);
    forall f ensures Get(Inherited(a, a), f) == Get(a, f) {
      GetInherited(a, a, f);
    }
    SameFields(Inherited(a, a), a);
  }
}
