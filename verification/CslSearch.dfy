/**
 A stored CSL item seen through the catalog: which names find it, and that its
 fields are the effective values of its node.
 */
module CslSearch {
  import opened Prelude
  import opened Tables
  import opened Text
  import opened Decimal
  import opened IntakeFilter
  import opened Intake
  import opened Csl
  import opened CslRoundTrip

  // ----- the name a contributor is stored under -----

  /**
   A name of two parts opens with the given one, ends with the family one and has
   one space between; any other is its one part.
   */
  predicate Shown(n: CslName, w: string) {
    match (n.given, n.family)
    case (Some(g), Some(f)) =>
      |w| == |g| + 1 + |f| && w[..|g|] == g && w[|g|] == ' ' && w[|g| + 1..] == f
    case (None, Some(f)) => w == f
    case (Some(g), None) => w == g
    case (None, None) => if n.literal.Some? then w == n.literal.value else w == ""
  }

  /** Every name is stored under the one name it shows. */
  lemma StoredAsShown(intakeId: int, scope: string, role: string, ordinal: int, n: CslName, w: string)
    ensures Shown(n, w) <==> RowFor(intakeId, scope, role, ordinal, n).name == w
  {
    var name := RowFor(intakeId, scope, role, ordinal, n).name;
    if n.given.Some? && n.family.Some? {
      var g, f := n.given.value, n.family.value;
      assert name[..|g|] == g && name[|g| + 1..] == f;
      if Shown(n, w) {
        assert w == w[..|g|] + [w[|g|]] + w[|g| + 1..];
        assert name == name[..|g|] + [name[|g|]] + name[|g| + 1..];
      }
    }
  }

  // ----- searching for it -----

  /** Any layer, one contributor, nothing else. */
  function ByContributor(kind: ItemKind, layer: MatchLayer, name: string, role: Option<string>): Filter {
    Filter(kind, layer, None, Some(name), role, [], None, [], [], None, None, None, [], [])
  }

  /** The contributors of the node are the item's, and no others. */
  ghost predicate HoldsContributors<O>(db: Db, item: CslItem<O>, intakeId: int, scope: string) {
    && (forall c :: c in db.contributors && c.intakeId == intakeId && c.scope == scope ==>
          Fresh(c) in SplitContributors(item, intakeId, scope))
    && (forall n :: n in SplitContributors(item, intakeId, scope) ==>
          exists c :: c in db.contributors && Fresh(c) == n)
  }

  predicate IsRowOf<O>(row: NewContributor, item: CslItem<O>, k: nat) {
    && k < |NamesIn(item, row.role)|
    && row == RowFor(row.intakeId, row.scope, row.role, k, NamesIn(item, row.role)[k])
  }

  /** A row of an item comes from one of its names. */
  lemma RowsAreNames<O>(item: CslItem<O>, intakeId: int, scope: string, row: NewContributor) returns (k: nat)
    requires row in SplitContributors(item, intakeId, scope)
    ensures row.intakeId == intakeId && row.scope == scope && IsRowOf(row, item, k)
  {
    RolesDiffer();
    var a, e, t := RoleRows(intakeId, scope, "author", item.author), RoleRows(intakeId, scope, "editor", item.editor),
      RoleRows(intakeId, scope, "translator", item.translator);
    if row in a {
      k :| 0 <= k < |a| && a[k] == row;
    } else if row in e {
      k :| 0 <= k < |e| && e[k] == row;
    } else {
      k :| 0 <= k < |t| && t[k] == row;
    }
  }

  lemma NamesAreRows<O>(item: CslItem<O>, intakeId: int, scope: string, role: string, k: nat)
    requires k < |NamesIn(item, role)|
    ensures RowFor(intakeId, scope, role, k, NamesIn(item, role)[k]) in SplitContributors(item, intakeId, scope)
  {
    RolesDiffer();
    var rows := RoleRows(intakeId, scope, role, NamesIn(item, role));
    assert rows[k] in rows;
  }

  /** The item has a name of this role that shows so. */
  ghost predicate Credited<O>(item: CslItem<O>, role: string, w: string) {
    exists k: nat :: k < |NamesIn(item, role)| && Shown(NamesIn(item, role)[k], w)
  }

  /**
   Searching the catalog for a contributor finds a stored item exactly when the
   item has a name of that role that shows as the text searched for.
   */
  lemma SearchFindsTheCredited<O>(db: Db, item: CslItem<O>, r: IntakeRow, kind: ItemKind, layer: MatchLayer,
                                  w: string, role: string)
    requires Keyed(db) && r in db.intakes && HoldsContributors(db, item, r.intakeId, ScopeText(kind))
    ensures r in Found(db, ByContributor(kind, layer, w, Some(role))) <==> Credited(item, role, w)
  {
    var f, scope := ByContributor(kind, layer, w, Some(role)), ScopeText(kind);
    FoundIsExactlyTheSelected(db, f);
    if k: nat :| k < |NamesIn(item, role)| && Shown(NamesIn(item, role)[k], w) {
      var row := RowFor(r.intakeId, scope, role, k, NamesIn(item, role)[k]);
      NamesAreRows(item, r.intakeId, scope, role, k);
      StoredAsShown(r.intakeId, scope, role, k, NamesIn(item, role)[k], w);
      var c :| c in db.contributors && Fresh(c) == row;
      assert Credits(f, c) && c.intakeId == r.intakeId && c.scope == scope;
    }
    if c :| c in db.contributors && c.intakeId == r.intakeId && c.scope == scope && Credits(f, c) {
      var k := RowsAreNames(item, r.intakeId, scope, Fresh(c));
      StoredAsShown(r.intakeId, scope, role, k, NamesIn(item, role)[k], w);
    }
  }

  // ----- its fields -----

  /** The node has this row, and no override stands on it. */
  ghost predicate HoldsRow(db: Db, row: PublicationAttrs) {
    row in db.attrs && forall o :: o in db.overrides ==> (o.intakeId, o.scope) != (row.intakeId, row.scope)
  }

  lemma ColumnsAreEffective(db: Db, row: PublicationAttrs, f: Field)
    requires Keyed(db) && HoldsRow(db, row)
    ensures EffectiveValue(db, row.intakeId, row.scope, f) == BaseColumn(row, f)
  {
    var i :| 0 <= i < |db.attrs| && db.attrs[i] == row;
    LookupIsTheRow(db.attrs, AttrsKey, i);
    assert Lookup(db.overrides, OverrideKey, (row.intakeId, row.scope, f)) == None;
  }

  /** The first number of an item's date, if it has one. */
  function YearOf(issued: Option<CslDate>): Option<i32> {
    if issued.Some? && issued.value.dateParts.Some? && issued.value.dateParts.value != []
       && issued.value.dateParts.value[0] != []
    then Some(issued.value.dateParts.value[0][0]) else None
  }

  /** The fields of an item, by the names its node has them under. */
  function FieldOf<O>(item: CslItem<O>, f: Field): Option<string> {
    match f
    case Title => item.title
    case Subtitle => item.subtitle
    case ContainerTitle => item.containerTitle
    case Publisher => item.publisher
    case PubPlace => item.publisherPlace
    case Edition => item.edition
    case Language => item.language
    case Isbn => item.isbn
    case Issn => item.issn
    case Doi => item.doi
    case AbstractText => item.abstractText
    case CslType => item.itemType
    case _ => None
  }

  /** The effective values of a stored item's node are the item's own fields, each under its name. */
  lemma FieldsAreEffective<O>(db: Db, codec: Codec<O>, item: CslItem<O>, id: int, scope: string, f: Field)
    requires Keyed(db) && HoldsRow(db, SplitAttrs(codec, item, id, scope))
    ensures f == Year && YearOf(item.issued).Some? ==>
      EffectiveValue(db, id, scope, f) == Some(Print(YearOf(item.issued).value))
    ensures f !in {Year, PublicationDate, ArxivId} ==> EffectiveValue(db, id, scope, f) == FieldOf(item, f)
  {
    ColumnsAreEffective(db, SplitAttrs(codec, item, id, scope), f);
  }
}
