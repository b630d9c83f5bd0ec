/** Models and fields of a schema snapshot, and the names under which a model offers its fields. */
module Schema {
  import opened Prelude
  import opened Ordering

  const MAX_LOOKUP_DEPTH := 2
  const MAX_LOOKUP_PATHS := 512

  datatype LookupPath = LookupPath(transforms: seq<string>, kinds: seq<string>, lookups: seq<string>)

  /** `metadataValid` stands for the checks on type names and source positions. */
  datatype Field = Field(
    name: string,
    isRelation: bool,
    relatedModel: Option<string>,
    direction: Option<string>,
    cardinality: Option<string>,
    attname: Option<string>,
    accessorName: Option<string>,
    queryName: Option<string>,
    effectivePrimaryKey: bool,
    sourceModel: string,
    sourceModelAbstract: bool,
    unsupportedLookups: seq<string>,
    lookupPaths: seq<LookupPath>,
    lookupPathsTruncated: bool,
    metadataValid: bool)

  datatype Parent = Parent(canonicalLabel: string, isAbstract: bool)

  /**
   `sourcePaths` are the cleaned and the resolved path of the defining file; managers and methods
   are in `metadataValid`.
   */
  datatype Model = Model(
    canonicalLabel: string,
    moduleName: string,
    qualname: string,
    sourcePaths: seq<string>,
    fields: map<string, Field>,
    parents: seq<Parent>,
    metadataValid: bool)

  datatype AccessKind = Declared | Attname | Reverse

  datatype Access = Access(name: string, kind: AccessKind, field: Field)

  datatype RelationContext = ForQuery | ForSelectRelated | ForPrefetchRelated

  datatype PerContext<T> = PerContext(query: T, selectRelated: T, prefetchRelated: T) {
    function At(context: RelationContext): T {
      match context
      case ForQuery => query
      case ForSelectRelated => selectRelated
      case ForPrefetchRelated => prefetchRelated
    }
  }

  function Rank(kind: AccessKind): nat {
    match kind case Declared => 0 case Attname => 1 case Reverse => 2
  }

  predicate AccessLess(left: Access, right: Access) {
    if left.kind != right.kind then Rank(left.kind) < Rank(right.kind) else Less(left.name, right.name)
  }

  predicate ValidLookupPath(path: LookupPath) {
    && |path.transforms| == |path.kinds| <= MAX_LOOKUP_DEPTH
    && forall i :: 0 <= i < |path.kinds| ==> path.kinds[i] == "transform" || path.kinds[i] == "key_transform"
  }

  predicate ValidField(key: string, f: Field) {
    && key != "" && f.name == key && f.sourceModel != "" && f.metadataValid
    && |f.lookupPaths| <= MAX_LOOKUP_PATHS
    && (forall i :: 0 <= i < |f.lookupPaths| ==> ValidLookupPath(f.lookupPaths[i]))
    && if f.isRelation then
         && f.direction in {Some("forward"), Some("reverse")}
         && f.cardinality in {None, Some("many-to-one"), Some("one-to-many"), Some("one-to-one"), Some("many-to-many")}
       else f.relatedModel.None? && f.direction.None? && f.cardinality.None?
  }

  predicate ValidModel(appKey: string, modelName: string, m: Model) {
    && modelName != "" && m.canonicalLabel == appKey + "." + modelName
    && m.moduleName != "" && m.qualname != "" && m.metadataValid
    && ValidFields(m)
    && forall i :: 0 <= i < |m.parents| ==> m.parents[i].canonicalLabel != ""
  }

  predicate ValidFields(m: Model) {
    forall key :: key in m.fields ==> ValidField(key, m.fields[key])
  }

  // ---------------------------------------------------------------------------------------------
  // Names a field is offered under
  // ---------------------------------------------------------------------------------------------

  predicate IsReverse(f: Field) {
    f.direction == Some("reverse")
  }

  function NonEmptyOr(value: Option<string>, default: string): string {
    if value.Some? && value.value != "" then value.value else default
  }

  function AttnameOffer(f: Field): seq<Access> {
    if NonEmptyOr(f.attname, f.name) == f.name then [] else [Access(f.attname.value, Attname, f)]
  }

  function ForwardOffers(f: Field): seq<Access> {
    [Access(f.name, Declared, f)]
    + (if f.effectivePrimaryKey && f.name != "pk" then [Access("pk", Declared, f)] else [])
    + AttnameOffer(f)
  }

  function QueryOffers(f: Field): seq<Access> {
    if IsReverse(f) then [Access(NonEmptyOr(f.queryName, f.name), Reverse, f)] else ForwardOffers(f)
  }

  function InstanceOffers(f: Field): seq<Access> {
    if IsReverse(f) then [Access(NonEmptyOr(f.accessorName, f.name), Reverse, f)] else ForwardOffers(f)
  }

  function RelationOffers(context: RelationContext, f: Field): seq<Access> {
    if !f.isRelation then []
    else if IsReverse(f) then
      var query := Access(NonEmptyOr(f.queryName, f.name), Reverse, f);
      match context
      case ForQuery => [query]
      case ForSelectRelated => if f.cardinality == Some("one-to-one") && f.relatedModel.Some? then [query] else []
      case ForPrefetchRelated => [Access(NonEmptyOr(f.accessorName, f.name), Reverse, f)]
    else
      var declared := Access(f.name, Declared, f);
      match context
      case ForQuery => [declared] + AttnameOffer(f)
      case ForSelectRelated =>
        if f.cardinality in {Some("many-to-one"), Some("one-to-one")} && f.relatedModel.Some? then [declared] else []
      case ForPrefetchRelated => [declared]
  }

  /** The offers of all the fields, in the given order. */
  function OffersOf(offers: Field -> seq<Access>, fields: seq<Field>): seq<Access> {
    if fields == [] then [] else OffersOf(offers, fields[..|fields| - 1]) + offers(fields[|fields| - 1])
  }

  // ---------------------------------------------------------------------------------------------
  // Tables by name
  // ---------------------------------------------------------------------------------------------

  type Table = map<string, Access>

  predicate Usable(name: string) {
    name != "" && name != "+"
  }

  /** A new access replaces one of the same name only when its kind ranks strictly lower. */
  function Offer(table: Table, a: Access): Table {
    if !Usable(a.name) || (a.name in table && Rank(table[a.name].kind) <= Rank(a.kind)) then table
    else table[a.name := a]
  }

  function TableOf(offers: seq<Access>): Table {
    if offers == [] then map[] else Offer(TableOf(offers[..|offers| - 1]), offers[|offers| - 1])
  }

  /** Two different fields want the same relation name. */
  predicate Clashes(table: Table, a: Access) {
    Usable(a.name) && a.name in table && table[a.name].field != a.field
  }

  function RelationTableOf(offers: seq<Access>): Option<Table> {
    if offers == [] then Some(map[])
    else
      match RelationTableOf(offers[..|offers| - 1])
      case None => None
      case Some(table) =>
        var a := offers[|offers| - 1];
        if Clashes(table, a) then None else Some(Offer(table, a))
  }

  lemma TableAppends(offers: seq<Access>, a: Access)
    ensures TableOf(offers + [a]) == Offer(TableOf(offers), a)
    ensures RelationTableOf(offers + [a]) ==
            match RelationTableOf(offers)
            case None => None
            case Some(table) => if Clashes(table, a) then None else Some(Offer(table, a))
  {
    assert (offers + [a])[..|offers|] == offers;
  }

  /** The first of the lowest-ranking offers of its name. */
  ghost predicate Wins(offers: seq<Access>, a: Access) {
    exists i :: 0 <= i < |offers| && WinsAt(offers, i) && offers[i] == a
  }

  ghost predicate WinsAt(offers: seq<Access>, i: nat)
    requires i < |offers|
  {
    forall j :: 0 <= j < |offers| && offers[j].name == offers[i].name ==>
                  Rank(offers[i].kind) <= Rank(offers[j].kind) && (offers[i].kind == offers[j].kind ==> i <= j)
  }

  ghost predicate Offered(offers: seq<Access>, name: string) {
    exists i :: 0 <= i < |offers| && offers[i].name == name
  }

  /** The table holds exactly the usable names offered, each with the access that wins it. */
  ghost predicate HoldsWinners(table: Table, offers: seq<Access>) {
    && (forall name :: name in table <==> Usable(name) && Offered(offers, name))
    && (forall name :: name in table ==> table[name].name == name && Wins(offers, table[name]))
  }

  lemma OfferKeepsWinners(table: Table, offers: seq<Access>, a: Access)
    requires HoldsWinners(table, offers)
    ensures HoldsWinners(Offer(table, a), offers + [a])
  {
    var more := offers + [a];
    var next := Offer(table, a);
    forall name ensures name in next <==> Usable(name) && Offered(more, name) {
      if Offered(offers, name) {
        var i :| 0 <= i < |offers| && offers[i].name == name;
        assert more[i].name == name;
      }
      if name == a.name {
        assert more[|offers|].name == name;
      }
      if Offered(more, name) {
        var i :| 0 <= i < |more| && more[i].name == name;
        assert i < |offers| ==> offers[i].name == name;
      }
    }
    forall name | name in next ensures next[name].name == name && Wins(more, next[name]) {
      if name in table && next[name] == table[name] {
        var i :| 0 <= i < |offers| && WinsAt(offers, i) && offers[i] == table[name];
        assert WinsAt(more, i) && more[i] == table[name];
      } else {
        if name in table {
          var i :| 0 <= i < |offers| && WinsAt(offers, i) && offers[i] == table[name];
        }
        forall j | 0 <= j < |offers| && offers[j].name == name ensures Rank(a.kind) < Rank(offers[j].kind) {
          assert Offered(offers, name);
        }
        assert WinsAt(more, |offers|);
      }
    }
  }

  lemma {:induction false} TableHoldsWinners(offers: seq<Access>)
    ensures HoldsWinners(TableOf(offers), offers)
  {
    if offers != [] {
      var n := |offers| - 1;
      TableHoldsWinners(offers[..n]);
      OfferKeepsWinners(TableOf(offers[..n]), offers[..n], offers[n]);
      assert offers == offers[..n] + [offers[n]];
    }
  }

  /** No usable name is offered by two different fields. */
  ghost predicate OneFieldPerName(offers: seq<Access>) {
    forall i, j :: 0 <= i < |offers| && 0 <= j < |offers| && offers[i].name == offers[j].name
                   && Usable(offers[i].name) ==>
                     offers[i].field == offers[j].field
  }

  lemma ClashContests(table: Table, offers: seq<Access>, a: Access)
    requires HoldsWinners(table, offers) && OneFieldPerName(offers)
    ensures Clashes(table, a) <==> !OneFieldPerName(offers + [a])
  {
    var more := offers + [a];
    if a.name in table && Usable(a.name) {
      var i :| 0 <= i < |offers| && WinsAt(offers, i) && offers[i] == table[a.name];
      assert more[i].name == more[|offers|].name;
      forall j | 0 <= j < |offers| && more[j].name == a.name ensures more[j].field == table[a.name].field {
        assert offers[j].name == offers[i].name;
      }
    } else {
      forall j | 0 <= j < |offers| && more[j].name == a.name ensures !Usable(a.name) {
        assert Offered(offers, a.name);
      }
    }
    if !Clashes(table, a) {
      forall i, j | 0 <= i < |more| && 0 <= j < |more| && more[i].name == more[j].name && Usable(more[i].name)
        ensures more[i].field == more[j].field
      {
        if i < |offers| && j < |offers| {
          assert offers[i].field == offers[j].field;
        }
      }
    }
  }

  /** A relation table exists exactly when no name is contested, and then it holds the winners. */
  lemma {:induction false} RelationTableHoldsWinners(offers: seq<Access>)
    ensures RelationTableOf(offers).Some? <==> OneFieldPerName(offers)
    ensures RelationTableOf(offers).Some? ==> RelationTableOf(offers) == Some(TableOf(offers))
  {
    if offers != [] {
      var init, a := offers[..|offers| - 1], offers[|offers| - 1];
      RelationTableHoldsWinners(init);
      assert offers == init + [a];
      if OneFieldPerName(init) {
        TableHoldsWinners(init);
        ClashContests(TableOf(init), init, a);
      } else {
        var i, j :| 0 <= i < |init| && 0 <= j < |init| && init[i].name == init[j].name && Usable(init[i].name)
                    && init[i].field != init[j].field;
        assert offers[i].name == offers[j].name;
      }
    }
  }

  // ---------------------------------------------------------------------------------------------
  // Indexes
  // ---------------------------------------------------------------------------------------------

  /** What `buildModelIndex` keeps for looking up and visiting the fields of one model. */
  datatype ModelIndex = ModelIndex(
    model: Model,
    fields: map<string, Field>,
    queries: map<string, Field>,
    attnames: map<string, Field>,
    accessors: map<string, Field>,
    queryByName: Table,
    instanceByName: Table,
    relations: PerContext<Table>,
    queryAccess: seq<Access>,
    instanceAccess: seq<Access>,
    relationsOrdered: PerContext<seq<Access>>)

  /** The list is ascending and holds the entries of the table, each once. */
  ghost predicate Lists(ordered: seq<Access>, table: Table) {
    && Ascending(AccessLess, ordered)
    && (forall a :: a in ordered <==> a.name in table && table[a.name] == a)
  }

  function SortedFields(m: Model, names: seq<string>): seq<Field>
    requires forall name :: name in names ==> name in m.fields
  {
    seq(|names|, i requires 0 <= i < |names| => m.fields[names[i]])
  }

  /** The model's field names in ascending order. */
  ghost predicate SortedNames(m: Model, names: seq<string>) {
    Ascending(Less, names) && forall name :: name in names <==> name in m.fields
  }

  function QueryOffersOf(fields: seq<Field>): seq<Access> {
    OffersOf(QueryOffers, fields)
  }

  function InstanceOffersOf(fields: seq<Field>): seq<Access> {
    OffersOf(InstanceOffers, fields)
  }

  function RelationOfferer(context: RelationContext): Field -> seq<Access> {
    f => RelationOffers(context, f)
  }

  function RelationOffersOf(context: RelationContext, fields: seq<Field>): seq<Access> {
    OffersOf(RelationOfferer(context), fields)
  }

  lemma {:induction false} OffersPrefix(offers: Field -> seq<Access>, fields: seq<Field>, i: nat)
    requires i <= |fields|
    ensures OffersOf(offers, fields[..i]) <= OffersOf(offers, fields)
    decreases |fields| - i
  {
    if i < |fields| {
      OffersPrefix(offers, fields, i + 1);
      assert fields[..i + 1][..i] == fields[..i];
    } else {
      assert fields[..i] == fields;
    }
  }

  lemma AccessOrder()
    ensures StrictOrder(AccessLess)
  {
    StringOrder();
  }

  lemma {:induction false} TableEntries(table: Table, a: Access, b: Access)
    requires a.name in table && table[a.name] == a && b.name in table && table[b.name] == b && a != b
    ensures AccessLess(a, b) || AccessLess(b, a)
  {
    LessTotal(a.name, b.name);
  }
}
