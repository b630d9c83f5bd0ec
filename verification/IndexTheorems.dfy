/** Which field of a model a name leads to, told by the fields alone. */
module IndexTheorems {
  import opened Prelude
  import opened Ordering
  import opened Schema
  import opened SchemaIndex

  // ---------------------------------------------------------------------------------------------
  // The names a field goes by
  // ---------------------------------------------------------------------------------------------

  /** In queries, as an attribute of instances, or as a relation. */
  datatype Use = Queries | Instances | Relations(context: RelationContext)

  /** The name given, or the field's own if none is given. */
  predicate Called(f: Field, given: Option<string>, name: string) {
    name == if given.None? || given == Some("") then f.name else given.value
  }

  /** A forward field goes by its own name, by "pk" if it is the primary key, and by its column attribute. */
  predicate GoesForward(f: Field, name: string, kind: AccessKind) {
    match kind
    case Declared => name == f.name || (f.effectivePrimaryKey && name == "pk")
    case Attname => f.attname == Some(name) && name != "" && name != f.name
    case Reverse => false
  }

  /** What single-valued relations are; from the far side only those to one. */
  predicate ToOne(f: Field) {
    && f.relatedModel.Some?
    && (f.cardinality == Some("one-to-one") || (f.cardinality == Some("many-to-one") && f.direction != Some("reverse")))
  }

  /** The field goes by this name, in this use, as an access of this kind. */
  predicate GoesBy(f: Field, use: Use, name: string, kind: AccessKind) {
    if f.direction == Some("reverse") then
      && kind.Reverse?
      && match use
         case Queries => Called(f, f.queryName, name)
         case Instances => Called(f, f.accessorName, name)
         case Relations(ForQuery) => f.isRelation && Called(f, f.queryName, name)
         case Relations(ForSelectRelated) => f.isRelation && ToOne(f) && Called(f, f.queryName, name)
         case Relations(ForPrefetchRelated) => f.isRelation && Called(f, f.accessorName, name)
    else
      match use
      case Queries => GoesForward(f, name, kind)
      case Instances => GoesForward(f, name, kind)
      case Relations(ForQuery) =>
        && f.isRelation
        && ((kind.Declared? && name == f.name) || (kind.Attname? && GoesForward(f, name, kind)))
      case Relations(ForSelectRelated) => f.isRelation && ToOne(f) && kind.Declared? && name == f.name
      case Relations(ForPrefetchRelated) => f.isRelation && kind.Declared? && name == f.name
  }

  function TableFor(index: ModelIndex, use: Use): Table {
    match use
    case Queries => index.queryByName
    case Instances => index.instanceByName
    case Relations(context) => index.relations.At(context)
  }

  function ListFor(index: ModelIndex, use: Use): seq<Access> {
    match use
    case Queries => index.queryAccess
    case Instances => index.instanceAccess
    case Relations(context) => index.relationsOrdered.At(context)
  }

  function OffersFor(use: Use): Field -> seq<Access> {
    match use
    case Queries => QueryOffers
    case Instances => InstanceOffers
    case Relations(context) => RelationOfferer(context)
  }

  lemma OfferedMeansGoesBy(f: Field, use: Use, a: Access)
    ensures a in OffersFor(use)(f) <==> a.field == f && GoesBy(f, use, a.name, a.kind)
  {
    OfferedForward(f, a);
  }

  lemma OfferedForward(f: Field, a: Access)
    ensures a in ForwardOffers(f) <==> a.field == f && GoesForward(f, a.name, a.kind)
    ensures a in AttnameOffer(f) <==> a.field == f && a.kind.Attname? && GoesForward(f, a.name, a.kind)
  {
  }

  // ---------------------------------------------------------------------------------------------
  // Offers come in the order of the fields
  // ---------------------------------------------------------------------------------------------

  /** An offer of the field at `p` among the offers of all fields. */
  lemma OfferPlace(offers: Field -> seq<Access>, fields: seq<Field>, p: nat, a: Access) returns (i: nat)
    requires p < |fields| && a in offers(fields[p])
    ensures |OffersOf(offers, fields[..p])| <= i < |OffersOf(offers, fields[..p + 1])|
    ensures i < |OffersOf(offers, fields)| && OffersOf(offers, fields)[i] == a
  {
    var k :| 0 <= k < |offers(fields[p])| && offers(fields[p])[k] == a;
    i := |OffersOf(offers, fields[..p])| + k;
    assert fields[..p + 1][..p] == fields[..p];
    OffersPrefix(offers, fields, p + 1);
  }

  /** The field that an offer comes from. */
  lemma {:induction false} OfferOrigin(offers: Field -> seq<Access>, fields: seq<Field>, i: nat) returns (p: nat)
    requires i < |OffersOf(offers, fields)|
    ensures p < |fields| && OffersOf(offers, fields)[i] in offers(fields[p])
    ensures |OffersOf(offers, fields[..p])| <= i < |OffersOf(offers, fields[..p + 1])|
  {
    var n := |fields| - 1;
    if i < |OffersOf(offers, fields[..n])| {
      p := OfferOrigin(offers, fields[..n], i);
      assert fields[..n][..p] == fields[..p] && fields[..n][..p + 1] == fields[..p + 1];
    } else {
      p := n;
      assert fields[..n + 1] == fields;
    }
  }

  lemma EarlierFieldsOfferFirst(offers: Field -> seq<Access>, fields: seq<Field>, q: nat, p: nat)
    requires q < p <= |fields|
    ensures |OffersOf(offers, fields[..q + 1])| <= |OffersOf(offers, fields[..p])|
  {
    OffersPrefix(offers, fields[..p], q + 1);
    assert fields[..p][..q + 1] == fields[..q + 1];
  }

  // ---------------------------------------------------------------------------------------------
  // The answer of an index
  // ---------------------------------------------------------------------------------------------

  predicate Precedes(a: AccessKind, b: AccessKind) {
    (a.Declared? && !b.Declared?) || (a.Attname? && b.Reverse?)
  }

  /** The field with this key wins the name: no other goes by it as a lower kind, nor an earlier one as the same. */
  ghost predicate Prevails(m: Model, use: Use, key: string, name: string, kind: AccessKind) {
    && key in m.fields && GoesBy(m.fields[key], use, name, kind)
    && forall other, k :: other in m.fields && GoesBy(m.fields[other], use, name, k) ==>
                            Precedes(kind, k) || (kind == k && (key == other || Less(key, other)))
  }

  lemma WinnerPrevails(m: Model, names: seq<string>, use: Use, i: nat) returns (p: nat)
    requires SortedNames(m, names)
    requires i < |OffersOf(OffersFor(use), SortedFields(m, names))|
    requires WinsAt(OffersOf(OffersFor(use), SortedFields(m, names)), i)
    ensures
      var a := OffersOf(OffersFor(use), SortedFields(m, names))[i];
      p < |names| && a.field == m.fields[names[p]] && Prevails(m, use, names[p], a.name, a.kind)
  {
    var fields, offers := SortedFields(m, names), OffersFor(use);
    var a := OffersOf(offers, fields)[i];
    p := OfferOrigin(offers, fields, i);
    OfferedMeansGoesBy(fields[p], use, a);
    forall other, k | other in m.fields && GoesBy(m.fields[other], use, a.name, k)
      ensures Precedes(a.kind, k) || (a.kind == k && (names[p] == other || Less(names[p], other)))
    {
      Outranks(m, names, use, i, p, other, k);
    }
  }

  /** A field that goes by the name comes later, or as a higher kind, than the one whose offer wins it. */
  lemma Outranks(m: Model, names: seq<string>, use: Use, i: nat, p: nat, other: string, k: AccessKind)
    requires SortedNames(m, names) && p < |names| && other in m.fields
    requires i < |OffersOf(OffersFor(use), SortedFields(m, names))|
    requires WinsAt(OffersOf(OffersFor(use), SortedFields(m, names)), i)
    requires |OffersOf(OffersFor(use), SortedFields(m, names)[..p])| <= i
    requires GoesBy(m.fields[other], use, OffersOf(OffersFor(use), SortedFields(m, names))[i].name, k)
    ensures
      var a := OffersOf(OffersFor(use), SortedFields(m, names))[i];
      Precedes(a.kind, k) || (a.kind == k && (names[p] == other || Less(names[p], other)))
  {
    var fields, offers := SortedFields(m, names), OffersFor(use);
    var a := OffersOf(offers, fields)[i];
    assert other in names;
    var q :| 0 <= q < |names| && names[q] == other;
    var b := Access(a.name, k, fields[q]);
    OfferedMeansGoesBy(fields[q], use, b);
    var j := OfferPlace(offers, fields, q, b);
    if q < p {
      EarlierFieldsOfferFirst(offers, fields, q, p);
    }
    RankedKinds(a.kind, k);
  }

  lemma RankedKinds(a: AccessKind, b: AccessKind)
    ensures Rank(a) <= Rank(b) <==> a == b || Precedes(a, b)
  {
  }

  lemma Goes(m: Model, names: seq<string>, use: Use, key: string, a: Access)
    requires SortedNames(m, names) && key in m.fields && a.field == m.fields[key]
    requires GoesBy(m.fields[key], use, a.name, a.kind)
    ensures a in OffersOf(OffersFor(use), SortedFields(m, names))
  {
    var fields := SortedFields(m, names);
    assert key in names;
    var q :| 0 <= q < |names| && names[q] == key;
    assert fields[q] == m.fields[key];
    OfferedMeansGoesBy(m.fields[key], use, a);
    FieldsMakeOffers(OffersFor(use), fields, m.fields[key], a);
  }

  /** Nothing, if the name is not usable or no field goes by it; otherwise the field that prevails. */
  ghost predicate Answers(table: Table, m: Model, use: Use, name: string) {
    if name == "" || name == "+" then name !in table
    else if name in table then
      && table[name].name == name
      && exists key :: Prevails(m, use, key, name, table[name].kind) && table[name].field == m.fields[key]
    else forall key, kind :: key in m.fields ==> !GoesBy(m.fields[key], use, name, kind)
  }

  lemma OffersAnswer(m: Model, names: seq<string>, use: Use, name: string)
    requires SortedNames(m, names)
    ensures Answers(TableOf(OffersOf(OffersFor(use), SortedFields(m, names))), m, use, name)
  {
    var all := OffersOf(OffersFor(use), SortedFields(m, names));
    var table := TableOf(all);
    TableHoldsWinners(all);
    if name in table {
      var i :| 0 <= i < |all| && WinsAt(all, i) && all[i] == table[name];
      var p := WinnerPrevails(m, names, use, i);
    } else if Usable(name) {
      forall key, kind | key in m.fields ensures !GoesBy(m.fields[key], use, name, kind) {
        NotOffered(m, names, use, key, Access(name, kind, m.fields[key]));
      }
    }
  }

  lemma NotOffered(m: Model, names: seq<string>, use: Use, key: string, a: Access)
    requires SortedNames(m, names) && key in m.fields && a.field == m.fields[key]
    requires !Offered(OffersOf(OffersFor(use), SortedFields(m, names)), a.name)
    ensures !GoesBy(m.fields[key], use, a.name, a.kind)
  {
    if GoesBy(m.fields[key], use, a.name, a.kind) {
      Goes(m, names, use, key, a);
    }
  }

  lemma TableIs(index: ModelIndex, m: Model, fields: seq<Field>, use: Use)
    requires IsIndexOf(index, m, fields)
    ensures TableFor(index, use) == TableOf(OffersOf(OffersFor(use), fields))
    ensures Lists(ListFor(index, use), TableFor(index, use))
  {
    match use
    case Relations(ForQuery) =>
    case Relations(ForSelectRelated) =>
    case Relations(ForPrefetchRelated) =>
    case _ =>
  }

  /** What an index says of a name, in each of its five tables. */
  lemma IndexAnswers(index: ModelIndex, m: Model, use: Use, name: string)
    requires IsIndex(index, m)
    ensures Answers(TableFor(index, use), m, use, name)
  {
    var names :| SortedNames(m, names) && IsIndexOf(index, m, SortedFields(m, names));
    TableIs(index, m, SortedFields(m, names), use);
    OffersAnswer(m, names, use, name);
  }

  ghost predicate InOrder(list: seq<Access>) {
    forall i, j :: 0 <= i < j < |list| ==>
                     Precedes(list[i].kind, list[j].kind)
                     || (list[i].kind == list[j].kind && Less(list[i].name, list[j].name))
  }

  /** Each list holds the entries of its table, declared names first and reverse ones last, each sort by name. */
  lemma ListsAreOrdered(index: ModelIndex, m: Model, use: Use)
    requires IsIndex(index, m)
    ensures forall a :: a in ListFor(index, use) <==> a.name in TableFor(index, use)
                                                      && TableFor(index, use)[a.name] == a
    ensures InOrder(ListFor(index, use))
  {
    var names :| SortedNames(m, names) && IsIndexOf(index, m, SortedFields(m, names));
    TableIs(index, m, SortedFields(m, names), use);
    AscendingIsInOrder(ListFor(index, use));
  }

  lemma AscendingIsInOrder(list: seq<Access>)
    requires Ascending(AccessLess, list)
    ensures InOrder(list)
  {
    forall i, j | 0 <= i < j < |list|
      ensures Precedes(list[i].kind, list[j].kind)
              || (list[i].kind == list[j].kind && Less(list[i].name, list[j].name))
    {
      assert AccessLess(list[i], list[j]);
    }
  }

  // ---------------------------------------------------------------------------------------------
  // Contested names
  // ---------------------------------------------------------------------------------------------

  /** The names that `fieldsByQuery`, `fieldsByAttname` and `fieldsByAccessor` know a field by. */
  predicate Queried(f: Field, name: string) {
    name == f.name || (f.direction == Some("reverse") && f.queryName == Some(name) && name != "")
  }

  predicate Stored(f: Field, name: string) {
    f.attname == Some(name) && name != ""
  }

  predicate Accessed(f: Field, name: string) {
    f.direction == Some("reverse") && f.accessorName == Some(name) && name != ""
  }

  /** Both fields want this name for themselves alone: in one of the plain tables, or as a relation. */
  ghost predicate Contest(f: Field, g: Field, name: string) {
    PlainContest(f, g, name) || RelationContest(f, g, name)
  }

  predicate PlainContest(f: Field, g: Field, name: string) {
    || (Queried(f, name) && Queried(g, name))
    || (Stored(f, name) && Stored(g, name))
    || (Accessed(f, name) && Accessed(g, name))
  }

  ghost predicate RelationContest(f: Field, g: Field, name: string) {
    && name != "" && name != "+"
    && exists context, a, b :: GoesBy(f, Relations(context), name, a) && GoesBy(g, Relations(context), name, b)
  }

  lemma NamesAre(f: Field, name: string)
    ensures name in QueryNames(f) <==> Queried(f, name)
    ensures name in Attnames(f) <==> Stored(f, name)
    ensures name in AccessorNames(f) <==> Accessed(f, name)
  {
  }

  /** The three plain tables lead from a name to the one field known by it. */
  lemma PlainTables(index: ModelIndex, m: Model, name: string, f: Field)
    requires IsIndex(index, m)
    ensures (name in index.queries && index.queries[name] == f) == (f in m.fields.Values && Queried(f, name))
    ensures (name in index.attnames && index.attnames[name] == f) == (f in m.fields.Values && Stored(f, name))
    ensures (name in index.accessors && index.accessors[name] == f) == (f in m.fields.Values && Accessed(f, name))
  {
    var names :| SortedNames(m, names) && IsIndexOf(index, m, SortedFields(m, names));
    FieldsAreValues(m, names, f);
    NamesAre(f, name);
    ServedIs(index.queries, QueryNames, SortedFields(m, names), name, f);
    ServedIs(index.attnames, Attnames, SortedFields(m, names), name, f);
    ServedIs(index.accessors, AccessorNames, SortedFields(m, names), name, f);
  }

  lemma ServedIs(table: map<string, Field>, claims: Field -> seq<string>, fields: seq<Field>, name: string, f: Field)
    requires Serves(table, claims, fields)
    ensures (name in table && table[name] == f) == (f in fields && name in claims(f))
  {
  }

  lemma FieldsAreValues(m: Model, names: seq<string>, f: Field)
    requires SortedNames(m, names)
    ensures f in SortedFields(m, names) <==> f in m.fields.Values
  {
    if f in m.fields.Values {
      var key :| key in m.fields && m.fields[key] == f;
      assert key in names;
      var i :| 0 <= i < |names| && names[i] == key;
      assert SortedFields(m, names)[i] == f;
    }
  }

  lemma {:induction false} Enumerated(keys: set<string>) returns (names: seq<string>)
    ensures Distinct(names) && forall name :: name in names <==> name in keys
    decreases |keys|
  {
    if keys == {} {
      names := [];
    } else {
      var key :| key in keys;
      names := Enumerated(keys - {key});
      names := names + [key];
    }
  }

  lemma NamesCanBeSorted(m: Model) returns (names: seq<string>)
    ensures SortedNames(m, names)
  {
    var keys := Enumerated(m.fields.Keys);
    StringOrder();
    forall a, b | a in keys && b in keys && a != b ensures Less(a, b) || Less(b, a) {
      LessTotal(a, b);
    }
    SortAscending(Less, keys);
    names := Sort(Less, keys);
    SameElements(names, keys);
  }

  ghost predicate Uncontested(m: Model) {
    forall key, other, name :: key in m.fields && other in m.fields && key != other ==>
                                 !Contest(m.fields[key], m.fields[other], name)
  }

  lemma UnclaimedMeansApart(claims: Field -> seq<string>, fields: seq<Field>)
    ensures AllUnclaimed(claims, fields, |fields|) <==>
            forall i, j :: 0 <= i < j < |fields| ==> Disjoint(claims(fields[i]), claims(fields[j]))
  {
    if AllUnclaimed(claims, fields, |fields|) {
      forall i, j | 0 <= i < j < |fields| ensures Disjoint(claims(fields[i]), claims(fields[j])) {
        assert Unclaimed(claims, fields, j);
      }
    }
  }

  ghost predicate PlainApart(f: Field, g: Field) {
    && Disjoint(QueryNames(f), QueryNames(g))
    && Disjoint(Attnames(f), Attnames(g))
    && Disjoint(AccessorNames(f), AccessorNames(g))
  }

  lemma SharedName(a: seq<string>, b: seq<string>)
    ensures Disjoint(a, b) <==> forall name :: !(name in a && name in b)
  {
    if !Disjoint(a, b) {
      var i, j :| 0 <= i < |a| && 0 <= j < |b| && a[i] == b[j];
      assert a[i] in a && a[i] in b;
    }
  }

  lemma ApartMeansUncontested(f: Field, g: Field)
    ensures PlainApart(f, g) <==> forall name :: !PlainContest(f, g, name)
  {
    SharedName(QueryNames(f), QueryNames(g));
    SharedName(Attnames(f), Attnames(g));
    SharedName(AccessorNames(f), AccessorNames(g));
    forall name
      ensures PlainContest(f, g, name) <==>
              || (name in QueryNames(f) && name in QueryNames(g))
              || (name in Attnames(f) && name in Attnames(g))
              || (name in AccessorNames(f) && name in AccessorNames(g))
    {
      NamesAre(f, name);
      NamesAre(g, name);
    }
  }

  lemma DistinctMeansApart(fields: seq<Field>)
    ensures NamesDistinct(fields) <==> forall i, j :: 0 <= i < j < |fields| ==> PlainApart(fields[i], fields[j])
  {
    UnclaimedMeansApart(QueryNames, fields);
    UnclaimedMeansApart(Attnames, fields);
    UnclaimedMeansApart(AccessorNames, fields);
  }

  /** A name that two fields claim keeps the model from being indexed. */
  lemma ContestPrevents(m: Model, names: seq<string>, p: nat, q: nat, name: string)
    requires ValidFields(m) && SortedNames(m, names) && p < q < |names|
    requires Contest(m.fields[names[p]], m.fields[names[q]], name)
    ensures !Indexable(SortedFields(m, names))
  {
    if PlainContest(m.fields[names[p]], m.fields[names[q]], name) {
      PlainContestPrevents(m, names, p, q, name);
    } else {
      RelationContestPrevents(m, names, p, q, name);
    }
  }

  lemma PlainContestPrevents(m: Model, names: seq<string>, p: nat, q: nat, name: string)
    requires SortedNames(m, names) && p < q < |names|
    requires PlainContest(m.fields[names[p]], m.fields[names[q]], name)
    ensures !NamesDistinct(SortedFields(m, names))
  {
    var fields := SortedFields(m, names);
    assert fields[p] == m.fields[names[p]] && fields[q] == m.fields[names[q]];
    ApartMeansUncontested(fields[p], fields[q]);
    DistinctMeansApart(fields);
  }

  lemma RelationContestPrevents(m: Model, names: seq<string>, p: nat, q: nat, name: string)
    requires ValidFields(m) && SortedNames(m, names) && p < q < |names|
    requires RelationContest(m.fields[names[p]], m.fields[names[q]], name)
    ensures !Indexable(SortedFields(m, names))
  {
    var f, g := m.fields[names[p]], m.fields[names[q]];
    var context, a, b :| GoesBy(f, Relations(context), name, a) && GoesBy(g, Relations(context), name, b);
    RelationContested(m, names, p, q, name, context, a, b);
    match context
    case ForQuery =>
    case ForSelectRelated =>
    case ForPrefetchRelated =>
  }

  lemma RelationContested(m: Model, names: seq<string>, p: nat, q: nat, name: string, context: RelationContext,
                          a: AccessKind, b: AccessKind)
    requires ValidFields(m) && SortedNames(m, names) && p < q < |names| && name != "" && name != "+"
    requires GoesBy(m.fields[names[p]], Relations(context), name, a)
    requires GoesBy(m.fields[names[q]], Relations(context), name, b)
    ensures !OneFieldPerName(RelationOffersOf(context, SortedFields(m, names)))
  {
    var all := RelationOffersOf(context, SortedFields(m, names));
    var x, y := Access(name, a, m.fields[names[p]]), Access(name, b, m.fields[names[q]]);
    assert names[p] in names && names[q] in names;
    Goes(m, names, Relations(context), names[p], x);
    Goes(m, names, Relations(context), names[q], y);
    assert ValidField(names[p], m.fields[names[p]]) && ValidField(names[q], m.fields[names[q]]);
    assert Less(names[p], names[q]);
    LessIrreflexive(names[p]);
    var i :| 0 <= i < |all| && all[i] == x;
    var j :| 0 <= j < |all| && all[j] == y;
    assert all[i].name == all[j].name && all[i].field != all[j].field;
  }

  lemma ClaimsApart(m: Model, names: seq<string>)
    requires SortedNames(m, names) && Uncontested(m)
    ensures NamesDistinct(SortedFields(m, names))
  {
    var fields := SortedFields(m, names);
    DistinctMeansApart(fields);
    forall i, j | 0 <= i < j < |fields| ensures PlainApart(fields[i], fields[j]) {
      assert names[i] in names && names[j] in names && Less(names[i], names[j]);
      LessIrreflexive(names[i]);
      NoPlainContest(m, names[i], names[j]);
      ApartMeansUncontested(fields[i], fields[j]);
    }
  }

  lemma NoPlainContest(m: Model, key: string, other: string)
    requires Uncontested(m) && key in m.fields && other in m.fields && key != other
    ensures forall name :: !PlainContest(m.fields[key], m.fields[other], name)
  {
    forall name ensures !PlainContest(m.fields[key], m.fields[other], name) {
      assert !Contest(m.fields[key], m.fields[other], name);
    }
  }

  lemma RelationsApart(m: Model, names: seq<string>, context: RelationContext)
    requires SortedNames(m, names) && Uncontested(m)
    ensures OneFieldPerName(RelationOffersOf(context, SortedFields(m, names)))
  {
    var fields := SortedFields(m, names);
    var all := RelationOffersOf(context, fields);
    forall i, j | 0 <= i < |all| && 0 <= j < |all| && all[i].name == all[j].name && Usable(all[i].name)
      ensures all[i].field == all[j].field
    {
      var p := OfferOrigin(RelationOfferer(context), fields, i);
      var q := OfferOrigin(RelationOfferer(context), fields, j);
      OfferedMeansGoesBy(fields[p], Relations(context), all[i]);
      OfferedMeansGoesBy(fields[q], Relations(context), all[j]);
      assert names[p] in names && names[q] in names;
      if names[p] != names[q] {
        RelationContestOf(m, names[p], names[q], context, all[i], all[j]);
      }
    }
  }

  lemma RelationContestOf(m: Model, key: string, other: string, context: RelationContext, a: Access, b: Access)
    requires key in m.fields && other in m.fields && a.name == b.name && Usable(a.name)
    requires GoesBy(m.fields[key], Relations(context), a.name, a.kind)
    requires GoesBy(m.fields[other], Relations(context), b.name, b.kind)
    ensures Contest(m.fields[key], m.fields[other], a.name)
  {
  }

  /** A model can be indexed exactly when no two of its fields contest a name. */
  lemma IndexableMeansUncontested(m: Model)
    requires ValidFields(m)
    ensures ModelIndexable(m) <==> Uncontested(m)
  {
    var names := NamesCanBeSorted(m);
    IndexableEitherWay(m, SortedFields(m, names));
    if Uncontested(m) {
      ClaimsApart(m, names);
      RelationsApart(m, names, ForQuery);
      RelationsApart(m, names, ForSelectRelated);
      RelationsApart(m, names, ForPrefetchRelated);
    } else {
      var key, other, name :| key in m.fields && other in m.fields && key != other
                              && Contest(m.fields[key], m.fields[other], name);
      AnyContestPrevents(m, names, key, other, name);
    }
  }

  lemma AnyContestPrevents(m: Model, names: seq<string>, key: string, other: string, name: string)
    requires ValidFields(m) && SortedNames(m, names) && key in m.fields && other in m.fields && key != other
    requires Contest(m.fields[key], m.fields[other], name)
    ensures !Indexable(SortedFields(m, names))
  {
    assert key in names && other in names;
    var p :| 0 <= p < |names| && names[p] == key;
    var q :| 0 <= q < |names| && names[q] == other;
    if p < q {
      ContestPrevents(m, names, p, q, name);
    } else {
      ContestIsMutual(m.fields[key], m.fields[other], name);
      ContestPrevents(m, names, q, p, name);
    }
  }

  lemma ContestIsMutual(f: Field, g: Field, name: string)
    ensures Contest(f, g, name) == Contest(g, f, name)
  {
  }
}
