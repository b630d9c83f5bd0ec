/** Building the index of one model, field by field in ascending order of names. */
module SchemaIndex {
  import opened Prelude
  import opened Ordering
  import opened Schema

  // ---------------------------------------------------------------------------------------------
  // What an index must be
  // ---------------------------------------------------------------------------------------------

  function QueryNames(f: Field): seq<string> {
    [f.name] + if IsReverse(f) then NonEmpty(f.queryName) else []
  }

  function Attnames(f: Field): seq<string> {
    NonEmpty(f.attname)
  }

  function AccessorNames(f: Field): seq<string> {
    if IsReverse(f) then NonEmpty(f.accessorName) else []
  }

  function NonEmpty(value: Option<string>): seq<string> {
    if value.Some? && value.value != "" then [value.value] else []
  }

  predicate Disjoint(a: seq<string>, b: seq<string>) {
    forall i, j :: 0 <= i < |a| && 0 <= j < |b| ==> a[i] != b[j]
  }

  /** The names of this field are claimed by no earlier field. */
  predicate Unclaimed(names: Field -> seq<string>, fields: seq<Field>, i: nat)
    requires i < |fields|
  {
    forall j :: 0 <= j < i ==> Disjoint(names(fields[j]), names(fields[i]))
  }

  predicate AllUnclaimed(names: Field -> seq<string>, fields: seq<Field>, n: nat)
    requires n <= |fields|
  {
    forall k :: 0 <= k < n ==> Unclaimed(names, fields, k)
  }

  /** No two fields claim the same query name, attname or accessor. */
  predicate NamesDistinct(fields: seq<Field>) {
    && AllUnclaimed(QueryNames, fields, |fields|)
    && AllUnclaimed(Attnames, fields, |fields|)
    && AllUnclaimed(AccessorNames, fields, |fields|)
  }

  ghost predicate Indexable(fields: seq<Field>) {
    && NamesDistinct(fields)
    && OneFieldPerName(RelationOffersOf(ForQuery, fields))
    && OneFieldPerName(RelationOffersOf(ForSelectRelated, fields))
    && OneFieldPerName(RelationOffersOf(ForPrefetchRelated, fields))
  }

  ghost predicate IsRelationIndex(table: Table, ordered: seq<Access>, context: RelationContext, fields: seq<Field>) {
    table == TableOf(RelationOffersOf(context, fields)) && Lists(ordered, table)
  }

  /** The table leads from each claimed name to the field that claims it, and from no other name. */
  ghost predicate Serves(table: map<string, Field>, names: Field -> seq<string>, fields: seq<Field>) {
    && (forall name :: name in table ==> exists f :: f in fields && name in names(f) && table[name] == f)
    && (forall f, name :: f in fields && name in names(f) ==> name in table && table[name] == f)
  }

  lemma ServesUnique(a: map<string, Field>, b: map<string, Field>, names: Field -> seq<string>, fields: seq<Field>)
    requires Serves(a, names, fields) && Serves(b, names, fields)
    ensures a == b
  {
    forall name | name in a || name in b ensures name in a && name in b && a[name] == b[name] {
      var f :| f in fields && name in names(f);
    }
  }

  ghost predicate IsIndexOf(index: ModelIndex, m: Model, fields: seq<Field>) {
    && index.model == m && index.fields == m.fields
    && Serves(index.queries, QueryNames, fields) && Serves(index.attnames, Attnames, fields)
    && Serves(index.accessors, AccessorNames, fields)
    && index.queryByName == TableOf(QueryOffersOf(fields))
    && index.instanceByName == TableOf(InstanceOffersOf(fields))
    && Lists(index.queryAccess, index.queryByName)
    && Lists(index.instanceAccess, index.instanceByName)
    && IsRelationIndex(index.relations.query, index.relationsOrdered.query, ForQuery, fields)
    && IsRelationIndex(index.relations.selectRelated, index.relationsOrdered.selectRelated, ForSelectRelated, fields)
    && IsRelationIndex(index.relations.prefetchRelated, index.relationsOrdered.prefetchRelated, ForPrefetchRelated,
                       fields)
  }

  /** An index is determined by the model. */
  lemma IndexUnique(a: ModelIndex, b: ModelIndex, m: Model, fields: seq<Field>)
    requires IsIndexOf(a, m, fields) && IsIndexOf(b, m, fields)
    ensures a == b
  {
    ServesUnique(a.queries, b.queries, QueryNames, fields);
    ServesUnique(a.attnames, b.attnames, Attnames, fields);
    ServesUnique(a.accessors, b.accessors, AccessorNames, fields);
    ListsUnique(a, b, m, fields);
  }

  lemma ListsUnique(a: ModelIndex, b: ModelIndex, m: Model, fields: seq<Field>)
    requires IsIndexOf(a, m, fields) && IsIndexOf(b, m, fields)
    ensures a.queryAccess == b.queryAccess && a.instanceAccess == b.instanceAccess
            && a.relationsOrdered == b.relationsOrdered
  {
    AccessOrder();
    AscendingUnique(AccessLess, a.queryAccess, b.queryAccess);
    AscendingUnique(AccessLess, a.instanceAccess, b.instanceAccess);
    AscendingUnique(AccessLess, a.relationsOrdered.query, b.relationsOrdered.query);
    AscendingUnique(AccessLess, a.relationsOrdered.selectRelated, b.relationsOrdered.selectRelated);
    AscendingUnique(AccessLess, a.relationsOrdered.prefetchRelated, b.relationsOrdered.prefetchRelated);
  }

  lemma NamesUnique(m: Model, a: seq<string>, b: seq<string>)
    requires SortedNames(m, a) && SortedNames(m, b)
    ensures a == b
  {
    StringOrder();
    AscendingUnique(Less, a, b);
  }

  ghost predicate ModelIndexable(m: Model) {
    exists names :: SortedNames(m, names) && Indexable(SortedFields(m, names))
  }

  ghost predicate IsIndex(index: ModelIndex, m: Model) {
    exists names :: SortedNames(m, names) && IsIndexOf(index, m, SortedFields(m, names))
  }

  /** The sorted field names are unique, so one indexing decides. */
  lemma IndexableEitherWay(m: Model, fields: seq<Field>)
    requires exists names :: SortedNames(m, names) && fields == SortedFields(m, names)
    ensures ModelIndexable(m) <==> Indexable(fields)
  {
    var names :| SortedNames(m, names) && fields == SortedFields(m, names);
    if ModelIndexable(m) {
      var others :| SortedNames(m, others) && Indexable(SortedFields(m, others));
      NamesUnique(m, names, others);
    }
  }

  // ---------------------------------------------------------------------------------------------
  // Refinement
  // ---------------------------------------------------------------------------------------------

  /**
   Visiting and looking up agree, for each of the five lists of an index: a name is listed exactly
   when it is usable and offered, it is listed once, and its entry is the first of its
   lowest-ranking offers in field order.
   */
  lemma ListRefinesOffers(ordered: seq<Access>, offers: seq<Access>, name: string)
    requires Lists(ordered, TableOf(offers))
    ensures name in TableOf(offers) <==> Usable(name) && Offered(offers, name)
    ensures name in TableOf(offers) <==> exists i :: 0 <= i < |ordered| && ordered[i].name == name
    ensures forall i, j :: 0 <= i < j < |ordered| ==> ordered[i].name != ordered[j].name
    ensures forall i :: 0 <= i < |ordered| ==> Wins(offers, ordered[i])
                                               && TableOf(offers)[ordered[i].name] == ordered[i]
  {
    TableHoldsWinners(offers);
    AccessOrder();
    forall i | 0 <= i < |ordered|
      ensures ordered[i].name in TableOf(offers) && TableOf(offers)[ordered[i].name] == ordered[i] {
      assert ordered[i] in ordered;
    }
    forall i, j | 0 <= i < j < |ordered| ensures ordered[i].name != ordered[j].name {
      assert AccessLess(ordered[i], ordered[j]);
      LessIrreflexive(ordered[i].name);
    }
    if name in TableOf(offers) {
      assert TableOf(offers)[name] in ordered;
    }
  }

  lemma {:induction false} OffersComeFromFields(offers: Field -> seq<Access>, fields: seq<Field>, a: Access)
    returns (f: Field)
    requires a in OffersOf(offers, fields)
    ensures f in fields && a in offers(f)
  {
    var n := |fields| - 1;
    if a in offers(fields[n]) {
      f := fields[n];
    } else {
      f := OffersComeFromFields(offers, fields[..n], a);
    }
  }

  /** Every select_related entry is a relation to a single, known model. */
  lemma SelectRelatedIsSingleValued(fields: seq<Field>, name: string)
    requires name in TableOf(RelationOffersOf(ForSelectRelated, fields))
    ensures
      var f := TableOf(RelationOffersOf(ForSelectRelated, fields))[name].field;
      && f in fields && f.isRelation && f.relatedModel.Some?
      && (f.cardinality == Some("one-to-one") || (f.cardinality == Some("many-to-one") && !IsReverse(f)))
  {
    var offers := RelationOffersOf(ForSelectRelated, fields);
    var a := TableOf(offers)[name];
    assert a in offers by {
      TableHoldsWinners(offers);
    }
    var f := OffersComeFromFields(RelationOfferer(ForSelectRelated), fields, a);
  }

  lemma {:induction false} FieldsMakeOffers(offers: Field -> seq<Access>, fields: seq<Field>, f: Field, a: Access)
    requires f in fields && a in offers(f)
    ensures a in OffersOf(offers, fields)
  {
    var n := |fields| - 1;
    if f != fields[n] {
      FieldsMakeOffers(offers, fields[..n], f, a);
    }
  }

  /** What is offered in one way is offered in the other as well. */
  predicate OffersWithin(narrow: Field -> seq<Access>, wide: Field -> seq<Access>, f: Field) {
    forall i :: 0 <= i < |narrow(f)| ==> narrow(f)[i] in wide(f)
  }

  lemma OffersNest(narrow: Field -> seq<Access>, wide: Field -> seq<Access>, fields: seq<Field>, name: string)
    returns (a: Access)
    requires forall i :: 0 <= i < |fields| ==> OffersWithin(narrow, wide, fields[i])
    requires name in TableOf(OffersOf(narrow, fields))
    ensures a == TableOf(OffersOf(narrow, fields))[name] && a.name == name
    ensures a in OffersOf(wide, fields) && name in TableOf(OffersOf(wide, fields))
  {
    var offers := OffersOf(narrow, fields);
    TableHoldsWinners(offers);
    TableHoldsWinners(OffersOf(wide, fields));
    a := TableOf(offers)[name];
    assert a in offers;
    var f := OffersComeFromFields(narrow, fields, a);
    assert OffersWithin(narrow, wide, f);
    FieldsMakeOffers(wide, fields, f, a);
    assert Offered(OffersOf(wide, fields), name);
  }

  /** A name for select_related is a relation that queries can follow, and leads to the same field. */
  lemma SelectRelatedFollowsQueries(fields: seq<Field>, name: string)
    requires OneFieldPerName(RelationOffersOf(ForQuery, fields))
    requires name in TableOf(RelationOffersOf(ForSelectRelated, fields))
    ensures name in TableOf(RelationOffersOf(ForQuery, fields))
    ensures TableOf(RelationOffersOf(ForQuery, fields))[name].field == TableOf(RelationOffersOf(ForSelectRelated,
                                                                                                fields))[name].field
  {
    var wide := RelationOffersOf(ForQuery, fields);
    var a := OffersNest(RelationOfferer(ForSelectRelated), RelationOfferer(ForQuery), fields, name);
    TableHoldsWinners(wide);
    var b := TableOf(wide)[name];
    assert b in wide && Usable(name);
  }

  /** A relation that queries can follow is a name that queries can use. */
  lemma QueryRelationsAreQueryNames(fields: seq<Field>, name: string)
    requires name in TableOf(RelationOffersOf(ForQuery, fields))
    ensures name in TableOf(QueryOffersOf(fields))
  {
    var a := OffersNest(RelationOfferer(ForQuery), QueryOffers, fields, name);
  }

  /** A name for prefetch_related is an attribute of instances. */
  lemma PrefetchNamesAreAttributes(fields: seq<Field>, name: string)
    requires name in TableOf(RelationOffersOf(ForPrefetchRelated, fields))
    ensures name in TableOf(InstanceOffersOf(fields))
  {
    var a := OffersNest(RelationOfferer(ForPrefetchRelated), InstanceOffers, fields, name);
  }

  // ---------------------------------------------------------------------------------------------
  // Building
  // ---------------------------------------------------------------------------------------------

  /** The access list holds the entries of the table in some order, each once. */
  ghost predicate Mirrors(accesses: seq<Access>, table: Table) {
    && (forall i, j :: 0 <= i < j < |accesses| ==> accesses[i].name != accesses[j].name)
    && (forall a :: a in accesses <==> a.name in table && table[a.name] == a)
  }

  method ReplaceAccess(accesses: seq<Access>, replacement: Access, ghost table: Table) returns (r: seq<Access>)
    requires Mirrors(accesses, table)
    requires forall name :: name in table ==> table[name].name == name
    ensures Mirrors(r, table[replacement.name := replacement])
  {
    for i := 0 to |accesses|
      invariant forall k :: 0 <= k < i ==> accesses[k].name != replacement.name
    {
      if accesses[i].name == replacement.name {
        r := accesses[i := replacement];
        forall a ensures a in r <==> a.name in table[replacement.name := replacement]
                                     && table[replacement.name := replacement][a.name] == a {
          if a in accesses && a.name != replacement.name {
            var k :| 0 <= k < |accesses| && accesses[k] == a;
            assert r[k] == a;
          }
          if a in r {
            var k :| 0 <= k < |r| && r[k] == a;
            assert k == i || accesses[k] == a;
          }
          assert r[i] == replacement;
        }
        return;
      }
    }
    assert forall name :: name in table ==> table[name] in accesses;
    assert replacement.name !in table;
    r := accesses + [replacement];
  }

  method OfferRelation(byName: Table, a: Access) returns (table: Option<Table>)
    ensures table == if Clashes(byName, a) then None else Some(Offer(byName, a))
  {
    if !Usable(a.name) {
      return Some(byName);
    }
    if a.name in byName {
      if byName[a.name].field != a.field {
        return None;
      }
      if Rank(byName[a.name].kind) <= Rank(a.kind) {
        return Some(byName);
      }
    }
    return Some(byName[a.name := a]);
  }

  /** The accesses and the table after one offer. */
  method AddTo(accesses: seq<Access>, byName: Table, a: Access) returns (list: seq<Access>, table: Table)
    requires Mirrors(accesses, byName)
    requires forall name :: name in byName ==> byName[name].name == name
    ensures table == Offer(byName, a) && Mirrors(list, table)
  {
    if !Usable(a.name) || (a.name in byName && Rank(byName[a.name].kind) <= Rank(a.kind)) {
      return accesses, byName;
    }
    list := ReplaceAccess(accesses, a, byName);
    table := byName[a.name := a];
  }

  /** Offer a field's accesses one by one, after those in `before`. */
  method AddAccesses(accesses: seq<Access>, byName: Table, offers: seq<Access>, ghost before: seq<Access>)
    returns (list: seq<Access>, table: Table)
    requires byName == TableOf(before) && Mirrors(accesses, byName)
    ensures table == TableOf(before + offers) && Mirrors(list, table)
  {
    list, table := accesses, byName;
    assert before + offers[..0] == before;
    for i := 0 to |offers|
      invariant table == TableOf(before + offers[..i]) && Mirrors(list, table)
    {
      ghost var done := before + offers[..i];
      TableHoldsWinners(done);
      TableAppends(done, offers[i]);
      assert before + offers[..i + 1] == done + [offers[i]];
      list, table := AddTo(list, table, offers[i]);
    }
    assert offers[..|offers|] == offers;
  }

  method AddRelations(byName: Table, offers: seq<Access>, ghost before: seq<Access>) returns (table: Option<Table>)
    requires RelationTableOf(before) == Some(byName)
    ensures table == RelationTableOf(before + offers)
  {
    var current := byName;
    assert before + offers[..0] == before;
    for i := 0 to |offers|
      invariant RelationTableOf(before + offers[..i]) == Some(current)
    {
      RelationStep(before, offers, i);
      table := OfferRelation(current, offers[i]);
      if table.None? {
        RefusedOffer(before, offers, i + 1);
        return;
      }
      current := table.value;
    }
    assert offers[..|offers|] == offers;
    return Some(current);
  }

  lemma RelationStep(before: seq<Access>, offers: seq<Access>, i: nat)
    requires i < |offers|
    ensures RelationTableOf(before + offers[..i + 1]) ==
            match RelationTableOf(before + offers[..i])
            case None => None
            case Some(table) => if Clashes(table, offers[i]) then None else Some(Offer(table, offers[i]))
  {
    TableAppends(before + offers[..i], offers[i]);
    assert before + offers[..i + 1] == before + offers[..i] + [offers[i]];
  }

  lemma RefusedOffer(before: seq<Access>, offers: seq<Access>, i: nat)
    requires i <= |offers| && RelationTableOf(before + offers[..i]).None?
    ensures RelationTableOf(before + offers).None?
  {
    FailureLasts(before + offers[..i], offers[i..]);
    assert before + offers[..i] + offers[i..] == before + offers;
  }

  lemma {:induction false} FailureLasts(offers: seq<Access>, more: seq<Access>)
    requires RelationTableOf(offers).None?
    ensures RelationTableOf(offers + more).None?
  {
    if more == [] {
      assert offers + more == offers;
    } else {
      var n := |more| - 1;
      FailureLasts(offers, more[..n]);
      assert offers + more == offers + more[..n] + [more[n]];
      TableAppends(offers + more[..n], more[n]);
    }
  }

  /** The table maps each name claimed by the fields so far to the position of a field that claims it. */
  ghost predicate Holds(table: map<string, nat>, names: Field -> seq<string>, fields: seq<Field>) {
    && (forall name :: name in table ==> table[name] < |fields| && name in names(fields[table[name]]))
    && (forall i, name :: 0 <= i < |fields| && name in names(fields[i]) ==> name in table)
  }

  /** Claim the names of the next field, unless an earlier field holds one of them. */
  method Claim(table: map<string, nat>, own: seq<string>, ghost names: Field -> seq<string>, ghost fields: seq<Field>,
               next: nat)
    returns (r: Option<map<string, nat>>)
    requires next < |fields| && own == names(fields[next]) && Holds(table, names, fields[..next])
    ensures r.Some? ==> Holds(r.value, names, fields[..next + 1])
    ensures r.Some? <==> Unclaimed(names, fields, next)
  {
    var current := table;
    for k := 0 to |own|
      invariant forall name :: name in table ==> name in current && current[name] == table[name]
      invariant forall name :: name in current ==> name in table || (current[name] == next && name in own[..k])
      invariant forall m :: 0 <= m < k ==> own[m] in current && own[m] !in table
    {
      if own[k] in current && current[own[k]] != next {
        assert fields[..next][table[own[k]]] == fields[table[own[k]]];
        return None;
      }
      current := current[own[k] := next];
    }
    forall j | 0 <= j < next ensures Disjoint(names(fields[j]), own) {
      assert fields[..next][j] == fields[j];
      assert forall name :: name in names(fields[j]) ==> name in table;
    }
    assert Holds(current, names, fields[..next + 1]) by {
      forall name | name in current
        ensures current[name] < next + 1 && name in names(fields[..next + 1][current[name]])
      {
        assert name in table ==> fields[..next][table[name]] == fields[..next + 1][table[name]];
      }
      var claimed := fields[..next + 1];
      forall i, name | 0 <= i < |claimed| && name in names(claimed[i]) ensures name in current {
        assert i < next ==> fields[..next][i] == claimed[i];
      }
    }
    return Some(current);
  }

  /** The fields so far claim different names of this sort, all of them in the table. */
  ghost predicate Registered(table: map<string, nat>, names: Field -> seq<string>, fields: seq<Field>, n: nat)
    requires n <= |fields|
  {
    Holds(table, names, fields[..n]) && AllUnclaimed(names, fields, n)
  }

  /** Claim the names of one sort for the next field. */
  method ClaimNext(table: map<string, nat>, own: seq<string>, ghost names: Field -> seq<string>,
                   ghost fields: seq<Field>, n: nat)
    returns (r: Option<map<string, nat>>)
    requires n < |fields| && own == names(fields[n]) && Registered(table, names, fields, n)
    ensures r.Some? ==> Registered(r.value, names, fields, n + 1)
    ensures r.None? ==> !AllUnclaimed(names, fields, |fields|)
  {
    r := Claim(table, own, names, fields, n);
  }

  /** The claims as a table of fields. */
  method ServeClaims(table: map<string, nat>, fields: seq<Field>, ghost names: Field -> seq<string>)
    returns (served: map<string, Field>)
    requires Registered(table, names, fields, |fields|)
    ensures Serves(served, names, fields)
  {
    assert fields[..|fields|] == fields;
    served := map name | name in table :: fields[table[name]];
    forall f, name | f in fields && name in names(f) ensures name in served && served[name] == f {
      var i :| 0 <= i < |fields| && fields[i] == f;
      ClaimedOnce(names, fields, i, table[name], name);
    }
  }

  lemma NotClaimedLater(names: Field -> seq<string>, fields: seq<Field>, i: nat, j: nat, name: string)
    requires i < j < |fields| && AllUnclaimed(names, fields, |fields|) && name in names(fields[i])
    ensures name !in names(fields[j])
  {
    assert Unclaimed(names, fields, j) && Disjoint(names(fields[i]), names(fields[j]));
  }

  lemma ClaimedOnce(names: Field -> seq<string>, fields: seq<Field>, i: nat, j: nat, name: string)
    requires i < |fields| && j < |fields| && AllUnclaimed(names, fields, |fields|)
    requires name in names(fields[i]) && name in names(fields[j])
    ensures i == j
  {
    if i < j {
      NotClaimedLater(names, fields, i, j, name);
    } else if j < i {
      NotClaimedLater(names, fields, j, i, name);
    }
  }

  /** The tables of query names, attnames and accessors, or nothing when one is claimed twice. */
  method RegisterNames(fields: seq<Field>)
    returns (r: Option<(map<string, Field>, map<string, Field>, map<string, Field>)>)
    ensures r.Some? <==> NamesDistinct(fields)
    ensures r.Some? ==>
              Serves(r.value.0, QueryNames, fields) && Serves(r.value.1, Attnames, fields)
              && Serves(r.value.2, AccessorNames, fields)
  {
    var queries: map<string, nat>, attnames: map<string, nat>, accessors: map<string, nat> := map[], map[], map[];
    for i := 0 to |fields|
      invariant Registered(queries, QueryNames, fields, i)
      invariant Registered(attnames, Attnames, fields, i)
      invariant Registered(accessors, AccessorNames, fields, i)
    {
      var q := ClaimNext(queries, QueryNames(fields[i]), QueryNames, fields, i);
      var a := ClaimNext(attnames, Attnames(fields[i]), Attnames, fields, i);
      var c := ClaimNext(accessors, AccessorNames(fields[i]), AccessorNames, fields, i);
      if q.None? || a.None? || c.None? {
        return None;
      }
      queries, attnames, accessors := q.value, a.value, c.value;
    }
    var byQuery := ServeClaims(queries, fields, QueryNames);
    var byAttname := ServeClaims(attnames, fields, Attnames);
    var byAccessor := ServeClaims(accessors, fields, AccessorNames);
    return Some((byQuery, byAttname, byAccessor));
  }

  /** Map iteration comes in any order; sorting makes it irrelevant. */
  method SortedFieldNames(m: Model) returns (names: seq<string>)
    ensures SortedNames(m, names)
  {
    var keys := m.fields.Keys;
    var collected := [];
    while keys != {}
      invariant keys <= m.fields.Keys
      invariant forall name :: name in collected <==> name in m.fields.Keys - keys
      invariant Distinct(collected)
    {
      var name :| name in keys;
      assert name !in collected;
      keys := keys - {name};
      collected := collected + [name];
    }
    names := Sort(Less, collected);
    SameElements(names, collected);
    StringOrder();
    forall x, y | x in collected && y in collected && x != y ensures Less(x, y) || Less(y, x) {
      LessTotal(x, y);
    }
    SortAscending(Less, collected);
  }

  method SortAccesses(accesses: seq<Access>, ghost table: Table) returns (ordered: seq<Access>)
    requires Mirrors(accesses, table)
    ensures Lists(ordered, table)
  {
    ordered := Sort(AccessLess, accesses);
    SameElements(ordered, accesses);
    AccessOrder();
    forall a, b | a in accesses && b in accesses && a != b ensures AccessLess(a, b) || AccessLess(b, a) {
      TableEntries(table, a, b);
    }
    assert Distinct(accesses);
    SortAscending(AccessLess, accesses);
  }

  /** The entries of a table, visited in any order, then sorted. */
  method OrderTable(table: Table) returns (ordered: seq<Access>)
    requires forall name :: name in table ==> table[name].name == name
    ensures Lists(ordered, table)
  {
    var keys := table.Keys;
    var collected: seq<Access> := [];
    while keys != {}
      invariant keys <= table.Keys
      invariant forall i, j :: 0 <= i < j < |collected| ==> collected[i].name != collected[j].name
      invariant forall a :: a in collected <==> a.name in table.Keys - keys && table[a.name] == a
    {
      var name :| name in keys;
      keys := keys - {name};
      collected := collected + [table[name]];
    }
    ordered := SortAccesses(collected, table);
  }

  lemma RelationOffersStep(context: RelationContext, fields: seq<Field>, i: nat)
    requires i < |fields|
    ensures RelationOffersOf(context, fields[..i + 1]) == RelationOffersOf(context, fields[..i])
                                                          + RelationOffers(context, fields[i])
  {
    assert fields[..i + 1][..i] == fields[..i];
  }

  lemma ContestLasts(context: RelationContext, fields: seq<Field>, i: nat)
    requires i <= |fields| && RelationTableOf(RelationOffersOf(context, fields[..i])).None?
    ensures RelationTableOf(RelationOffersOf(context, fields)).None?
  {
    OffersPrefix(RelationOfferer(context), fields, i);
    var failed, all := RelationOffersOf(context, fields[..i]), RelationOffersOf(context, fields);
    FailureLasts(failed, all[|failed|..]);
    assert all == failed + all[|failed|..];
  }

  /** One table per relation context, or nothing when a name is contested. */
  method BuildRelations(context: RelationContext, fields: seq<Field>) returns (table: Option<Table>)
    ensures table == RelationTableOf(RelationOffersOf(context, fields))
  {
    var current: Table := map[];
    for i := 0 to |fields|
      invariant RelationTableOf(RelationOffersOf(context, fields[..i])) == Some(current)
    {
      RelationOffersStep(context, fields, i);
      table := AddRelations(current, RelationOffers(context, fields[i]), RelationOffersOf(context, fields[..i]));
      if table.None? {
        ContestLasts(context, fields, i + 1);
        return;
      }
      current := table.value;
    }
    assert fields[..|fields|] == fields;
    return Some(current);
  }

  method BuildAccess(offers: Field -> seq<Access>, fields: seq<Field>) returns (ordered: seq<Access>, table: Table)
    ensures table == TableOf(OffersOf(offers, fields)) && Lists(ordered, table)
  {
    var accesses: seq<Access> := [];
    table := map[];
    for i := 0 to |fields|
      invariant table == TableOf(OffersOf(offers, fields[..i])) && Mirrors(accesses, table)
    {
      assert fields[..i + 1][..i] == fields[..i];
      accesses, table := AddAccesses(accesses, table, offers(fields[i]), OffersOf(offers, fields[..i]));
    }
    assert fields[..|fields|] == fields;
    ordered := SortAccesses(accesses, table);
  }

  method BuildRelationIndex(context: RelationContext, fields: seq<Field>) returns (r: Option<(Table, seq<Access>)>)
    ensures r.Some? <==> OneFieldPerName(RelationOffersOf(context, fields))
    ensures r.Some? ==> IsRelationIndex(r.value.0, r.value.1, context, fields)
  {
    RelationTableHoldsWinners(RelationOffersOf(context, fields));
    TableHoldsWinners(RelationOffersOf(context, fields));
    var table := BuildRelations(context, fields);
    if table.None? {
      return None;
    }
    var ordered := OrderTable(table.value);
    return Some((table.value, ordered));
  }

  /** The index of a model, or nothing when two of its fields claim the same name. */
  method BuildModelIndex(m: Model) returns (r: Option<ModelIndex>)
    requires ValidFields(m)
    ensures r.Some? <==> ModelIndexable(m)
    ensures r.Some? ==> IsIndex(r.value, m)
  {
    var names := SortedFieldNames(m);
    r := IndexFields(m, SortedFields(m, names));
    IndexableEitherWay(m, SortedFields(m, names));
  }

  method IndexFields(m: Model, fields: seq<Field>) returns (r: Option<ModelIndex>)
    ensures r.Some? <==> Indexable(fields)
    ensures r.Some? ==> IsIndexOf(r.value, m, fields)
  {
    var registered := RegisterNames(fields);
    if registered.None? {
      return None;
    }
    var query := BuildRelationIndex(ForQuery, fields);
    var select := BuildRelationIndex(ForSelectRelated, fields);
    var prefetch := BuildRelationIndex(ForPrefetchRelated, fields);
    if query.None? || select.None? || prefetch.None? {
      return None;
    }
    var queryAccess, queryByName := BuildAccess(QueryOffers, fields);
    var instanceAccess, instanceByName := BuildAccess(InstanceOffers, fields);
    var (queries, attnames, accessors) := registered.value;
    r := Some(ModelIndex(m, m.fields, queries, attnames, accessors, queryByName, instanceByName,
                         PerContext(query.value.0, select.value.0, prefetch.value.0),
                         queryAccess, instanceAccess, PerContext(query.value.1, select.value.1, prefetch.value.1)));
  }
}
