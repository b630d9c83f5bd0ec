/** Completion, hover and validation agree, on every graph that can be built. */
module PathTheorems {
  import opened Prelude
  import opened Ordering
  import opened Schema
  import opened SchemaIndex
  import opened SchemaGraph
  import opened PathResolver

  // ---------------------------------------------------------------------------------------------
  // What a built graph guarantees
  // ---------------------------------------------------------------------------------------------

  predicate NamesItself(table: Table) {
    forall name :: name in table ==> name != "" && table[name].name == name
  }

  predicate BoundedPaths(f: Field) {
    forall i :: 0 <= i < |f.lookupPaths| ==> |f.lookupPaths[i].transforms| <= MAX_LOOKUP_DEPTH
  }

  ghost predicate WellListed(ordered: seq<Access>, table: Table) {
    Lists(ordered, table) && NamesItself(table)
  }

  ghost predicate WellIndexed(g: Graph) {
    forall l :: l in g.canonical ==> IndexWell(g.canonical[l])
  }

  ghost predicate IndexWell(index: ModelIndex) {
    && WellListed(index.queryAccess, index.queryByName)
    && WellListed(index.relationsOrdered.selectRelated, index.relations.selectRelated)
    && WellListed(index.relationsOrdered.prefetchRelated, index.relations.prefetchRelated)
    && forall name :: name in index.queryByName ==> BoundedPaths(index.queryByName[name].field)
  }

  ghost predicate Built(g: Graph) {
    exists s :: Accepts(s) && Describes(Records(s, s.apps.Keys), g)
  }

  lemma TableNamesItself(offers: seq<Access>)
    ensures NamesItself(TableOf(offers))
  {
    TableHoldsWinners(offers);
  }

  lemma FieldsAreBounded(m: Model, names: seq<string>, f: Field)
    requires ValidFields(m) && SortedNames(m, names) && f in SortedFields(m, names)
    ensures BoundedPaths(f)
  {
    var i :| 0 <= i < |names| && m.fields[names[i]] == f;
    assert names[i] in names;
    assert ValidField(names[i], f);
    assert forall k :: 0 <= k < |f.lookupPaths| ==> ValidLookupPath(f.lookupPaths[k]);
  }

  lemma QueryFieldsAreOffered(fields: seq<Field>, name: string)
    requires name in TableOf(QueryOffersOf(fields))
    ensures TableOf(QueryOffersOf(fields))[name].field in fields
  {
    var offers := QueryOffersOf(fields);
    TableHoldsWinners(offers);
    var a := TableOf(offers)[name];
    assert a in offers;
    var f := OffersComeFromFields(QueryOffers, fields, a);
    OffersAreOwn(f, a);
  }

  lemma OffersAreOwn(f: Field, a: Access)
    requires a in QueryOffers(f)
    ensures a.field == f
  {
  }

  lemma IndexIsWell(index: ModelIndex, m: Model)
    requires ValidFields(m) && IsIndex(index, m)
    ensures IndexWell(index)
  {
    var names :| SortedNames(m, names) && IsIndexOf(index, m, SortedFields(m, names));
    var fields := SortedFields(m, names);
    TableNamesItself(QueryOffersOf(fields));
    TableNamesItself(RelationOffersOf(ForSelectRelated, fields));
    TableNamesItself(RelationOffersOf(ForPrefetchRelated, fields));
    forall name | name in index.queryByName ensures BoundedPaths(index.queryByName[name].field) {
      QueryFieldsAreOffered(fields, name);
      FieldsAreBounded(m, names, index.queryByName[name].field);
    }
  }

  lemma DescribedIsWell(records: set<Record>, g: Graph, l: string)
    requires Registrable(records) && HasLabels(records, g.canonical.Keys)
             && LeadsToIndexes(records, g.canonical, IsIndex)
    requires l in g.canonical
    ensures IndexWell(g.canonical[l])
  {
    var r :| r in records && r.CanonicalLabel() == l;
    assert Sound(r) && ValidFields(r.model);
    var index := g.canonical[l];
    assert IsIndex(index, r.model);
    IndexIsWell(index, r.model);
  }

  lemma BuiltIsWellIndexed(g: Graph)
    requires Built(g)
    ensures WellIndexed(g)
  {
    var s :| Accepts(s) && Describes(Records(s, s.apps.Keys), g);
    forall l | l in g.canonical ensures IndexWell(g.canonical[l]) {
      DescribedIsWell(Records(s, s.apps.Keys), g, l);
    }
  }

  // ---------------------------------------------------------------------------------------------
  // States that a walk reaches
  // ---------------------------------------------------------------------------------------------

  /** The transforms applied so far begin a listed lookup path of bounded length. */
  ghost predicate Listed(f: Field, transforms: seq<string>) {
    BoundedPaths(f) && (transforms == [] || exists i :: 0 <= i < |f.lookupPaths|
                                                        && transforms <= f.lookupPaths[i].transforms)
  }

  ghost predicate Reachable(s: State) {
    && (s.model != "" && s.relationField.None? ==> s.field.None?)
    && (s.Subject().Some? ==> Listed(s.Subject().value, s.transforms))
    && (s.transforms != [] ==> s.field.Some?)
  }

  lemma {:induction false} DecisionIsListed(f: Field, paths: seq<LookupPath>, prefix: seq<string>, name: string,
                                            lookups: bool)
    requires Decision(f, paths, prefix, name, lookups) == Some(TransformCandidate)
    ensures exists i :: 0 <= i < |paths| && prefix + [name] <= paths[i].transforms
  {
    var k := |paths| - 1;
    if Decision(f, paths[..k], prefix, name, lookups).Some? {
      DecisionIsListed(f, paths[..k], prefix, name, lookups);
      var i :| 0 <= i < k && prefix + [name] <= paths[..k][i].transforms;
      assert paths[i] == paths[..k][i];
    } else {
      assert prefix + [name] <= paths[k].transforms;
    }
  }

  lemma SuffixIsListed(f: Field, prefix: seq<string>, name: string, mode: PathMode, hasMore: bool)
    requires Listed(f, prefix) && Suffix(Some(f), prefix, name, mode, hasMore).Some?
    ensures Listed(f, Suffix(Some(f), prefix, name, mode, hasMore).value.1)
  {
    var lookups := mode.PathLookup? && !hasMore;
    if Decision(f, f.lookupPaths, prefix, name, lookups) == Some(TransformCandidate) {
      DecisionIsListed(f, f.lookupPaths, prefix, name, lookups);
    } else if Decision(f, f.lookupPaths, prefix, name, lookups).None? {
      var i :| 0 <= i < |f.lookupPaths| && Continues(f.lookupPaths[i], prefix, "*");
      assert prefix + ["*"] <= f.lookupPaths[i].transforms;
    }
  }

  lemma ConsumeReaches(g: Graph, mode: PathMode, s: State, segment: PathSegment, hasMore: bool)
    requires WellIndexed(g) && Reachable(s) && Consume(g, mode, s, segment, hasMore).Some?
    ensures Reachable(Consume(g, mode, s, segment, hasMore).value.0)
  {
    if !mode.OnRelations() {
      var access := if s.model == "" then None else QueryAccess(g, s.model, segment.text);
      if access.Some? {
        assert IndexWell(g.canonical[s.model]);
      } else {
        SuffixIsListed(s.Subject().value, s.transforms, segment.text, mode, hasMore);
      }
    }
  }

  ghost predicate ReachableIfAny(s: Option<State>) {
    match s
    case None => true
    case Some(state) => Reachable(state)
  }

  /** One step on, if there is one. */
  function Onward(g: Graph, mode: PathMode, s: Option<State>, segment: PathSegment, hasMore: bool): Option<State> {
    if s.None? then None else Next(Consume(g, mode, s.value, segment, hasMore))
  }

  lemma OnwardReaches(g: Graph, mode: PathMode, s: Option<State>, segment: PathSegment, hasMore: bool)
    requires WellIndexed(g) && ReachableIfAny(s)
    ensures ReachableIfAny(Onward(g, mode, s, segment, hasMore))
  {
    if s.Some? && Consume(g, mode, s.value, segment, hasMore).Some? {
      ConsumeReaches(g, mode, s.value, segment, hasMore);
    }
  }

  lemma WalkOnward(g: Graph, mode: PathMode, model: string, segments: seq<PathSegment>, n: nat)
    requires 0 < n <= |segments|
    ensures Walk(g, mode, model, segments, n) ==
            Onward(g, mode, Walk(g, mode, model, segments, n - 1), segments[n - 1], n < |segments|)
  {
  }

  lemma WalkReachesOn(g: Graph, mode: PathMode, model: string, segments: seq<PathSegment>, n: nat)
    requires WellIndexed(g) && 0 < n <= |segments| && ReachableIfAny(Walk(g, mode, model, segments, n - 1))
    ensures ReachableIfAny(Walk(g, mode, model, segments, n))
  {
    OnwardReaches(g, mode, Walk(g, mode, model, segments, n - 1), segments[n - 1], n < |segments|);
    WalkOnward(g, mode, model, segments, n);
  }

  lemma {:induction false} WalkReaches(g: Graph, mode: PathMode, model: string, segments: seq<PathSegment>, n: nat)
    requires WellIndexed(g) && n <= |segments|
    ensures ReachableIfAny(Walk(g, mode, model, segments, n))
  {
    if n > 0 {
      WalkReaches(g, mode, model, segments, n - 1);
      WalkReachesOn(g, mode, model, segments, n);
    }
  }

  /** Transforms consumed on the way to any segment always begin a listed lookup path of at most two. */
  lemma TransformsAreListed(g: Graph, mode: PathMode, model: string, segments: seq<PathSegment>, n: nat)
    requires Built(g) && n <= |segments| && Walk(g, mode, model, segments, n).Some?
    ensures
      var s := Walk(g, mode, model, segments, n).value;
      && |s.transforms| <= MAX_LOOKUP_DEPTH
      && (s.transforms != [] ==>
            && s.field.Some?
            && exists i :: 0 <= i < |s.field.value.lookupPaths|
                           && s.transforms <= s.field.value.lookupPaths[i].transforms)
  {
    BuiltIsWellIndexed(g);
    WalkReaches(g, mode, model, segments, n);
  }

  // ---------------------------------------------------------------------------------------------
  // Completion and acceptance
  // ---------------------------------------------------------------------------------------------

  /** The first offer of this name. */
  function FirstNamed(offers: seq<Candidate>, name: string): Option<Candidate> {
    if offers == [] then None
    else
      var earlier := FirstNamed(offers[..|offers| - 1], name);
      var last := offers[|offers| - 1];
      if earlier.Some? then earlier else if last.name == name then Some(last) else None
  }

  lemma {:induction false} FirstNamedOfBoth(a: seq<Candidate>, b: seq<Candidate>, name: string)
    ensures FirstNamed(a + b, name) == if FirstNamed(a, name).Some? then FirstNamed(a, name) else FirstNamed(b, name)
  {
    if b == [] {
      assert a + b == a;
    } else {
      FirstNamedOfBoth(a, b[..|b| - 1], name);
      assert (a + b)[..|a + b| - 1] == a + b[..|b| - 1];
    }
  }

  lemma {:induction false} NamedIsIn(offers: seq<Candidate>, name: string)
    ensures FirstNamed(offers, name).Some? <==> name in Names(offers)
    ensures FirstNamed(offers, name).Some? ==> FirstNamed(offers, name).value in offers
                                               && FirstNamed(offers, name).value.name == name
  {
    if offers != [] {
      NamedIsIn(offers[..|offers| - 1], name);
      assert offers == offers[..|offers| - 1] + [offers[|offers| - 1]];
    }
  }

  /** Dropping repetitions keeps the first offer of each name that is not taken. */
  lemma {:induction false} FirstOfEachNamed(taken: set<string>, offers: seq<Candidate>, name: string)
    ensures FirstNamed(FirstOfEach(taken, offers), name) == if name in taken then None else FirstNamed(offers, name)
  {
    if offers != [] {
      var init, last := offers[..|offers| - 1], offers[|offers| - 1];
      var kept := FirstOfEach(taken, init);
      FirstOfEachNamed(taken, init, name);
      NamedIsIn(kept, name);
      assert (kept + [last])[..|kept|] == kept;
    }
  }

  lemma AccessNamed(mode: PathMode, ordered: seq<Access>, table: Table, name: string)
    requires WellListed(ordered, table)
    ensures FirstNamed(AccessOffers(mode, ordered), name).Some? <==> name in table
    ensures name in table ==>
              var c := FirstNamed(AccessOffers(mode, ordered), name).value;
              c.name == name && c.kind == FieldCandidate && c.field == table[name].field
  {
    var offers := AccessOffers(mode, ordered);
    NamedIsIn(offers, name);
    forall i | 0 <= i < |offers| ensures offers[i].name in table && table[offers[i].name] == ordered[i] {
      assert ordered[i] in ordered;
    }
    if name in table {
      assert table[name] in ordered;
      var i :| 0 <= i < |ordered| && ordered[i] == table[name];
      assert offers[i].name == name;
    }
  }

  lemma {:induction false} LookupNamed(f: Field, lookups: seq<string>, name: string)
    ensures FirstNamed(LookupOffers(f, lookups), name) ==
            if name in lookups && (f.isRelation ==> IsRelationLookup(name)) then Some(Candidate(name, LookupCandidate,
                                                                                                f, 2)) else None
  {
    if lookups != [] {
      var init, last := lookups[..|lookups| - 1], lookups[|lookups| - 1];
      LookupNamed(f, init, name);
      FirstNamedOfBoth(LookupOffers(f, init), [Candidate(last, LookupCandidate, f, 2)], name);
      assert lookups == init + [last];
    }
  }

  lemma FirstNamedOne(c: Candidate, name: string)
    ensures FirstNamed([c], name) == if c.name == name then Some(c) else None
  {
    assert [c][..0] == [];
  }

  function Offer(f: Field, name: string, kind: CandidateKind): Candidate {
    Candidate(name, kind, f, if kind.TransformCandidate? then 1 else 2)
  }

  /** What one path offers is what it accepts, except that "*" is not offered as a transform. */
  lemma PathNamed(f: Field, path: LookupPath, prefix: seq<string>, mode: PathMode, name: string)
    ensures FirstNamed(PathOffers(f, path, prefix, mode), name) ==
            var kind := PathDecision(f, path, prefix, name, mode.PathLookup?);
            if kind.None? || (kind.value.TransformCandidate? && name == "*") then None else Some(Offer(f, name,
                                                                                                       kind.value))
  {
    if prefix <= path.transforms {
      assert path.transforms[..|prefix|] == prefix;
      if |path.transforms| > |prefix| {
        FirstNamedOne(Candidate(path.transforms[|prefix|], TransformCandidate, f, 1), name);
      } else {
        assert path.transforms == prefix;
        LookupNamed(f, path.lookups, name);
      }
    }
  }

  lemma {:induction false} SuffixNamed(f: Field, paths: seq<LookupPath>, prefix: seq<string>, mode: PathMode,
                                       name: string)
    requires name != "*"
    ensures FirstNamed(SuffixOffers(f, paths, prefix, mode), name) ==
            var kind := Decision(f, paths, prefix, name, mode.PathLookup?);
            if kind.None? then None else Some(Offer(f, name, kind.value))
  {
    if paths != [] {
      var k := |paths| - 1;
      SuffixNamed(f, paths[..k], prefix, mode, name);
      PathNamed(f, paths[k], prefix, mode, name);
      FirstNamedOfBoth(SuffixOffers(f, paths[..k], prefix, mode), PathOffers(f, paths[k], prefix, mode), name);
    }
  }

  predicate StarLookup(f: Field, paths: seq<LookupPath>, prefix: seq<string>, mode: PathMode) {
    mode.PathLookup? && exists i :: 0 <= i < |paths| && HasLookup(f, paths[i], prefix, "*")
  }

  lemma {:induction false} StarNamed(f: Field, paths: seq<LookupPath>, prefix: seq<string>, mode: PathMode)
    ensures FirstNamed(SuffixOffers(f, paths, prefix, mode), "*") ==
            if StarLookup(f, paths, prefix, mode) then Some(Offer(f, "*", LookupCandidate)) else None
    ensures Decision(f, paths, prefix, "*", mode.PathLookup?) == Some(LookupCandidate) ==>
              StarLookup(f, paths, prefix, mode)
    ensures Decision(f, paths, prefix, "*", mode.PathLookup?).None? ==> !StarLookup(f, paths, prefix, mode)
                                                                        && !HasWildcard(paths, prefix)
  {
    if paths != [] {
      var k := |paths| - 1;
      var init := paths[..k];
      StarNamed(f, init, prefix, mode);
      PathNamed(f, paths[k], prefix, mode, "*");
      FirstNamedOfBoth(SuffixOffers(f, init, prefix, mode), PathOffers(f, paths[k], prefix, mode), "*");
      assert forall i :: 0 <= i < k ==> paths[i] == init[i];
      assert StarLookup(f, paths, prefix, mode) <==> StarLookup(f, init, prefix, mode)
                                                     || (mode.PathLookup? && HasLookup(f, paths[k], prefix, "*"));
    }
  }

  /** What the resolver takes the name for as the last segment, not counting the "*" key. */
  function Accepted(g: Graph, mode: PathMode, s: State, name: string): Option<(CandidateKind, Field)> {
    match Consume(g, mode, s, PathSegment(name, 0, 0), false)
    case None => None
    case Some((next, resolved)) =>
      if resolved.kind.TransformCandidate? && next.transforms != []
         && next.transforms[|next.transforms| - 1] == "*" then None
      else Some((resolved.kind, resolved.field))
  }

  /** What completion offers the name as. */
  function Offered(g: Graph, mode: PathMode, s: State, name: string): Option<(CandidateKind, Field)> {
    match FirstNamed(StateCandidates(g, mode, s), name)
    case None => None
    case Some(c) => Some((c.kind, c.field))
  }

  /** A lookup literally named "*" hides behind a "*" key that an earlier path continues with. */
  predicate Shadowed(g: Graph, mode: PathMode, s: State, name: string) {
    && name == "*" && mode.PathLookup?
    && (s.model == "" || QueryAccess(g, s.model, name).None?)
    && s.Subject().Some?
    && var f := s.Subject().value;
    && Decision(f, f.lookupPaths, s.transforms, "*", true) == Some(TransformCandidate)
    && StarLookup(f, f.lookupPaths, s.transforms, mode)
  }

  /** "*" is offered only as a lookup. */
  function StarOffer(f: Field, prefix: seq<string>, mode: PathMode): Option<Candidate> {
    if StarLookup(f, f.lookupPaths, prefix, mode) then Some(Offer(f, "*", LookupCandidate)) else None
  }

  lemma SuffixOffered(f: Field, prefix: seq<string>, mode: PathMode, name: string)
    ensures FirstNamed(SuffixCandidates(f, prefix, mode), name) ==
            if mode.PathFields? then None
            else if name == "*" then StarOffer(f, prefix, mode)
            else
              var kind := Decision(f, f.lookupPaths, prefix, name, mode.PathLookup?);
              if kind.None? then None else Some(Offer(f, name, kind.value))
  {
    if !mode.PathFields? {
      FirstOfEachNamed({}, SuffixOffers(f, f.lookupPaths, prefix, mode), name);
      if name == "*" {
        StarNamed(f, f.lookupPaths, prefix, mode);
      } else {
        SuffixNamed(f, f.lookupPaths, prefix, mode, name);
      }
    }
  }

  lemma FieldOffered(g: Graph, mode: PathMode, s: State, name: string)
    requires WellIndexed(g) && !mode.OnRelations() && s.model != ""
    ensures
      var c := FirstNamed(AccessOffers(mode, QueryFields(g, s.model)), name);
      && (c.Some? <==> QueryAccess(g, s.model, name).Some?)
      && (c.Some? ==> c.value.kind == FieldCandidate && c.value.field == QueryAccess(g, s.model, name).value.field
                      && name != "")
  {
    if s.model in g.canonical {
      var index := g.canonical[s.model];
      assert IndexWell(index);
      AccessNamed(mode, index.queryAccess, index.queryByName, name);
    }
  }

  lemma RelationOffered(g: Graph, mode: PathMode, s: State, name: string)
    requires WellIndexed(g) && mode.OnRelations()
    ensures Offered(g, mode, s, name) == Accepted(g, mode, s, name)
  {
    FirstOfEachNamed({""}, StateOffers(g, mode, s), name);
    if s.model in g.canonical {
      ListedRelation(g.canonical[s.model], mode, name);
    }
  }

  lemma ListedRelation(index: ModelIndex, mode: PathMode, name: string)
    requires IndexWell(index) && mode.OnRelations()
    ensures
      var c := FirstNamed(AccessOffers(mode, index.relationsOrdered.At(mode.Context())), name);
      var table := index.relations.At(mode.Context());
      && (c.Some? <==> name in table)
      && (c.Some? ==> c.value.kind == FieldCandidate && c.value.field == table[name].field && name != "")
  {
    AccessNamed(mode, index.relationsOrdered.At(mode.Context()), index.relations.At(mode.Context()), name);
  }

  /** The suffix part of acceptance, spelled out. */
  lemma SuffixAccepted(f: Field, prefix: seq<string>, mode: PathMode, name: string)
    ensures
      var r := Suffix(Some(f), prefix, name, mode, false);
      var kind := Decision(f, f.lookupPaths, prefix, name, mode.PathLookup?);
      if mode.PathFields? then r.None?
      else if kind == Some(LookupCandidate) then r == Some((LookupCandidate, prefix))
      else if kind.Some? then r == Some((TransformCandidate, prefix + [name]))
      else r.Some? ==> r == Some((TransformCandidate, prefix + ["*"]))
  {
  }

  /** The field that the model itself has under this name. */
  function OwnField(g: Graph, s: State, name: string): Option<Field> {
    if s.model != "" && QueryAccess(g, s.model, name).Some? then Some(QueryAccess(g, s.model, name).value.field)
    else None
  }

  lemma OfferedForm(g: Graph, mode: PathMode, s: State, name: string)
    requires WellIndexed(g) && !mode.OnRelations()
    ensures Offered(g, mode, s, name) ==
            if name == "" then None
            else if OwnField(g, s, name).Some? then Some((FieldCandidate, OwnField(g, s, name).value))
            else if s.Subject().None? then None
            else
              match FirstNamed(SuffixCandidates(s.Subject().value, s.transforms, mode), name)
              case None => None
              case Some(c) => Some((c.kind, c.field))
  {
    var fields := if s.model != "" then AccessOffers(mode, QueryFields(g, s.model)) else [];
    var suffixes := if s.Subject().Some? then SuffixCandidates(s.Subject().value, s.transforms, mode) else [];
    FirstOfEachNamed({""}, StateOffers(g, mode, s), name);
    FirstNamedOfBoth(fields, suffixes, name);
    if s.model != "" {
      FieldOffered(g, mode, s, name);
    }
  }

  lemma AcceptedForm(g: Graph, mode: PathMode, s: State, name: string)
    requires Reachable(s) && !mode.OnRelations()
    ensures Accepted(g, mode, s, name) ==
            if name == "" then None
            else if OwnField(g, s, name).Some? then Some((FieldCandidate, OwnField(g, s, name).value))
            else if s.Subject().None? then None
            else
              match Suffix(s.Subject(), s.transforms, name, mode, false)
              case None => None
              case Some((kind, transforms)) =>
                if kind.TransformCandidate? && transforms != [] && transforms[|transforms| - 1] == "*" then None
                else Some((kind, s.Subject().value))
  {
  }

  /**
   From any reachable state, completion offers a name exactly as the resolver accepts it as the
   last segment other than through the "*" key, with the same kind and field. The one exception is
   a shadowed lookup: it is offered but not accepted.
   */
  lemma OfferedAsAccepted(g: Graph, mode: PathMode, s: State, name: string)
    requires WellIndexed(g) && Reachable(s)
    ensures Offered(g, mode, s, name) == Accepted(g, mode, s, name) <==> !Shadowed(g, mode, s, name)
    ensures Shadowed(g, mode, s, name) ==>
              Offered(g, mode, s, name) == Some((LookupCandidate, s.Subject().value))
              && Accepted(g, mode, s, name).None?
  {
    if mode.OnRelations() {
      RelationOffered(g, mode, s, name);
    } else {
      OfferedForm(g, mode, s, name);
      AcceptedForm(g, mode, s, name);
      if s.Subject().Some? {
        var f := s.Subject().value;
        SuffixOffered(f, s.transforms, mode, name);
        SuffixAccepted(f, s.transforms, mode, name);
        StarNamed(f, f.lookupPaths, s.transforms, mode);
      }
    }
  }

  // ---------------------------------------------------------------------------------------------
  // Whole paths
  // ---------------------------------------------------------------------------------------------

  /** Two paths that begin alike and go on are walked alike. */
  lemma {:induction false} WalkShared(g: Graph, mode: PathMode, model: string, a: seq<PathSegment>,
                                      b: seq<PathSegment>, n: nat)
    requires n < |a| && n < |b| && a[..n] == b[..n]
    ensures Walk(g, mode, model, a, n) == Walk(g, mode, model, b, n)
  {
    if n > 0 {
      assert a[..n - 1] == a[..n][..n - 1] == b[..n][..n - 1] == b[..n - 1];
      assert a[n - 1] == a[..n][n - 1] == b[..n][n - 1] == b[n - 1];
      WalkShared(g, mode, model, a, b, n - 1);
    }
  }

  function LastTransform(s: State): string {
    if s.transforms == [] then "" else s.transforms[|s.transforms| - 1]
  }

  /** The whole path is consumed, its last segment not through the "*" key. */
  predicate ConsumedPlainly(g: Graph, mode: PathMode, model: string, path: seq<PathSegment>)
    requires path != []
  {
    && Walk(g, mode, model, path, |path|).Some?
    && Hover(g, model, mode, path, |path| - 1).Some?
    && !(Hover(g, model, mode, path, |path| - 1).value.kind.TransformCandidate?
         && LastTransform(Walk(g, mode, model, path, |path|).value) == "*")
  }

  lemma PlainIsAccepted(g: Graph, mode: PathMode, model: string, path: seq<PathSegment>, s: State, name: string)
    requires path != [] && path[|path| - 1] == PathSegment(name, 0, 0)
    requires Walk(g, mode, model, path, |path| - 1) == Some(s)
    ensures ConsumedPlainly(g, mode, model, path) == Accepted(g, mode, s, name).Some?
  {
    WalkStep(g, mode, model, path, |path| - 1, s);
  }

  /** The completed path is consumed exactly when its last name is accepted. */
  lemma CompletedIsAccepted(g: Graph, model: string, mode: PathMode, segments: seq<PathSegment>, active: nat, s: State,
                            name: string)
    requires active < |segments| && Walk(g, mode, model, segments, active) == Some(s)
    ensures ConsumedPlainly(g, mode, model, segments[..active] + [PathSegment(name, 0, 0)]) == Accepted(g, mode, s,
                                                                                                        name).Some?
  {
    var completed := segments[..active] + [PathSegment(name, 0, 0)];
    assert completed[active] == PathSegment(name, 0, 0) && completed[..active] == segments[..active];
    WalkShared(g, mode, model, segments, completed, active);
    assert Walk(g, mode, model, completed, |completed| - 1) == Some(s);
    PlainIsAccepted(g, mode, model, completed, s, name);
  }

  lemma CompletionAtState(g: Graph, mode: PathMode, s: State, prefix: string, candidates: seq<Candidate>, name: string)
    requires WellIndexed(g) && Reachable(s)
    requires forall c :: c in candidates <==> c in StateCandidates(g, mode, s) && prefix <= c.name
    ensures !Shadowed(g, mode, s, name) ==>
              (name in Names(candidates) <==> prefix <= name && Accepted(g, mode, s, name).Some?)
    ensures Shadowed(g, mode, s, name) ==> (name in Names(candidates) <==> prefix <= name)
                                           && Accepted(g, mode, s, name).None?
  {
    OfferedAsAccepted(g, mode, s, name);
    OfferedNames(StateCandidates(g, mode, s), prefix, candidates, name);
  }

  lemma CompletionOffersAccepted(g: Graph, model: string, mode: PathMode, segments: seq<PathSegment>, active: nat,
                                 candidates: seq<Candidate>, name: string, s: State)
    requires Built(g) && active < |segments| && Walk(g, mode, model, segments, active) == Some(s)
    requires IsCompletion(g, model, mode, segments, active, candidates)
    ensures
      var offered := name in Names(candidates);
      var continues := segments[active].text <= name;
      var accepted := Accepted(g, mode, s, name).Some?;
      if Shadowed(g, mode, s, name) then !accepted && offered == continues else offered == (continues && accepted)
  {
    BuiltIsWellIndexed(g);
    WalkReaches(g, mode, model, segments, active);
    CompletionAtState(g, mode, s, segments[active].text, candidates, name);
  }

  /**
   Completion is complete and sound: after a prefix that can be consumed, a name is offered if and
   only if it continues the active text and the path that ends with it is consumed other than
   through the "*" key; a shadowed lookup is the only name for which this fails.
   */
  lemma CompletionIsAcceptance(g: Graph, model: string, mode: PathMode, segments: seq<PathSegment>, active: nat,
                               candidates: seq<Candidate>, name: string, s: State)
    requires Built(g) && active < |segments| && Walk(g, mode, model, segments, active) == Some(s)
    requires IsCompletion(g, model, mode, segments, active, candidates)
    ensures
      var completed := segments[..active] + [PathSegment(name, 0, 0)];
      var offered := name in Names(candidates);
      var continues := segments[active].text <= name;
      var consumed := ConsumedPlainly(g, mode, model, completed);
      if Shadowed(g, mode, s, name) then !consumed && offered == continues else offered == (continues && consumed)
  {
    CompletionOffersAccepted(g, model, mode, segments, active, candidates, name, s);
    CompletedIsAccepted(g, model, mode, segments, active, s, name);
  }

  lemma OfferedNames(all: seq<Candidate>, prefix: string, candidates: seq<Candidate>, name: string)
    requires forall c :: c in candidates <==> c in all && prefix <= c.name
    ensures name in Names(candidates) <==> prefix <= name && FirstNamed(all, name).Some?
  {
    NamedIsIn(all, name);
  }

  /** Lookups are accepted only as the last segment of a lookup path, and only where they are listed. */
  lemma LookupsComeLast(g: Graph, model: string, mode: PathMode, segments: seq<PathSegment>, t: nat)
    requires t < |segments| && Hover(g, model, mode, segments, t).Some?
    requires Hover(g, model, mode, segments, t).value.kind == LookupCandidate
    ensures t == |segments| - 1 && mode.PathLookup?
    ensures
      var s := Walk(g, mode, model, segments, t).value;
      && s.Subject().Some?
      && var f := s.Subject().value;
      && (exists p :: p in f.lookupPaths && p.transforms == s.transforms && segments[t].text in p.lookups)
      && (f.isRelation ==> segments[t].text in {"exact", "gt", "gte", "in", "isnull", "lt", "lte"})
  {
    var s := Walk(g, mode, model, segments, t).value;
    var f := s.Subject().value;
    DecidedByLookup(f, f.lookupPaths, s.transforms, segments[t].text, mode.PathLookup? && t == |segments| - 1);
    var i :| 0 <= i < |f.lookupPaths| && HasLookup(f, f.lookupPaths[i], s.transforms, segments[t].text);
    assert f.lookupPaths[i] in f.lookupPaths;
  }

  /** And there they are accepted, on relations those that relations allow, unless the model has a field by the name. */
  lemma ListedLookupIsAccepted(g: Graph, model: string, segments: seq<PathSegment>, s: State, p: LookupPath)
    requires segments != [] && Walk(g, PathLookup, model, segments, |segments| - 1) == Some(s)
    requires s.Subject().Some? && p in s.Subject().value.lookupPaths && p.transforms == s.transforms
    requires
      var name := segments[|segments| - 1].text;
      && name != "" && name in p.lookups
      && (s.Subject().value.isRelation ==> name in {"exact", "gt", "gte", "in", "isnull", "lt", "lte"})
      && (s.model == "" || (s.relationField.Some? && QueryAccess(g, s.model, name).None?))
    ensures Hover(g, model, PathLookup, segments, |segments| - 1).Some?
    ensures
      var r := Hover(g, model, PathLookup, segments, |segments| - 1).value;
      && r.field == s.Subject().value
      && (r.kind.LookupCandidate?
          || (r.kind.TransformCandidate?
              && exists q :: q in r.field.lookupPaths
                             && s.transforms + [segments[|segments| - 1].text] <= q.transforms))
  {
    var f, name := s.Subject().value, segments[|segments| - 1].text;
    var i :| 0 <= i < |f.lookupPaths| && f.lookupPaths[i] == p;
    KnownIsDecided(f, f.lookupPaths, s.transforms, name, true, i);
    if Decision(f, f.lookupPaths, s.transforms, name, true) == Some(TransformCandidate) {
      DecisionIsListed(f, f.lookupPaths, s.transforms, name, true);
      var j :| 0 <= j < |f.lookupPaths| && s.transforms + [name] <= f.lookupPaths[j].transforms;
      assert f.lookupPaths[j] in f.lookupPaths;
    }
  }

  lemma {:induction false} KnownIsDecided(f: Field, paths: seq<LookupPath>, prefix: seq<string>, name: string,
                                          lookups: bool, i: nat)
    requires i < |paths| && PathDecision(f, paths[i], prefix, name, lookups).Some?
    ensures Decision(f, paths, prefix, name, lookups).Some?
  {
    var k := |paths| - 1;
    if i < k {
      KnownIsDecided(f, paths[..k], prefix, name, lookups, i);
    }
  }

  lemma {:induction false} DecidedByLookup(f: Field, paths: seq<LookupPath>, prefix: seq<string>, name: string,
                                           lookups: bool)
    requires Decision(f, paths, prefix, name, lookups) == Some(LookupCandidate)
    ensures lookups && exists i :: 0 <= i < |paths| && HasLookup(f, paths[i], prefix, name)
  {
    var k := |paths| - 1;
    if Decision(f, paths[..k], prefix, name, lookups).Some? {
      DecidedByLookup(f, paths[..k], prefix, name, lookups);
      var i :| 0 <= i < k && HasLookup(f, paths[..k][i], prefix, name);
      assert paths[i] == paths[..k][i];
    }
  }

  // ---------------------------------------------------------------------------------------------
  // Validation
  // ---------------------------------------------------------------------------------------------

  lemma RefusedAt(g: Graph, mode: PathMode, model: string, segments: seq<PathSegment>, k: nat)
    requires k < |segments|
    requires Walk(g, mode, model, segments, k).Some? && Walk(g, mode, model, segments, k + 1).None?
    ensures FirstRefused(g, mode, model, segments, 0) == Some(k)
  {
    RefusedFrom(g, mode, model, segments, k);
  }

  /** Hovering stops at the first refused segment. */
  lemma HoverStops(g: Graph, model: string, mode: PathMode, segments: seq<PathSegment>, k: nat, t: nat)
    requires k < |segments| && t < |segments|
    requires Walk(g, mode, model, segments, k).Some? && Walk(g, mode, model, segments, k + 1).None?
    ensures Hover(g, model, mode, segments, t).Some? == (t < k)
  {
    HoverIsWalk(g, model, mode, segments, t);
    if t < k {
      if Walk(g, mode, model, segments, t + 1).None? {
        WalkStops(g, mode, model, segments, t + 1, k);
      }
    } else {
      WalkStops(g, mode, model, segments, k + 1, t + 1);
    }
  }

  /** A reported issue names the first segment that cannot be consumed, where hovering stops as well. */
  lemma IssueNamesFirstRefused(g: Graph, model: string, mode: PathMode, segments: seq<PathSegment>,
                               annotations: seq<string>)
    returns (k: nat)
    requires Validation(g, model, mode, segments, annotations).Some?
    ensures k < |segments| && Validation(g, model, mode, segments, annotations).value.segment == segments[k]
    ensures forall t :: 0 <= t < |segments| ==> Hover(g, model, mode, segments, t).Some? == (t < k)
  {
    k := FirstRefused(g, mode, model, segments, 0).value;
    forall t | 0 <= t < |segments| ensures Hover(g, model, mode, segments, t).Some? == (t < k) {
      HoverStops(g, model, mode, segments, k, t);
    }
  }

  lemma HoverIsWalk(g: Graph, model: string, mode: PathMode, segments: seq<PathSegment>, t: nat)
    requires t < |segments|
    ensures Hover(g, model, mode, segments, t).Some? <==> Walk(g, mode, model, segments, t + 1).Some?
  {
  }

  lemma {:induction false} DecisionWithLookups(f: Field, paths: seq<LookupPath>, prefix: seq<string>, name: string,
                                               lookups: bool)
    requires Decision(f, paths, prefix, name, false).Some?
    ensures Decision(f, paths, prefix, name, lookups).Some?
  {
    var k := |paths| - 1;
    if Decision(f, paths[..k], prefix, name, false).Some? {
      DecisionWithLookups(f, paths[..k], prefix, name, lookups);
    }
  }

  /** What can be followed by more segments can also come last. */
  lemma ConsumedBeforeIsConsumedLast(g: Graph, mode: PathMode, s: State, segment: PathSegment)
    requires Consume(g, mode, s, segment, true).Some?
    ensures Consume(g, mode, s, segment, false).Some?
  {
    if s.Subject().Some? {
      var f := s.Subject().value;
      if Decision(f, f.lookupPaths, s.transforms, segment.text, false).Some? {
        DecisionWithLookups(f, f.lookupPaths, s.transforms, segment.text, mode.PathLookup?);
      }
    }
  }

  /** The first segment refused in a prefix is the first refused in the path. */
  lemma RefusedInPrefix(g: Graph, mode: PathMode, model: string, segments: seq<PathSegment>, m: nat, k: nat)
    requires k < m <= |segments|
    requires Walk(g, mode, model, segments[..m], k).Some? && Walk(g, mode, model, segments[..m], k + 1).None?
    ensures Walk(g, mode, model, segments, k) == Walk(g, mode, model, segments[..m], k)
    ensures Walk(g, mode, model, segments, k + 1).None?
  {
    var prefix := segments[..m];
    assert prefix[..k] == segments[..k];
    WalkShared(g, mode, model, prefix, segments, k);
    var s := Walk(g, mode, model, segments, k).value;
    WalkStep(g, mode, model, prefix, k, s);
    WalkStep(g, mode, model, segments, k, s);
    if Consume(g, mode, s, segments[k], true).Some? {
      ConsumedBeforeIsConsumedLast(g, mode, s, segments[k]);
    }
  }

  /** A path without an issue has no prefix with one. */
  lemma ValidationPrefixClosed(g: Graph, model: string, mode: PathMode, segments: seq<PathSegment>,
                               annotations: seq<string>, m: nat)
    requires 0 < m <= |segments| <= MAX_PATH_SEGMENTS
    requires Validation(g, model, mode, segments, annotations).None?
    ensures Validation(g, model, mode, segments[..m], annotations).None?
  {
    var prefix := segments[..m];
    if !Skipped(model, mode, prefix, annotations) && FirstRefused(g, mode, model, prefix, 0).Some? {
      var k := FirstRefused(g, mode, model, prefix, 0).value;
      RefusedInPrefix(g, mode, model, segments, m, k);
      RefusedAt(g, mode, model, segments, k);
    }
  }

  /** No path knows the name, neither as the next transform or key nor, if that is asked for, as a lookup. */
  predicate Unknown(f: Field, prefix: seq<string>, name: string, lookups: bool) {
    !HasWildcard(f.lookupPaths, prefix)
    && forall i :: 0 <= i < |f.lookupPaths| ==>
                     !Continues(f.lookupPaths[i], prefix, name)
                     && !(lookups && HasLookup(f, f.lookupPaths[i], prefix, name))
  }

  lemma {:induction false} UndecidedIsUnknown(f: Field, paths: seq<LookupPath>, prefix: seq<string>, name: string,
                                              lookups: bool)
    requires Decision(f, paths, prefix, name, lookups).None?
    ensures forall i :: 0 <= i < |paths| ==> !Continues(paths[i], prefix, name)
                                             && !(lookups && HasLookup(f, paths[i], prefix, name))
  {
    if paths != [] {
      var k := |paths| - 1;
      UndecidedIsUnknown(f, paths[..k], prefix, name, lookups);
      assert forall i :: 0 <= i < k ==> paths[i] == paths[..k][i];
    }
  }

  /**
   An issue is certain. On the model that the walk stands on, the name is no relation of the wanted
   sort, or in the other modes no name for queries; and on the field that suffixes would apply to,
   a complete list of lookup paths does not know it.
   */
  lemma IssuesAreCertain(g: Graph, model: string, mode: PathMode, segments: seq<PathSegment>, annotations: seq<string>,
                         k: nat, s: State)
    requires Validation(g, model, mode, segments, annotations).Some?
    requires k < |segments| && FirstRefused(g, mode, model, segments, 0) == Some(k) && segments[k].text != ""
    requires Walk(g, mode, model, segments, k) == Some(s)
    ensures mode.OnRelations() ==>
              var access := Relation(g, s.model, segments[k].text, mode.Context());
              access.None? || (k + 1 < |segments| && access.value.field.relatedModel.None?)
    ensures !mode.OnRelations() && s.model != "" ==> QueryAccess(g, s.model, segments[k].text).None?
    ensures !mode.OnRelations() && !mode.PathFields? && s.Subject().Some?
            && (s.model != "" ==> s.relationField.Some?) ==>
              var f := s.Subject().value;
              && !f.lookupPathsTruncated
              && (k + 1 == |segments| ==> segments[k].text !in f.unsupportedLookups)
              && Unknown(f, s.transforms, segments[k].text, mode.PathLookup? && k + 1 == |segments|)
  {
    WalkStep(g, mode, model, segments, k, s);
    if !mode.OnRelations() && !mode.PathFields? && s.Subject().Some? && (s.model != "" ==> s.relationField.Some?) {
      var f := s.Subject().value;
      var lookups := mode.PathLookup? && k + 1 == |segments|;
      SuffixRefused(g, mode, s, segments[k], k + 1 < |segments|);
      UndecidedIsUnknown(f, f.lookupPaths, s.transforms, segments[k].text, lookups);
    }
  }

  lemma SuffixRefused(g: Graph, mode: PathMode, s: State, segment: PathSegment, hasMore: bool)
    requires Consume(g, mode, s, segment, hasMore).None? && segment.text != ""
    requires !mode.OnRelations() && !mode.PathFields? && s.Subject().Some? && (s.model != "" ==> s.relationField.Some?)
    ensures
      var f := s.Subject().value;
      && Decision(f, f.lookupPaths, s.transforms, segment.text, mode.PathLookup? && !hasMore).None?
      && !HasWildcard(f.lookupPaths, s.transforms)
  {
  }

  // ---------------------------------------------------------------------------------------------
  // Where a walk leads
  // ---------------------------------------------------------------------------------------------

  /** After a segment that names a field, the walk stands on the related model if there is one. */
  lemma FieldsLeadOn(g: Graph, model: string, mode: PathMode, segments: seq<PathSegment>, t: nat)
    requires t < |segments| && Hover(g, model, mode, segments, t).Some?
    requires Hover(g, model, mode, segments, t).value.kind == FieldCandidate
    ensures Walk(g, mode, model, segments, t + 1).Some?
    ensures
      var f := Hover(g, model, mode, segments, t).value.field;
      var s := Walk(g, mode, model, segments, t + 1).value;
      if f.relatedModel.Some? && (f.isRelation || mode.OnRelations()) then s.model == f.relatedModel.value
      else s.model == "" && (!mode.OnRelations() ==> s.field == Some(f) && s.transforms == [])
  {
    var before := Walk(g, mode, model, segments, t).value;
    WalkStep(g, mode, model, segments, t, before);
    ConsumedField(g, mode, before, segments[t], t + 1 < |segments|);
  }

  lemma ConsumedField(g: Graph, mode: PathMode, s: State, segment: PathSegment, hasMore: bool)
    requires Consume(g, mode, s, segment, hasMore).Some?
             && Consume(g, mode, s, segment, hasMore).value.1.kind == FieldCandidate
    ensures
      var (next, resolved) := Consume(g, mode, s, segment, hasMore).value;
      var f := resolved.field;
      if f.relatedModel.Some? && (f.isRelation || mode.OnRelations()) then next.model == f.relatedModel.value
      else next.model == "" && (!mode.OnRelations() ==> next.field == Some(f) && next.transforms == [])
  {
  }

  /** Every relation of the tables that a walk uses leads into the graph. */
  ghost predicate Closed(g: Graph) {
    forall l :: l in g.canonical ==>
                  && LeadsInto(g.canonical[l].queryByName, g.canonical.Keys)
                  && LeadsInto(g.canonical[l].relations.selectRelated, g.canonical.Keys)
                  && LeadsInto(g.canonical[l].relations.prefetchRelated, g.canonical.Keys)
  }

  predicate LeadsInto(table: Table, labels: set<string>) {
    forall name :: name in table && table[name].field.relatedModel.Some? ==>
                     table[name].field.relatedModel.value in labels
  }

  predicate OffersOwn(offers: Field -> seq<Access>, f: Field) {
    forall i :: 0 <= i < |offers(f)| ==> offers(f)[i].field == f
  }

  lemma TablesLeadInto(offers: Field -> seq<Access>, m: Model, names: seq<string>, labels: set<string>)
    requires SortedNames(m, names) && ReferencesResolve(m, labels)
    requires forall f :: f in SortedFields(m, names) ==> OffersOwn(offers, f)
    ensures LeadsInto(TableOf(OffersOf(offers, SortedFields(m, names))), labels)
  {
    var fields := SortedFields(m, names);
    var table := TableOf(OffersOf(offers, fields));
    TableHoldsWinners(OffersOf(offers, fields));
    forall name | name in table && table[name].field.relatedModel.Some?
      ensures table[name].field.relatedModel.value in labels {
      assert table[name] in OffersOf(offers, fields);
      var f := OffersComeFromFields(offers, fields, table[name]);
      assert OffersOwn(offers, f);
      var i :| 0 <= i < |names| && m.fields[names[i]] == f;
      assert names[i] in names;
    }
  }

  lemma QueryTableLeadsInto(m: Model, names: seq<string>, labels: set<string>)
    requires SortedNames(m, names) && ReferencesResolve(m, labels)
    ensures LeadsInto(TableOf(QueryOffersOf(SortedFields(m, names))), labels)
  {
    forall f: Field ensures OffersOwn(QueryOffers, f) {
    }
    TablesLeadInto(QueryOffers, m, names, labels);
  }

  lemma RelationTableLeadsInto(context: RelationContext, m: Model, names: seq<string>, labels: set<string>)
    requires SortedNames(m, names) && ReferencesResolve(m, labels)
    ensures LeadsInto(TableOf(RelationOffersOf(context, SortedFields(m, names))), labels)
  {
    forall f: Field ensures OffersOwn(RelationOfferer(context), f) {
    }
    TablesLeadInto(RelationOfferer(context), m, names, labels);
  }

  lemma IndexLeadsInto(index: ModelIndex, m: Model, labels: set<string>)
    requires IsIndex(index, m) && ReferencesResolve(m, labels)
    ensures LeadsInto(index.queryByName, labels)
    ensures LeadsInto(index.relations.selectRelated, labels) && LeadsInto(index.relations.prefetchRelated, labels)
  {
    var names :| SortedNames(m, names) && IsIndexOf(index, m, SortedFields(m, names));
    QueryTableLeadsInto(m, names, labels);
    RelationTableLeadsInto(ForSelectRelated, m, names, labels);
    RelationTableLeadsInto(ForPrefetchRelated, m, names, labels);
  }

  lemma BuiltIsClosed(g: Graph)
    requires Built(g)
    ensures Closed(g)
  {
    var s :| Accepts(s) && Describes(Records(s, s.apps.Keys), g);
    ModelsMatch(Records(s, s.apps.Keys), g);
    forall l | l in g.canonical
      ensures LeadsInto(g.canonical[l].queryByName, g.canonical.Keys)
      ensures LeadsInto(g.canonical[l].relations.selectRelated, g.canonical.Keys)
      ensures LeadsInto(g.canonical[l].relations.prefetchRelated, g.canonical.Keys)
    {
      DescribedLeadsInto(Records(s, s.apps.Keys), g, l);
    }
  }

  lemma DescribedLeadsInto(records: set<Record>, g: Graph, l: string)
    requires HasLabels(records, g.canonical.Keys) && LeadsToIndexes(records, g.canonical, IsIndex)
    requires l in g.canonical && ReferencesResolve(g.canonical[l].model, g.canonical.Keys)
    ensures LeadsInto(g.canonical[l].queryByName, g.canonical.Keys)
    ensures LeadsInto(g.canonical[l].relations.selectRelated, g.canonical.Keys)
    ensures LeadsInto(g.canonical[l].relations.prefetchRelated, g.canonical.Keys)
  {
    var r :| r in records && r.CanonicalLabel() == l;
    var index := g.canonical[l];
    assert IsIndex(index, r.model);
    IndexLeadsInto(index, r.model, g.canonical.Keys);
  }

  /** In a built graph a walk never leaves it: the model it stands on after a segment is one of the graph. */
  lemma WalkStaysInGraph(g: Graph, model: string, mode: PathMode, segments: seq<PathSegment>, n: nat)
    requires Built(g) && 0 < n <= |segments| && Walk(g, mode, model, segments, n).Some?
    ensures
      var s := Walk(g, mode, model, segments, n).value;
      s.model == "" || s.model in g.canonical
  {
    BuiltIsClosed(g);
    WalkBack(g, mode, model, segments, n);
    var before := Walk(g, mode, model, segments, n - 1).value;
    ConsumeStaysInGraph(g, mode, before, segments[n - 1], n < |segments|);
  }

  lemma ConsumeStaysInGraph(g: Graph, mode: PathMode, s: State, segment: PathSegment, hasMore: bool)
    requires Closed(g) && Consume(g, mode, s, segment, hasMore).Some?
    ensures
      var next := Consume(g, mode, s, segment, hasMore).value.0;
      next.model == "" || next.model in g.canonical
  {
    if s.model in g.canonical {
      assert LeadsInto(g.canonical[s.model].queryByName, g.canonical.Keys);
    }
  }
}
