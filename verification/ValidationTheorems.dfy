/** Validation reports what is wrong, says how, and stays silent on what it cannot judge. */
module ValidationTheorems {
  import opened Prelude
  import opened Ordering
  import opened Schema
  import opened SchemaGraph
  import opened PathResolver
  import opened PathTheorems
  import opened LookupTheorems
  import L = LookupPaths

  // ---------------------------------------------------------------------------------------------
  // What is looked at, and where silence comes from
  // ---------------------------------------------------------------------------------------------

  /** A path of one to 64 segments on a known model that does not begin with an annotation, where that counts. */
  ghost predicate LookedAt(model: string, mode: PathMode, segments: seq<PathSegment>, annotations: seq<string>) {
    && model != "" && 1 <= |segments| <= 64
    && (segments[0].text in annotations && segments[0].text != "" ==> !mode.PathLookup? && !mode.PathProjection?)
  }

  /** This segment is the first refused; `s` is where the walk stands before it. */
  ghost predicate RefusedFirst(g: Graph, model: string, mode: PathMode, segments: seq<PathSegment>, k: nat, s: State)
    requires k < |segments|
  {
    Walk(g, mode, model, segments, k) == Some(s) && Walk(g, mode, model, segments, k + 1).None?
  }

  /**
   The lookups of the field do not tell: its paths are cut short, or the name is one of the lookups
   said to be unsupported and comes last, or the field is no relation and the transforms so far are
   as many as those of some path that has a key "*".
   */
  ghost predicate CannotTell(f: Field, transforms: seq<string>, name: string, last: bool) {
    || f.lookupPathsTruncated
    || (last && name in f.unsupportedLookups)
    || (!f.isRelation && exists p :: p in f.lookupPaths && "*" in p.transforms && |p.transforms| <= |transforms|)
  }

  lemma IndeterminateMeansCannotTell(f: Field, transforms: seq<string>, name: string, hasMore: bool)
    ensures Indeterminate(f, transforms, name, hasMore) == CannotTell(f, transforms, name, !hasMore)
  {
    if p :| p in f.lookupPaths && "*" in p.transforms && |p.transforms| <= |transforms| {
      var i :| 0 <= i < |f.lookupPaths| && f.lookupPaths[i] == p;
    }
  }

  /** Where the walk stands on a plain field, and what the mode then objects to. */
  function ModeCode(mode: PathMode): IssueCode {
    match mode
    case PathLookup => InvalidLookup
    case PathProjection => InvalidProjection
    case PathFields => NonRelationTraversal
    case PathSelectRelated => InvalidSelectRelated
    case PathPrefetchRelated => NonRelationTraversal
  }

  /** Some access of the model by this name, for queries or on instances, is to a plain field. */
  ghost predicate NamesPlainField(g: Graph, model: string, name: string) {
    || (QueryAccess(g, model, name).Some? && !QueryAccess(g, model, name).value.field.isRelation)
    || (InstanceAccess(g, model, name).Some? && !InstanceAccess(g, model, name).value.field.isRelation)
  }

  /** The name is wrong in the way the mode objects to, and not just unknown. */
  ghost predicate WrongKind(g: Graph, mode: PathMode, s: State, name: string) {
    match mode
    case PathSelectRelated => name != "" && QueryAccess(g, s.model, name).Some?
    case PathPrefetchRelated => name != "" && NamesPlainField(g, s.model, name)
    case _ => s.field.Some?
  }

  /**
   The first refused segment of a path that is looked at is reported, unless it is not empty and the
   lookups of the field that suffixes apply to cannot tell. The issue names it, the model and the
   field that the walk stands on before it, and is that of the mode exactly for a name of the wrong kind.
   */
  lemma RefusedIsReported(g: Graph, model: string, mode: PathMode, segments: seq<PathSegment>,
                          annotations: seq<string>, k: nat, s: State)
    requires LookedAt(model, mode, segments, annotations)
    requires k < |segments| && RefusedFirst(g, model, mode, segments, k, s)
    ensures
      var name := segments[k].text;
      var silent := name != "" && s.Subject().Some?
                    && CannotTell(s.Subject().value, s.transforms, name, k + 1 == |segments|);
      Validation(g, model, mode, segments, annotations) ==
      if silent then None
      else Some(PathIssue(if WrongKind(g, mode, s, name) then ModeCode(mode) else UnknownPathSegment,
                          segments[k], s.model, s.Subject()))
  {
    RefusedAt(g, mode, model, segments, k);
    if s.Subject().Some? {
      IndeterminateMeansCannotTell(s.Subject().value, s.transforms, segments[k].text, k + 1 < |segments|);
    }
    if mode.OnRelations() {
      RelationModesHaveNoField(g, model, mode, segments, k, s);
    }
  }

  lemma RelationModesHaveNoField(g: Graph, model: string, mode: PathMode, segments: seq<PathSegment>, k: nat, s: State)
    requires k < |segments| && Walk(g, mode, model, segments, k) == Some(s) && mode.OnRelations()
    ensures s.field.None?
  {
    if k > 0 {
      WalkBack(g, mode, model, segments, k);
    }
  }

  /** A path that is not looked at is never reported. */
  lemma NotLookedAt(g: Graph, model: string, mode: PathMode, segments: seq<PathSegment>, annotations: seq<string>)
    requires !LookedAt(model, mode, segments, annotations)
    ensures Validation(g, model, mode, segments, annotations).None?
  {
  }

  /** The first refused segment cannot be judged. */
  ghost predicate Undecided(g: Graph, model: string, mode: PathMode, segments: seq<PathSegment>, k: nat)
    requires k < |segments|
  {
    && Walk(g, mode, model, segments, k).Some? && Walk(g, mode, model, segments, k + 1).None?
    && var s := Walk(g, mode, model, segments, k).value;
    && s.Subject().Some?
    && segments[k].text != "" && CannotTell(s.Subject().value, s.transforms, segments[k].text, k + 1 == |segments|)
  }

  lemma SilentIfUndecided(g: Graph, model: string, mode: PathMode, segments: seq<PathSegment>,
                          annotations: seq<string>, k: nat)
    requires LookedAt(model, mode, segments, annotations) && k < |segments|
    requires Walk(g, mode, model, segments, k).Some? && Walk(g, mode, model, segments, k + 1).None?
    ensures Validation(g, model, mode, segments, annotations).None? == Undecided(g, model, mode, segments, k)
  {
    RefusedIsReported(g, model, mode, segments, annotations, k, Walk(g, mode, model, segments, k).value);
  }

  /** Silence means a path that can be hovered to its end, or a segment that cannot be judged. */
  lemma SilenceExplained(g: Graph, model: string, mode: PathMode, segments: seq<PathSegment>, annotations: seq<string>)
    requires LookedAt(model, mode, segments, annotations)
    ensures Validation(g, model, mode, segments, annotations).None? <==>
            || Hover(g, model, mode, segments, |segments| - 1).Some?
            || exists k :: 0 <= k < |segments| && Undecided(g, model, mode, segments, k)
  {
    HoverIsWalk(g, model, mode, segments, |segments| - 1);
    forall k | 0 <= k < |segments| && Undecided(g, model, mode, segments, k)
      ensures Validation(g, model, mode, segments, annotations).None?
    {
      SilentIfUndecided(g, model, mode, segments, annotations, k);
    }
    var refused := FirstRefused(g, mode, model, segments, 0);
    if refused.Some? {
      SilentIfUndecided(g, model, mode, segments, annotations, refused.value);
      WalkStops(g, mode, model, segments, refused.value + 1, |segments|);
    }
  }

  /** Which segment before decides whether the walk stands on a plain field, when suffixes may follow one. */
  lemma PlainFieldBefore(g: Graph, model: string, mode: PathMode, segments: seq<PathSegment>, k: nat, s: State)
    requires k < |segments| && Walk(g, mode, model, segments, k) == Some(s) && !mode.OnRelations()
    ensures
      if k == 0 then s == State(model, None, None, [])
      else
        && Hover(g, model, mode, segments, k - 1).Some?
        && var before := Hover(g, model, mode, segments, k - 1).value;
        && s.Subject() == Some(before.field)
        && (s.field.None? <==>
            before.kind.FieldCandidate? && before.field.isRelation && before.field.relatedModel.Some?)
        && s.model == if s.field.None? then before.field.relatedModel.value else ""
  {
    if k > 0 {
      WalkBack(g, mode, model, segments, k);
      WalkStep(g, mode, model, segments, k - 1, Walk(g, mode, model, segments, k - 1).value);
      PlainFieldAfter(g, mode, Walk(g, mode, model, segments, k - 1).value, segments[k - 1], k < |segments|);
    }
  }

  lemma PlainFieldAfter(g: Graph, mode: PathMode, s: State, segment: PathSegment, hasMore: bool)
    requires !mode.OnRelations() && Consume(g, mode, s, segment, hasMore).Some?
    ensures
      var (next, resolved) := Consume(g, mode, s, segment, hasMore).value;
      && next.Subject() == Some(resolved.field)
      && (next.field.None? <==>
          resolved.kind.FieldCandidate? && resolved.field.isRelation && resolved.field.relatedModel.Some?)
      && next.model == if next.field.None? then resolved.field.relatedModel.value else ""
  {
  }

  // ---------------------------------------------------------------------------------------------
  // Wrong suffixes of a plain field
  // ---------------------------------------------------------------------------------------------

  /** No listed path goes on with the name, and in lookup mode, at the end, none has it as a lookup. */
  ghost predicate WrongSuffix(f: Field, mode: PathMode, transforms: seq<string>, name: string, last: bool) {
    && (forall p :: p in f.lookupPaths ==> !(transforms + [name] <= p.transforms))
    && (last && mode.PathLookup? ==> forall p :: p in f.lookupPaths && p.transforms == transforms ==>
                                                   name !in p.lookups)
  }

  lemma WrongSuffixIsRefused(f: Field, mode: PathMode, transforms: seq<string>, name: string, last: bool)
    requires WildcardFree(f) && WrongSuffix(f, mode, transforms, name, last)
    ensures Suffix(Some(f), transforms, name, mode, !last).None?
  {
    DecidedMeansKnown(f, f.lookupPaths, transforms, name, mode.PathLookup? && last);
    forall i | 0 <= i < |f.lookupPaths|
      ensures PathDecision(f, f.lookupPaths[i], transforms, name, mode.PathLookup? && last).None?
      ensures !Continues(f.lookupPaths[i], transforms, "*")
    {
      var path := f.lookupPaths[i];
      assert path in f.lookupPaths;
      assert Continues(path, transforms, name) ==> transforms + [name] <= path.transforms;
    }
  }

  /**
   After a plain field whose paths are all there and have no "*", a wrong suffix is always reported,
   at its segment, as an invalid lookup or projection of the field.
   */
  lemma WrongSuffixIsReported(g: Graph, model: string, mode: PathMode, segments: seq<PathSegment>,
                              annotations: seq<string>, k: nat, s: State, f: Field)
    requires LookedAt(model, mode, segments, annotations) && (mode.PathLookup? || mode.PathProjection?)
    requires k < |segments| && Walk(g, mode, model, segments, k) == Some(s) && s.field == Some(f)
    requires !f.isRelation && !f.lookupPathsTruncated && WildcardFree(f)
    requires segments[k].text !in f.unsupportedLookups
    requires WrongSuffix(f, mode, s.transforms, segments[k].text, k + 1 == |segments|)
    ensures Validation(g, model, mode, segments, annotations) ==
            Some(PathIssue(if mode.PathLookup? then InvalidLookup else InvalidProjection, segments[k], "", Some(f)))
  {
    WrongSuffixIsRefused(f, mode, s.transforms, segments[k].text, k + 1 == |segments|);
    PlainFieldBefore(g, model, mode, segments, k, s);
    WalkStep(g, mode, model, segments, k, s);
    NoKeyNoDoubt(f, s.transforms, segments[k].text, k + 1 == |segments|);
    RefusedIsReported(g, model, mode, segments, annotations, k, s);
  }

  lemma NoKeyNoDoubt(f: Field, transforms: seq<string>, name: string, last: bool)
    requires WildcardFree(f)
    ensures CannotTell(f, transforms, name, last) == (f.lookupPathsTruncated || (last && name in f.unsupportedLookups))
  {
    forall p | p in f.lookupPaths ensures "*" !in p.transforms {
      var i :| 0 <= i < |f.lookupPaths| && f.lookupPaths[i] == p;
    }
  }

  // ---------------------------------------------------------------------------------------------
  // Exactly the constructible suffixes are passed over
  // ---------------------------------------------------------------------------------------------

  /** The names are those of a chain, or of a chain and a lookup of the expression it leads to. */
  ghost predicate Meaningful<Node>(registry: L.Registry<Node>, root: Node, names: seq<string>)
    requires names != []
  {
    && "" !in names
    && (ReachedBy(registry, root, names)
        || LookedUpBy(registry, root, AllButLast(names), names[|names| - 1]))
  }

  /** The last name is a lookup said to be unsupported, after a chain that can be constructed. */
  ghost predicate Unsupported<Node>(registry: L.Registry<Node>, root: Node, f: Field, names: seq<string>)
    requires names != []
  {
    && "" !in names && names[|names| - 1] in f.unsupportedLookups
    && ReachedBy(registry, root, AllButLast(names))
  }

  /**
   For a field whose paths were enumerated without being truncated and have no "*", in lookup mode,
   validation is silent exactly on the names of constructible chains of at most two transforms,
   these followed by a lookup of the expression reached, and these followed by a lookup said to be
   unsupported; on any other suffix it reports an invalid lookup of the field.
   */
  lemma SilentExactlyOnTheConstructible<Node(!new)>(
    g: Graph, model: string, own: PathSegment, f: Field, suffix: seq<PathSegment>, annotations: seq<string>,
    registry: L.Registry<Node>, root: Node)
    requires NamesField(g, model, own, f) && WildcardFree(f) && suffix != []
    requires |suffix| < 64 && own.text !in annotations
    requires L.Enumerates(registry, root, f.lookupPaths, false) && !f.lookupPathsTruncated
    ensures
      var issue := Validation(g, model, PathLookup, FieldPath(own, suffix), annotations);
      var names := Texts(suffix);
      && (issue.None? <==> Meaningful(registry, root, names) || Unsupported(registry, root, f, names))
      && (issue.Some? ==> issue.value.code == InvalidLookup && issue.value.model == "" && issue.value.field == Some(f))
  {
    EnumeratedIsPrefixClosed(registry, root, f);
    PassedOverMeans(registry, root, f, Texts(suffix));
    SilentExactlyOnTheListed(g, model, own, f, suffix, annotations);
  }

  lemma LanguageIsMeaningful<Node(!new)>(registry: L.Registry<Node>, root: Node, f: Field, names: seq<string>)
    requires WildcardFree(f) && L.Enumerates(registry, root, f.lookupPaths, false) && names != []
    ensures InLanguage(f, names) == Meaningful(registry, root, names)
  {
    ListedIsReached(registry, root, f, names);
    LookupIsReached(registry, root, f, AllButLast(names), names[|names| - 1]);
    ListedIsReached(registry, root, f, AllButLast(names));
  }

  lemma ChainIsReached<Node(!new)>(registry: L.Registry<Node>, root: Node, f: Field, names: seq<string>)
    requires WildcardFree(f) && L.Enumerates(registry, root, f.lookupPaths, false)
    ensures OnField(f, names).Some? == ("" !in names && ReachedBy(registry, root, names))
  {
    ListedIsReached(registry, root, f, names);
    if names == [] {
      assert Fixed(names) == [];
    }
  }

  lemma PassedOverMeans<Node(!new)>(registry: L.Registry<Node>, root: Node, f: Field, names: seq<string>)
    requires WildcardFree(f) && L.Enumerates(registry, root, f.lookupPaths, false) && names != []
    ensures PassedOver(f, names) == (Meaningful(registry, root, names) || Unsupported(registry, root, f, names))
  {
    LanguageIsMeaningful(registry, root, f, names);
    ChainIsReached(registry, root, f, AllButLast(names));
    EmptyNameAmong(names);
  }

  lemma EmptyNameAmong(names: seq<string>)
    requires names != []
    ensures "" in names <==> "" in AllButLast(names) || names[|names| - 1] == ""
  {
    assert names == AllButLast(names) + [names[|names| - 1]];
  }

  /** The names are listed, or a listed chain and a lookup said to be unsupported. */
  ghost predicate PassedOver(f: Field, names: seq<string>)
    requires names != []
  {
    var last := names[|names| - 1];
    || InLanguage(f, names)
    || (last != "" && last in f.unsupportedLookups && OnField(f, AllButLast(names)).Some?)
  }

  /** A name of the suffix that is refused is reported, unless it comes last and is said to be unsupported. */
  lemma RefusedInSuffix(g: Graph, model: string, own: PathSegment, f: Field, suffix: seq<PathSegment>,
                        annotations: seq<string>, n: nat)
    requires NamesField(g, model, own, f) && WildcardFree(f) && PrefixClosed(f) && n < |suffix| < 64
    requires own.text !in annotations && !f.lookupPathsTruncated
    requires Walk(g, PathLookup, model, FieldPath(own, suffix), n + 1).Some?
    requires Walk(g, PathLookup, model, FieldPath(own, suffix), n + 2).None?
    ensures OnField(f, Texts(suffix)[..n]).Some?
    ensures
      var name := suffix[n].text;
      Validation(g, model, PathLookup, FieldPath(own, suffix), annotations) ==
      if name != "" && n + 1 == |suffix| && name in f.unsupportedLookups then None
      else Some(PathIssue(InvalidLookup, suffix[n], "", Some(f)))
  {
    var path := FieldPath(own, suffix);
    WalkAfterField(g, model, own, f, suffix, n);
    var s := Walk(g, PathLookup, model, path, n + 1).value;
    assert path[n + 1] == suffix[n];
    NoKeyNoDoubt(f, s.transforms, suffix[n].text, n + 1 == |suffix|);
    RefusedIsReported(g, model, PathLookup, path, annotations, n + 1, s);
  }

  /** Refused before the end means that the names before the last are no listed chain. */
  lemma RefusedEarly(g: Graph, model: string, own: PathSegment, f: Field, suffix: seq<PathSegment>, n: nat)
    requires NamesField(g, model, own, f) && WildcardFree(f) && PrefixClosed(f) && n + 1 < |suffix|
    requires Walk(g, PathLookup, model, FieldPath(own, suffix), n + 2).None?
    ensures OnField(f, AllButLast(Texts(suffix))).None?
  {
    WalkAfterField(g, model, own, f, suffix, |suffix| - 1);
    WalkStops(g, PathLookup, model, FieldPath(own, suffix), n + 2, |suffix|);
  }

  /** The path whose name at `n` is the first refused is passed over exactly if that name is unsupported at the end. */
  lemma RefusedIsPassedOver(g: Graph, model: string, own: PathSegment, f: Field, suffix: seq<PathSegment>,
                            annotations: seq<string>, n: nat)
    requires NamesField(g, model, own, f) && WildcardFree(f) && PrefixClosed(f) && n < |suffix| < 64
    requires own.text !in annotations && !f.lookupPathsTruncated
    requires Walk(g, PathLookup, model, FieldPath(own, suffix), n + 1).Some?
    requires Walk(g, PathLookup, model, FieldPath(own, suffix), n + 2).None?
    ensures
      var issue := Validation(g, model, PathLookup, FieldPath(own, suffix), annotations);
      && (issue.None? <==> PassedOver(f, Texts(suffix)))
      && (issue.Some? ==> issue.value.code == InvalidLookup && issue.value.model == "" && issue.value.field == Some(f))
  {
    var path := FieldPath(own, suffix);
    AcceptsExactlyTheListed(g, model, own, f, suffix);
    WalkStops(g, PathLookup, model, path, n + 2, |path|);
    RefusedInSuffix(g, model, own, f, suffix, annotations, n);
    if n + 1 < |suffix| {
      RefusedEarly(g, model, own, f, suffix, n);
    }
  }

  lemma SilentExactlyOnTheListed(g: Graph, model: string, own: PathSegment, f: Field, suffix: seq<PathSegment>,
                                 annotations: seq<string>)
    requires NamesField(g, model, own, f) && WildcardFree(f) && PrefixClosed(f) && suffix != []
    requires |suffix| < 64 && own.text !in annotations && !f.lookupPathsTruncated
    ensures
      var issue := Validation(g, model, PathLookup, FieldPath(own, suffix), annotations);
      && (issue.None? <==> PassedOver(f, Texts(suffix)))
      && (issue.Some? ==> issue.value.code == InvalidLookup && issue.value.model == "" && issue.value.field == Some(f))
  {
    var path := FieldPath(own, suffix);
    WalkAfterField(g, model, own, f, suffix, 0);
    var refused := FirstRefused(g, PathLookup, model, path, 0);
    if refused.Some? {
      RefusedIsPassedOver(g, model, own, f, suffix, annotations, refused.value - 1);
    } else {
      AcceptsExactlyTheListed(g, model, own, f, suffix);
    }
  }

  // ---------------------------------------------------------------------------------------------
  // Relations, and the order of candidates
  // ---------------------------------------------------------------------------------------------

  /** The relations of a model that a path of this mode may name. */
  ghost predicate NamesRelation(g: Graph, model: string, mode: PathMode, name: string, a: Access) {
    && model in g.canonical
    && var tables := g.canonical[model].relations;
    var table := if mode.PathSelectRelated? then tables.selectRelated else tables.prefetchRelated;
    name in table && table[name] == a
  }

  /**
   In the two relation modes a segment is consumed exactly if it names such a relation of the model
   that the walk stands on, and, unless it is the last, one to a known model, where the walk goes on.
   */
  lemma RelationsAreFollowed(g: Graph, model: string, mode: PathMode, segments: seq<PathSegment>, k: nat, s: State)
    requires mode.PathSelectRelated? || mode.PathPrefetchRelated?
    requires k < |segments| && Walk(g, mode, model, segments, k) == Some(s)
    ensures
      var next, name := Walk(g, mode, model, segments, k + 1), segments[k].text;
      && (next.Some? <==>
          name != "" && exists a :: NamesRelation(g, s.model, mode, name, a)
                                    && (k + 1 == |segments| || a.field.relatedModel.Some?))
      && forall a :: next.Some? && NamesRelation(g, s.model, mode, name, a) ==>
                       && Hover(g, model, mode, segments, k) == Some(Resolved(segments[k], FieldCandidate, a.field))
                       && next.value.model == if a.field.relatedModel.Some? then a.field.relatedModel.value else ""
  {
    WalkStep(g, mode, model, segments, k, s);
    var access := Relation(g, s.model, segments[k].text, mode.Context());
    if access.Some? {
      assert NamesRelation(g, s.model, mode, segments[k].text, access.value);
    }
  }

  /** A reverse relation, or one to many by its cardinality. */
  predicate PrefetchedFirst(f: Field) {
    f.direction == Some("reverse") || f.cardinality == Some("many-to-many") || f.cardinality == Some("one-to-many")
  }

  /** Fields come before transforms and these before lookups; when prefetching, some relations come first. */
  function RankOf(mode: PathMode, c: Candidate): int {
    match c.kind
    case FieldCandidate => if mode.PathPrefetchRelated? && PrefetchedFirst(c.field) then -1 else 0
    case TransformCandidate => 1
    case LookupCandidate => 2
  }

  lemma {:induction false} LookupsRanked(f: Field, lookups: seq<string>, mode: PathMode)
    ensures forall c :: c in LookupOffers(f, lookups) ==> c.rank == RankOf(mode, c)
  {
    if lookups != [] {
      LookupsRanked(f, lookups[..|lookups| - 1], mode);
    }
  }

  lemma {:induction false} SuffixesRanked(f: Field, paths: seq<LookupPath>, prefix: seq<string>, mode: PathMode)
    ensures forall c :: c in SuffixOffers(f, paths, prefix, mode) ==> c.rank == RankOf(mode, c)
  {
    if paths != [] {
      SuffixesRanked(f, paths[..|paths| - 1], prefix, mode);
      LookupsRanked(f, paths[|paths| - 1].lookups, mode);
    }
  }

  lemma {:induction false} KeptIsOffered(taken: set<string>, offers: seq<Candidate>)
    ensures forall c :: c in FirstOfEach(taken, offers) ==> c in offers
  {
    if offers != [] {
      KeptIsOffered(taken, offers[..|offers| - 1]);
    }
  }

  lemma CandidatesRanked(g: Graph, mode: PathMode, s: State)
    ensures forall c :: c in StateCandidates(g, mode, s) ==> c.rank == RankOf(mode, c)
  {
    KeptIsOffered({""}, StateOffers(g, mode, s));
    if s.Subject().Some? {
      var f := s.Subject().value;
      KeptIsOffered({}, SuffixOffers(f, f.lookupPaths, s.transforms, mode));
      SuffixesRanked(f, f.lookupPaths, s.transforms, mode);
    }
  }

  /** Candidates are offered by these ranks, and by name within a rank, each name once. */
  lemma CompletionIsOrdered(g: Graph, model: string, mode: PathMode, segments: seq<PathSegment>, active: int,
                            candidates: seq<Candidate>)
    requires IsCompletion(g, model, mode, segments, active, candidates)
    ensures forall i, j :: 0 <= i < j < |candidates| ==>
                             || RankOf(mode, candidates[i]) < RankOf(mode, candidates[j])
                             || (RankOf(mode, candidates[i]) == RankOf(mode, candidates[j])
                                 && Less(candidates[i].name, candidates[j].name))
  {
    if candidates != [] {
      var s := Walk(g, mode, model, segments, active).value;
      CandidatesRanked(g, mode, s);
      forall i, j | 0 <= i < j < |candidates|
        ensures
          || RankOf(mode, candidates[i]) < RankOf(mode, candidates[j])
          || (RankOf(mode, candidates[i]) == RankOf(mode, candidates[j])
              && Less(candidates[i].name, candidates[j].name))
      {
        assert candidates[i] in candidates && candidates[j] in candidates;
        assert CandidateLess(candidates[i], candidates[j]);
      }
    }
  }
}
