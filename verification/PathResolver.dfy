/** Walking a dotted-by-underscores ORM path over the schema graph: completion, hover and validation. */
module PathResolver {
  import opened Prelude
  import opened Ordering
  import opened Schema
  import opened SchemaIndex
  import opened SchemaGraph

  const MAX_PATH_SEGMENTS := 64

  datatype PathMode = PathLookup | PathProjection | PathFields | PathSelectRelated | PathPrefetchRelated {
    predicate OnRelations() {
      PathSelectRelated? || PathPrefetchRelated?
    }

    function Context(): RelationContext {
      if PathPrefetchRelated? then ForPrefetchRelated else ForSelectRelated
    }
  }

  datatype PathSegment = PathSegment(text: string, start: nat, end: nat)

  datatype CandidateKind = FieldCandidate | TransformCandidate | LookupCandidate

  datatype Candidate = Candidate(name: string, kind: CandidateKind, field: Field, rank: int)

  datatype Resolved = Resolved(segment: PathSegment, kind: CandidateKind, field: Field)

  /** A walk stands on a model, on a field with transforms applied to it, or on a relation and its model. */
  datatype State = State(model: string, field: Option<Field>, relationField: Option<Field>, transforms: seq<string>) {
    /** The field that suffixes apply to. */
    function Subject(): Option<Field> {
      if field.Some? then field else relationField
    }
  }

  datatype IssueCode =
    | UnknownPathSegment | NonRelationTraversal | InvalidLookup | InvalidProjection | InvalidSelectRelated

  datatype PathIssue = PathIssue(code: IssueCode, segment: PathSegment, model: string, field: Option<Field>)

  // ---------------------------------------------------------------------------------------------
  // Graph accessors
  // ---------------------------------------------------------------------------------------------

  function Find(table: Table, name: string): Option<Access> {
    if name in table then Some(table[name]) else None
  }

  function QueryAccess(g: Graph, model: string, name: string): Option<Access> {
    if model in g.canonical then Find(g.canonical[model].queryByName, name) else None
  }

  function InstanceAccess(g: Graph, model: string, name: string): Option<Access> {
    if model in g.canonical then Find(g.canonical[model].instanceByName, name) else None
  }

  function Relation(g: Graph, model: string, name: string, context: RelationContext): Option<Access> {
    if model in g.canonical then Find(g.canonical[model].relations.At(context), name) else None
  }

  function QueryFields(g: Graph, model: string): seq<Access> {
    if model in g.canonical then g.canonical[model].queryAccess else []
  }

  function Relations(g: Graph, model: string, context: RelationContext): seq<Access> {
    if model in g.canonical then g.canonical[model].relationsOrdered.At(context) else []
  }

  // ---------------------------------------------------------------------------------------------
  // Consuming one segment
  // ---------------------------------------------------------------------------------------------

  predicate IsRelationLookup(name: string) {
    name in {"exact", "gt", "gte", "in", "isnull", "lt", "lte"}
  }

  predicate Continues(path: LookupPath, prefix: seq<string>, name: string) {
    |prefix| < |path.transforms| && path.transforms[..|prefix|] == prefix && path.transforms[|prefix|] == name
  }

  /** Relations only take the lookups that Django allows on them. */
  predicate HasLookup(f: Field, path: LookupPath, prefix: seq<string>, name: string) {
    path.transforms == prefix && name in path.lookups && (f.isRelation ==> IsRelationLookup(name))
  }

  /** What a path says about the name, if it knows it. */
  function PathDecision(f: Field, path: LookupPath, prefix: seq<string>, name: string, lookups: bool)
    : (r: Option<CandidateKind>)
    ensures r != Some(FieldCandidate)
  {
    if Continues(path, prefix, name) then Some(TransformCandidate)
    else if lookups && HasLookup(f, path, prefix, name) then Some(LookupCandidate)
    else None
  }

  /** What the first path that knows the name says about it. */
  function Decision(f: Field, paths: seq<LookupPath>, prefix: seq<string>, name: string, lookups: bool)
    : (r: Option<CandidateKind>)
    ensures r != Some(FieldCandidate)
  {
    if paths == [] then None
    else
      var earlier := Decision(f, paths[..|paths| - 1], prefix, name, lookups);
      if earlier.Some? then earlier else PathDecision(f, paths[|paths| - 1], prefix, name, lookups)
  }

  predicate HasWildcard(paths: seq<LookupPath>, prefix: seq<string>) {
    exists i :: 0 <= i < |paths| && Continues(paths[i], prefix, "*")
  }

  function Suffix(subject: Option<Field>, prefix: seq<string>, name: string, mode: PathMode, hasMore: bool)
    : (r: Option<(CandidateKind, seq<string>)>)
    ensures r.Some? ==> subject.Some? && !mode.PathFields?
  {
    if subject.None? || mode.PathFields? then None
    else
      var f := subject.value;
      match Decision(f, f.lookupPaths, prefix, name, mode.PathLookup? && !hasMore)
      case Some(kind) => Some((kind, if kind.TransformCandidate? then prefix + [name] else prefix))
      case None => if HasWildcard(f.lookupPaths, prefix) then Some((TransformCandidate, prefix + ["*"])) else None
  }

  function FromField(a: Access): State {
    if a.field.isRelation && a.field.relatedModel.Some? then State(a.field.relatedModel.value, None, Some(a.field), [])
    else State("", Some(a.field), None, [])
  }

  function Consume(g: Graph, mode: PathMode, s: State, segment: PathSegment,
                   hasMore: bool): (r: Option<(State, Resolved)>)
    ensures r.Some? ==> segment.text != "" && r.value.1.segment == segment
  {
    var name := segment.text;
    if name == "" then None
    else if mode.OnRelations() then
      match Relation(g, s.model, name, mode.Context())
      case None => None
      case Some(a) =>
        if hasMore && a.field.relatedModel.None? then None
        else
          var related := if a.field.relatedModel.Some? then a.field.relatedModel.value else "";
          Some((State(related, None, None, []), Resolved(segment, FieldCandidate, a.field)))
    else
      var access := if s.model == "" then None else QueryAccess(g, s.model, name);
      if access.Some? then Some((FromField(access.value), Resolved(segment, FieldCandidate, access.value.field)))
      else if s.model != "" && s.relationField.None? then None
      else
        match Suffix(s.Subject(), s.transforms, name, mode, hasMore)
        case None => None
        case Some((kind, transforms)) =>
          Some((State("", s.Subject(), None, transforms), Resolved(segment, kind, s.Subject().value)))
  }

  /** The scan over the lookup paths, which stops at the first that decides. */
  method ConsumeFieldSuffix(subject: Option<Field>, prefix: seq<string>, name: string, mode: PathMode, hasMore: bool)
    returns (r: Option<(CandidateKind, seq<string>)>)
    ensures r == Suffix(subject, prefix, name, mode, hasMore)
  {
    if subject.None? || mode.PathFields? {
      return None;
    }
    var f := subject.value;
    var paths := f.lookupPaths;
    var lookups := mode.PathLookup? && !hasMore;
    var wildcard := false;
    for i := 0 to |paths|
      invariant Decision(f, paths[..i], prefix, name, lookups) == None
      invariant wildcard == HasWildcard(paths[..i], prefix)
    {
      assert paths[..i + 1][..i] == paths[..i];
      var kind, star := VisitPath(f, paths[i], prefix, name, lookups);
      if kind.Some? {
        DecisionLasts(f, paths, prefix, name, lookups, i + 1);
        return Some((kind.value, if kind.value.TransformCandidate? then prefix + [name] else prefix));
      }
      WildcardStep(paths, prefix, i);
      wildcard := wildcard || star;
    }
    assert paths[..|paths|] == paths;
    return if wildcard then Some((TransformCandidate, prefix + ["*"])) else None;
  }

  method VisitPath(f: Field, path: LookupPath, prefix: seq<string>, name: string, lookups: bool)
    returns (kind: Option<CandidateKind>, star: bool)
    ensures kind == PathDecision(f, path, prefix, name, lookups)
    ensures star == Continues(path, prefix, "*")
  {
    if |path.transforms| < |prefix| || path.transforms[..|prefix|] != prefix {
      return None, false;
    }
    if |path.transforms| > |prefix| {
      var next := path.transforms[|prefix|];
      return if next == name then Some(TransformCandidate) else None, next == "*";
    }
    if lookups {
      for k := 0 to |path.lookups|
        invariant forall j :: 0 <= j < k ==> path.lookups[j] != name || (f.isRelation && !IsRelationLookup(name))
      {
        if path.lookups[k] == name && (!f.isRelation || IsRelationLookup(name)) {
          return Some(LookupCandidate), false;
        }
      }
    }
    return None, false;
  }

  lemma WildcardStep(paths: seq<LookupPath>, prefix: seq<string>, i: nat)
    requires i < |paths|
    ensures HasWildcard(paths[..i + 1], prefix) <==> HasWildcard(paths[..i], prefix) || Continues(paths[i], prefix, "*")
  {
    var more := paths[..i + 1];
    assert forall k :: 0 <= k < i ==> paths[..i][k] == more[k];
    assert more[i] == paths[i];
  }

  lemma {:induction false} DecisionLasts(f: Field, paths: seq<LookupPath>, prefix: seq<string>, name: string,
                                         lookups: bool, i: nat)
    requires i <= |paths| && Decision(f, paths[..i], prefix, name, lookups).Some?
    ensures Decision(f, paths, prefix, name, lookups) == Decision(f, paths[..i], prefix, name, lookups)
  {
    if i < |paths| {
      assert paths[..|paths| - 1][..i] == paths[..i];
      DecisionLasts(f, paths[..|paths| - 1], prefix, name, lookups, i);
    } else {
      assert paths[..i] == paths;
    }
  }

  // ---------------------------------------------------------------------------------------------
  // Candidates
  // ---------------------------------------------------------------------------------------------

  /** The first offer of each name, except for names already taken. */
  function FirstOfEach(taken: set<string>, offers: seq<Candidate>): seq<Candidate> {
    if offers == [] then []
    else
      var kept := FirstOfEach(taken, offers[..|offers| - 1]);
      var last := offers[|offers| - 1];
      if last.name in taken + Names(kept) then kept else kept + [last]
  }

  function Names(candidates: seq<Candidate>): set<string> {
    set c | c in candidates :: c.name
  }

  function LookupOffers(f: Field, lookups: seq<string>): seq<Candidate> {
    if lookups == [] then []
    else
      var earlier := LookupOffers(f, lookups[..|lookups| - 1]);
      var name := lookups[|lookups| - 1];
      if f.isRelation && !IsRelationLookup(name) then earlier else earlier + [Candidate(name, LookupCandidate, f, 2)]
  }

  function PathOffers(f: Field, path: LookupPath, prefix: seq<string>, mode: PathMode): seq<Candidate> {
    if !(prefix <= path.transforms) then []
    else if |path.transforms| > |prefix| then
      var name := path.transforms[|prefix|];
      if name == "*" then [] else [Candidate(name, TransformCandidate, f, 1)]
    else if mode.PathLookup? then LookupOffers(f, path.lookups)
    else []
  }

  function SuffixOffers(f: Field, paths: seq<LookupPath>, prefix: seq<string>, mode: PathMode): seq<Candidate> {
    if paths == [] then []
    else SuffixOffers(f, paths[..|paths| - 1], prefix, mode) + PathOffers(f, paths[|paths| - 1], prefix, mode)
  }

  function SuffixCandidates(f: Field, prefix: seq<string>, mode: PathMode): seq<Candidate> {
    if mode.PathFields? then [] else FirstOfEach({}, SuffixOffers(f, f.lookupPaths, prefix, mode))
  }

  /** Relations to many come first when prefetching. */
  function RelationRank(mode: PathMode, f: Field): int {
    if mode.PathPrefetchRelated? && (IsReverse(f) || f.cardinality in {Some("many-to-many"), Some("one-to-many")})
    then -1 else 0
  }

  function AccessOffers(mode: PathMode, accesses: seq<Access>): seq<Candidate> {
    seq(|accesses|, i requires 0 <= i < |accesses| =>
      Candidate(accesses[i].name, FieldCandidate, accesses[i].field,
                if mode.OnRelations() then RelationRank(mode, accesses[i].field) else 0))
  }

  /** Everything offered from a state, with repetitions. */
  function StateOffers(g: Graph, mode: PathMode, s: State): seq<Candidate> {
    if mode.OnRelations() then AccessOffers(mode, Relations(g, s.model, mode.Context()))
    else
      (if s.model != "" then AccessOffers(mode, QueryFields(g, s.model)) else [])
      + (if s.Subject().Some? then SuffixCandidates(s.Subject().value, s.transforms, mode) else [])
  }

  function StateCandidates(g: Graph, mode: PathMode, s: State): seq<Candidate> {
    FirstOfEach({""}, StateOffers(g, mode, s))
  }

  lemma FirstOfEachAppends(taken: set<string>, offers: seq<Candidate>, c: Candidate)
    ensures FirstOfEach(taken, offers + [c]) ==
            var kept := FirstOfEach(taken, offers);
            if c.name in taken + Names(kept) then kept else kept + [c]
  {
    assert (offers + [c])[..|offers|] == offers;
  }

  /** Keep a candidate if its name is new. */
  method Keep(c: Candidate, candidates: seq<Candidate>, seen: set<string>, ghost taken: set<string>,
              ghost before: seq<Candidate>)
    returns (more: seq<Candidate>, names: set<string>)
    requires Kept(taken, before, candidates, seen)
    ensures Kept(taken, before + [c], more, names)
  {
    FirstOfEachAppends(taken, before, c);
    if c.name in seen {
      return candidates, seen;
    }
    more, names := candidates + [c], seen + {c.name};
  }

  /** The candidates kept of the offers, and the names they take. */
  ghost predicate Kept(taken: set<string>, offers: seq<Candidate>, candidates: seq<Candidate>, seen: set<string>) {
    candidates == FirstOfEach(taken, offers) && seen == taken + Names(candidates)
  }

  method FieldSuffixCandidates(f: Field, prefix: seq<string>, mode: PathMode) returns (candidates: seq<Candidate>)
    ensures candidates == SuffixCandidates(f, prefix, mode)
  {
    candidates := [];
    if mode.PathFields? {
      return;
    }
    var paths := f.lookupPaths;
    var seen: set<string> := {};
    ghost var offers: seq<Candidate> := [];
    for i := 0 to |paths|
      invariant offers == SuffixOffers(f, paths[..i], prefix, mode)
      invariant Kept({}, offers, candidates, seen)
    {
      SuffixOffersStep(f, paths, prefix, mode, i);
      candidates, seen := AddPath(f, paths[i], prefix, mode, candidates, seen, offers);
      offers := offers + PathOffers(f, paths[i], prefix, mode);
    }
    assert paths[..|paths|] == paths;
  }

  lemma SuffixOffersStep(f: Field, paths: seq<LookupPath>, prefix: seq<string>, mode: PathMode, i: nat)
    requires i < |paths|
    ensures SuffixOffers(f, paths[..i + 1], prefix, mode) == SuffixOffers(f, paths[..i], prefix, mode)
                                                             + PathOffers(f, paths[i], prefix, mode)
  {
    assert paths[..i + 1][..i] == paths[..i];
  }

  method AddPath(f: Field, path: LookupPath, prefix: seq<string>, mode: PathMode,
                 candidates: seq<Candidate>, seen: set<string>, ghost before: seq<Candidate>)
    returns (more: seq<Candidate>, names: set<string>)
    requires Kept({}, before, candidates, seen)
    ensures Kept({}, before + PathOffers(f, path, prefix, mode), more, names)
  {
    more, names := candidates, seen;
    assert before + [] == before;
    if |path.transforms| < |prefix| || path.transforms[..|prefix|] != prefix {
      return;
    }
    if |path.transforms| > |prefix| {
      var name := path.transforms[|prefix|];
      if name != "*" {
        more, names := Keep(Candidate(name, TransformCandidate, f, 1), candidates, seen, {}, before);
      }
    } else if mode.PathLookup? {
      more, names := AddLookups(f, path.lookups, candidates, seen, before);
    }
  }

  method AddLookups(f: Field, lookups: seq<string>, candidates: seq<Candidate>, seen: set<string>,
                    ghost before: seq<Candidate>)
    returns (more: seq<Candidate>, names: set<string>)
    requires Kept({}, before, candidates, seen)
    ensures Kept({}, before + LookupOffers(f, lookups), more, names)
  {
    more, names := candidates, seen;
    ghost var offers := before;
    assert before + LookupOffers(f, lookups[..0]) == before;
    for k := 0 to |lookups|
      invariant offers == before + LookupOffers(f, lookups[..k])
      invariant Kept({}, offers, more, names)
    {
      var name := lookups[k];
      LookupOffersStep(f, lookups, k, before);
      if f.isRelation && !IsRelationLookup(name) {
        continue;
      }
      var c := Candidate(name, LookupCandidate, f, 2);
      more, names := Keep(c, more, names, {}, offers);
      offers := offers + [c];
    }
    assert lookups[..|lookups|] == lookups;
  }

  lemma LookupOffersStep(f: Field, lookups: seq<string>, k: nat, before: seq<Candidate>)
    requires k < |lookups|
    ensures before + LookupOffers(f, lookups[..k + 1]) ==
            before + LookupOffers(f, lookups[..k])
            + if f.isRelation && !IsRelationLookup(lookups[k]) then [] else [Candidate(lookups[k], LookupCandidate, f,
                                                                                       2)]
  {
    assert lookups[..k + 1][..k] == lookups[..k];
  }

  /** Keep each of these offers that has a new name. */
  method AddAll(offers: seq<Candidate>, candidates: seq<Candidate>, seen: set<string>, ghost before: seq<Candidate>)
    returns (more: seq<Candidate>, names: set<string>)
    requires Kept({""}, before, candidates, seen)
    ensures Kept({""}, before + offers, more, names)
  {
    more, names := candidates, seen;
    assert before + offers[..0] == before;
    ghost var all := before;
    for i := 0 to |offers|
      invariant all == before + offers[..i]
      invariant Kept({""}, all, more, names)
    {
      more, names := Keep(offers[i], more, names, {""}, all);
      all := all + [offers[i]];
    }
    assert offers[..|offers|] == offers;
  }

  method CandidatesForState(g: Graph, mode: PathMode, s: State) returns (candidates: seq<Candidate>)
    ensures candidates == StateCandidates(g, mode, s)
  {
    var seen: set<string>;
    if mode.OnRelations() {
      var relations := AccessOffers(mode, Relations(g, s.model, mode.Context()));
      candidates, seen := AddAll(relations, [], {""}, []);
      assert [] + relations == relations;
      return;
    }
    var fields := if s.model != "" then AccessOffers(mode, QueryFields(g, s.model)) else [];
    candidates, seen := AddAll(fields, [], {""}, []);
    assert [] + fields == fields;
    if s.Subject().Some? {
      var suffixes := FieldSuffixCandidates(s.Subject().value, s.transforms, mode);
      candidates, seen := AddAll(suffixes, candidates, seen, fields);
    } else {
      assert fields + [] == fields;
    }
  }

  // ---------------------------------------------------------------------------------------------
  // Walking a path
  // ---------------------------------------------------------------------------------------------

  function Start(model: string): State {
    State(model, None, None, [])
  }

  /** The state after the first `n` segments, if all of them are consumed; only the last segment may be a lookup. */
  function Walk(g: Graph, mode: PathMode, model: string, segments: seq<PathSegment>, n: nat): Option<State>
    requires n <= |segments|
  {
    if n == 0 then Some(Start(model))
    else
      match Walk(g, mode, model, segments, n - 1)
      case None => None
      case Some(s) => Next(Consume(g, mode, s, segments[n - 1], n < |segments|))
  }

  function Next(step: Option<(State, Resolved)>): Option<State> {
    if step.Some? then Some(step.value.0) else None
  }

  function Meaning(step: Option<(State, Resolved)>): Option<Resolved> {
    if step.Some? then Some(step.value.1) else None
  }

  lemma WalkStep(g: Graph, mode: PathMode, model: string, segments: seq<PathSegment>, i: nat, s: State)
    requires i < |segments| && Walk(g, mode, model, segments, i) == Some(s)
    ensures Walk(g, mode, model, segments, i + 1) == Next(Consume(g, mode, s, segments[i], i < |segments| - 1))
  {
  }

  /** A walk of some length is one step on from the walk before it. */
  lemma WalkBack(g: Graph, mode: PathMode, model: string, segments: seq<PathSegment>, n: nat)
    requires 0 < n <= |segments| && Walk(g, mode, model, segments, n).Some?
    ensures Walk(g, mode, model, segments, n - 1).Some?
    ensures
      var before := Walk(g, mode, model, segments, n - 1).value;
      && Consume(g, mode, before, segments[n - 1], n < |segments|).Some?
      && Walk(g, mode, model, segments, n).value == Consume(g, mode, before, segments[n - 1], n < |segments|).value.0
  {
  }

  lemma {:induction false} WalkStops(g: Graph, mode: PathMode, model: string, segments: seq<PathSegment>, k: nat,
                                     n: nat)
    requires k <= n <= |segments| && Walk(g, mode, model, segments, k).None?
    ensures Walk(g, mode, model, segments, n).None?
  {
    if k < n {
      WalkStops(g, mode, model, segments, k, n - 1);
    }
  }

  predicate CandidateLess(left: Candidate, right: Candidate) {
    if left.rank != right.rank then left.rank < right.rank else Less(left.name, right.name)
  }

  /** The candidates at the active segment that begin with its text, by rank and then name. */
  ghost predicate IsCompletion(g: Graph, model: string, mode: PathMode, segments: seq<PathSegment>, active: int,
                               candidates: seq<Candidate>) {
    if 0 <= active < |segments| && Walk(g, mode, model, segments, active).Some? then
      var s := Walk(g, mode, model, segments, active).value;
      && Ascending(CandidateLess, candidates)
      && forall c :: c in candidates <==> c in StateCandidates(g, mode, s) && segments[active].text <= c.name
    else candidates == []
  }

  method CompletePath(g: Graph, model: string, mode: PathMode, segments: seq<PathSegment>, active: int)
    returns (candidates: seq<Candidate>)
    ensures IsCompletion(g, model, mode, segments, active, candidates)
  {
    if active < 0 || active >= |segments| {
      return [];
    }
    var s := Start(model);
    for i := 0 to active
      invariant Walk(g, mode, model, segments, i) == Some(s)
    {
      var step := Consume(g, mode, s, segments[i], true);
      if step.None? {
        WalkStops(g, mode, model, segments, i + 1, active);
        return [];
      }
      s := step.value.0;
    }
    var all := CandidatesForState(g, mode, s);
    var filtered := WithPrefix(all, segments[active].text);
    candidates := Sort(CandidateLess, filtered);
    SameElements(candidates, filtered);
    DistinctNames({""}, StateOffers(g, mode, s));
    CandidatesComparable(filtered);
  }

  method WithPrefix(candidates: seq<Candidate>, prefix: string) returns (filtered: seq<Candidate>)
    ensures forall c :: c in filtered <==> c in candidates && prefix <= c.name
    ensures NamesApart(candidates) ==> NamesApart(filtered)
  {
    filtered := [];
    for i := 0 to |candidates|
      invariant forall c :: c in filtered <==> c in candidates[..i] && prefix <= c.name
      invariant NamesApart(candidates) ==> NamesApart(filtered)
    {
      if prefix <= candidates[i].name {
        forall j | NamesApart(candidates) && 0 <= j < |filtered| ensures filtered[j].name != candidates[i].name {
          assert filtered[j] in candidates[..i];
        }
        filtered := filtered + [candidates[i]];
      }
    }
    assert candidates[..|candidates|] == candidates;
  }

  predicate NamesApart(candidates: seq<Candidate>) {
    forall i, j :: 0 <= i < j < |candidates| ==> candidates[i].name != candidates[j].name
  }

  lemma {:induction false} DistinctNames(taken: set<string>, offers: seq<Candidate>)
    ensures NamesApart(FirstOfEach(taken, offers))
  {
    if offers != [] {
      var kept := FirstOfEach(taken, offers[..|offers| - 1]);
      DistinctNames(taken, offers[..|offers| - 1]);
      assert forall i :: 0 <= i < |kept| ==> kept[i] in kept && kept[i].name in Names(kept);
    }
  }

  lemma CandidatesComparable(candidates: seq<Candidate>)
    requires NamesApart(candidates)
    ensures Ascending(CandidateLess, Sort(CandidateLess, candidates))
  {
    StringOrder();
    assert Distinct(candidates);
    forall x, y | x in candidates && y in candidates && x != y ensures CandidateLess(x, y) || CandidateLess(y, x) {
      LessTotal(x.name, y.name);
    }
    SortAscending(CandidateLess, candidates);
  }

  /** What the target segment stands for. */
  function Hover(g: Graph, model: string, mode: PathMode, segments: seq<PathSegment>, target: nat): Option<Resolved>
    requires target < |segments|
  {
    match Walk(g, mode, model, segments, target)
    case None => None
    case Some(s) => Meaning(Consume(g, mode, s, segments[target], target + 1 < |segments|))
  }

  method ResolvePathSegment(g: Graph, model: string, mode: PathMode, segments: seq<PathSegment>, target: int)
    returns (r: Option<Resolved>)
    ensures r == if 0 <= target < |segments| then Hover(g, model, mode, segments, target) else None
  {
    if target < 0 || target >= |segments| {
      return None;
    }
    var s := Start(model);
    r := None;
    for i := 0 to target + 1
      invariant Walk(g, mode, model, segments, i) == Some(s)
      invariant i == target + 1 ==> r == Hover(g, model, mode, segments, target)
    {
      WalkStep(g, mode, model, segments, i, s);
      var step := Consume(g, mode, s, segments[i], i < |segments| - 1);
      if step.None? {
        NoHover(g, mode, model, segments, i, target);
        return None;
      }
      s, r := step.value.0, Some(step.value.1);
    }
  }

  lemma NoHover(g: Graph, mode: PathMode, model: string, segments: seq<PathSegment>, i: nat, target: nat)
    requires i <= target < |segments|
    requires Walk(g, mode, model, segments, i + 1).None?
    ensures Hover(g, model, mode, segments, target).None?
  {
    WalkStops(g, mode, model, segments, i + 1, target + 1);
    if Walk(g, mode, model, segments, target).Some? {
      WalkStep(g, mode, model, segments, target, Walk(g, mode, model, segments, target).value);
    }
  }

  // ---------------------------------------------------------------------------------------------
  // Validation
  // ---------------------------------------------------------------------------------------------

  /** The lookup paths do not tell whether the name is wrong. */
  predicate Indeterminate(f: Field, transforms: seq<string>, failed: string, hasMore: bool) {
    || f.lookupPathsTruncated
    || (!hasMore && failed in f.unsupportedLookups)
    || (!f.isRelation && exists i :: 0 <= i < |f.lookupPaths| && "*" in f.lookupPaths[i].transforms
                                     && |transforms| >= |f.lookupPaths[i].transforms|)
  }

  /** Validation does not look at such paths. */
  predicate Skipped(model: string, mode: PathMode, segments: seq<PathSegment>, annotations: seq<string>) {
    || model == "" || |segments| == 0 || |segments| > MAX_PATH_SEGMENTS
    || ((mode.PathLookup? || mode.PathProjection?) && segments[0].text != "" && segments[0].text in annotations)
  }

  function EmptyCode(mode: PathMode, s: State): IssueCode {
    if s.field.None? then UnknownPathSegment
    else
      match mode
      case PathLookup => InvalidLookup
      case PathProjection => InvalidProjection
      case PathFields => NonRelationTraversal
      case _ => UnknownPathSegment
  }

  predicate IsPlain(access: Option<Access>) {
    access.Some? && !access.value.field.isRelation
  }

  function RefusedCode(g: Graph, mode: PathMode, s: State, name: string): IssueCode {
    match mode
    case PathSelectRelated => if QueryAccess(g, s.model, name).Some? then InvalidSelectRelated else UnknownPathSegment
    case PathPrefetchRelated =>
      if IsPlain(QueryAccess(g, s.model, name)) || IsPlain(InstanceAccess(g, s.model, name)) then NonRelationTraversal
      else UnknownPathSegment
    case _ => EmptyCode(mode, s)
  }

  /** The issue for a segment that is refused. */
  function IssueAt(g: Graph, mode: PathMode, s: State, segment: PathSegment, hasMore: bool): Option<PathIssue> {
    if segment.text == "" then Some(PathIssue(EmptyCode(mode, s), segment, s.model, s.Subject()))
    else if s.Subject().Some? && Indeterminate(s.Subject().value, s.transforms, segment.text, hasMore) then None
    else Some(PathIssue(RefusedCode(g, mode, s, segment.text), segment, s.model, s.Subject()))
  }

  /** The first segment from `k` on that is refused. */
  function FirstRefused(g: Graph, mode: PathMode, model: string, segments: seq<PathSegment>, k: nat): (r: Option<nat>)
    requires k <= |segments| && Walk(g, mode, model, segments, k).Some?
    ensures r.Some? ==> k <= r.value < |segments|
    ensures r.Some? ==> Walk(g, mode, model, segments, r.value).Some?
                        && Walk(g, mode, model, segments, r.value + 1).None?
    ensures r.None? ==> Walk(g, mode, model, segments, |segments|).Some?
    decreases |segments| - k
  {
    if k == |segments| then None
    else if Walk(g, mode, model, segments, k + 1).None? then Some(k)
    else FirstRefused(g, mode, model, segments, k + 1)
  }

  function Validation(g: Graph, model: string, mode: PathMode, segments: seq<PathSegment>,
                      annotations: seq<string>): Option<PathIssue> {
    if Skipped(model, mode, segments, annotations) then None
    else
      match FirstRefused(g, mode, model, segments, 0)
      case None => None
      case Some(k) =>
        IssueAt(g, mode, Walk(g, mode, model, segments, k).value, segments[k], k + 1 < |segments|)
  }

  lemma {:induction false} RefusedFrom(g: Graph, mode: PathMode, model: string, segments: seq<PathSegment>, k: nat)
    requires k <= |segments| && Walk(g, mode, model, segments, k).Some?
    ensures FirstRefused(g, mode, model, segments, 0) == FirstRefused(g, mode, model, segments, k)
  {
    if k > 0 {
      RefusedFrom(g, mode, model, segments, k - 1);
      RefusedLater(g, mode, model, segments, k - 1);
    }
  }

  lemma RefusedLater(g: Graph, mode: PathMode, model: string, segments: seq<PathSegment>, k: nat)
    requires k < |segments| && Walk(g, mode, model, segments, k).Some? && Walk(g, mode, model, segments, k + 1).Some?
    ensures FirstRefused(g, mode, model, segments, k) == FirstRefused(g, mode, model, segments, k + 1)
  {
  }

  method ValidatePath(g: Graph, model: string, mode: PathMode, segments: seq<PathSegment>, annotations: seq<string>)
    returns (issue: Option<PathIssue>)
    ensures issue == Validation(g, model, mode, segments, annotations)
  {
    if model == "" || |segments| == 0 || |segments| > MAX_PATH_SEGMENTS {
      return None;
    }
    if mode.PathLookup? || mode.PathProjection? {
      if segments[0].text != "" && segments[0].text in annotations {
        return None;
      }
    }
    var s := Start(model);
    for i := 0 to |segments|
      invariant Walk(g, mode, model, segments, i) == Some(s)
    {
      RefusedFrom(g, mode, model, segments, i);
      WalkStep(g, mode, model, segments, i, s);
      if segments[i].text == "" {
        return Some(PathIssue(EmptyCode(mode, s), segments[i], s.model, s.Subject()));
      }
      var step := Consume(g, mode, s, segments[i], i < |segments| - 1);
      if step.None? {
        return IssueAt(g, mode, s, segments[i], i < |segments| - 1);
      }
      s := step.value.0;
    }
    RefusedFrom(g, mode, model, segments, |segments|);
    return None;
  }
}
