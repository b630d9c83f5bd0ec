/** The enumeration is exact, and the resolver accepts exactly what it lists. */
module LookupTheorems {
  import opened Prelude
  import opened Ordering
  import opened Schema
  import opened SchemaGraph
  import opened PathResolver
  import opened PathTheorems
  import L = LookupPaths

  ghost predicate ListsChain(paths: seq<LookupPath>, chain: L.Chain) {
    exists i :: 0 <= i < |paths| && L.IsPathOf(paths[i], chain)
  }

  /** The path is that of a chain, with the lookups of the expression the chain leads to. */
  ghost predicate IsTrue<Node>(registry: L.Registry<Node>, root: Node, path: LookupPath, chain: L.Chain) {
    && L.IsPathOf(path, chain) && |chain| <= MAX_LOOKUP_DEPTH
    && registry.Reach(root, chain).Some? && path.lookups == registry.lookups(registry.Reach(root, chain).value)
  }

  lemma PathOrigin<Node>(registry: L.Registry<Node>, paths: seq<LookupPath>, queue: seq<L.Entry<Node>>, i: nat)
    returns (k: nat)
    requires L.ListsAll(registry, paths, queue) && i < |paths|
    ensures k < |queue| && paths[i] == L.PathOf(registry, queue[k])
  {
    var of := L.PathsOf(registry, queue);
    SameElements(paths, of);
    assert paths[i] in of;
    k :| 0 <= k < |of| && of[k] == paths[i];
  }

  lemma EntryIsListed<Node>(registry: L.Registry<Node>, paths: seq<LookupPath>, queue: seq<L.Entry<Node>>,
                                                 k: nat) returns (i: nat)
    requires L.ListsAll(registry, paths, queue) && k < |queue|
    ensures i < |paths| && paths[i] == L.PathOf(registry, queue[k])
  {
    var of := L.PathsOf(registry, queue);
    SameElements(paths, of);
    assert of[k] in of;
    i :| 0 <= i < |paths| && paths[i] == of[k];
  }

  lemma ListedIsQueued<Node>(registry: L.Registry<Node>, paths: seq<LookupPath>, queue: seq<L.Entry<Node>>,
                                                  chain: L.Chain)
    requires L.ListsAll(registry, paths, queue)
    ensures ListsChain(paths, chain) <==> L.Has(queue, chain)
  {
    if i :| 0 <= i < |paths| && L.IsPathOf(paths[i], chain) {
      var k := PathOrigin(registry, paths, queue, i);
      L.SamePathSameChain(chain, queue[k].chain);
    }
    if k :| 0 <= k < |queue| && queue[k].chain == chain {
      var i := EntryIsListed(registry, paths, queue, k);
      assert L.IsPathOf(paths[i], chain);
    }
  }

  /** Fewer than 512 paths, no two alike. */
  lemma ListedPathsAreDistinct<Node(!new)>(registry: L.Registry<Node>, root: Node, paths: seq<LookupPath>,
                                                                truncated: bool)
    requires L.Enumerates(registry, root, paths, truncated)
    ensures |paths| < MAX_LOOKUP_PATHS
    ensures forall i, j :: 0 <= i < j < |paths| ==> paths[i].transforms != paths[j].transforms
                                                    || paths[i].kinds != paths[j].kinds
  {
    var queue: seq<L.Entry<Node>> :| L.EnumeratesAs(registry, root, paths, truncated, queue);
    SameElements(paths, L.PathsOf(registry, queue));
    forall i, j | 0 <= i < j < |paths|
      ensures paths[i].transforms != paths[j].transforms || paths[i].kinds != paths[j].kinds {
      assert L.PathLess(paths[i], paths[j]);
      L.ListLessIrreflexive(paths[i].kinds);
    }
  }

  /** Every path is that of a constructible chain of at most two transforms, with its terminal lookups. */
  lemma ListedPathIsTrue<Node(!new)>(registry: L.Registry<Node>, root: Node, paths: seq<LookupPath>, truncated: bool,
                                                          i: nat)
    returns (chain: L.Chain)
    requires L.Enumerates(registry, root, paths, truncated) && i < |paths|
    ensures IsTrue(registry, root, paths[i], chain)
  {
    var queue: seq<L.Entry<Node>> :| L.EnumeratesAs(registry, root, paths, truncated, queue);
    var k := PathOrigin(registry, paths, queue, i);
    chain := queue[k].chain;
  }

  lemma QueuedBefore<Node>(queue: seq<L.Entry<Node>>, chain: L.Chain)
    requires L.Rooted(queue, |queue|) && chain != [] && L.Has(queue, chain)
    ensures L.Has(queue, L.Init(chain))
  {
    assert queue[..|queue|] == queue;
    var i :| 0 <= i < |queue| && queue[i].chain == chain;
    assert i > 0;
  }

  /** The empty chain is listed, and so is the chain before the last transform of each listed one. */
  lemma ListedChainsAreClosed<Node(!new)>(registry: L.Registry<Node>, root: Node, paths: seq<LookupPath>,
                                                               truncated: bool, chain: L.Chain)
    requires L.Enumerates(registry, root, paths, truncated)
    ensures ListsChain(paths, [])
    ensures chain != [] && ListsChain(paths, chain) ==> ListsChain(paths, L.Init(chain))
  {
    var queue: seq<L.Entry<Node>> :| L.EnumeratesAs(registry, root, paths, truncated, queue);
    ListedIsQueued(registry, paths, queue, []);
    ListedIsQueued(registry, paths, queue, chain);
    assert L.Has(queue, []);
    if chain != [] && ListsChain(paths, chain) {
      ListedIsQueued(registry, paths, queue, L.Init(chain));
      QueuedBefore(queue, chain);
    }
  }

  ghost predicate Constructible<Node>(registry: L.Registry<Node>, root: Node, chain: L.Chain) {
    |chain| <= MAX_LOOKUP_DEPTH && registry.Reach(root, chain).Some?
  }

  /** The list is called truncated if and only if a constructible chain of at most two transforms is missing. */
  lemma TruncatedMeansMissing<Node(!new)>(registry: L.Registry<Node>, root: Node, paths: seq<LookupPath>,
                                                               truncated: bool)
    requires L.Enumerates(registry, root, paths, truncated)
    ensures truncated <==> exists chain :: Constructible(registry, root, chain) && !ListsChain(paths, chain)
  {
    var queue: seq<L.Entry<Node>> :| L.EnumeratesAs(registry, root, paths, truncated, queue);
    MissesMeansUnlisted(registry, root, paths, queue);
  }

  lemma MissesMeansUnlisted<Node>(registry: L.Registry<Node>, root: Node, paths: seq<LookupPath>,
                                                       queue: seq<L.Entry<Node>>)
    requires L.ListsAll(registry, paths, queue)
    ensures L.Misses(registry, root, queue) <==> exists chain :: Constructible(registry, root, chain)
                                                                 && !ListsChain(paths, chain)
  {
    if L.Misses(registry, root, queue) {
      var chain: L.Chain :| |chain| <= MAX_LOOKUP_DEPTH && registry.Reach(root, chain).Some? && !L.Has(queue, chain);
      ListedIsQueued(registry, paths, queue, chain);
      assert Constructible(registry, root, chain);
    }
    if chain :| Constructible(registry, root, chain) && !ListsChain(paths, chain) {
      ListedIsQueued(registry, paths, queue, chain);
    }
  }

  ghost predicate Counts<Node(!new)>(registry: L.Registry<Node>, root: Node, all: set<L.Chain>) {
    forall chain :: chain in all <==> Constructible(registry, root, chain)
  }

  lemma {:induction false} QueueFits<Node>(queue: seq<L.Entry<Node>>, all: set<L.Chain>)
    requires L.ChainsApart(queue) && forall i :: 0 <= i < |queue| ==> queue[i].chain in all
    ensures |queue| <= |all|
    decreases |queue|
  {
    if queue != [] {
      var n := |queue| - 1;
      QueueFits(queue[..n], all - {queue[n].chain});
    }
  }

  /** A field with fewer than 256 constructible chains is enumerated whole. */
  lemma FewAreAllListed<Node(!new)>(registry: L.Registry<Node>, root: Node, paths: seq<LookupPath>, truncated: bool,
                                                         all: set<L.Chain>)
    requires L.Enumerates(registry, root, paths, truncated)
    requires Counts(registry, root, all) && |all| < 256
    ensures !truncated && |paths| == |all|
    ensures forall chain :: chain in all <==> ListsChain(paths, chain)
  {
    var queue: seq<L.Entry<Node>> :| L.EnumeratesAs(registry, root, paths, truncated, queue);
    forall i | 0 <= i < |queue| ensures queue[i].chain in all {
      assert Constructible(registry, root, queue[i].chain);
    }
    QueueFits(queue, all);
    TruncatedMeansMissing(registry, root, paths, truncated);
    forall chain ensures chain in all <==> ListsChain(paths, chain) {
      ListedIsQueued(registry, paths, queue, chain);
      assert L.Has(queue, chain) ==> chain in all;
    }
    SetFits(queue, all);
    SameElements(paths, L.PathsOf(registry, queue));
  }

  lemma {:induction false} SetFits<Node>(queue: seq<L.Entry<Node>>, all: set<L.Chain>)
    requires forall chain :: chain in all ==> L.Has(queue, chain)
    ensures |all| <= |queue|
    decreases |queue|
  {
    if queue != [] {
      var n := |queue| - 1;
      forall chain | chain in all - {queue[n].chain} ensures L.Has(queue[..n], chain) {
        assert queue == queue[..n] + [queue[n]];
        L.HasInBoth(queue[..n], [queue[n]], chain);
      }
      SetFits(queue[..n], all - {queue[n].chain});
    } else {
      assert forall chain :: !L.Has(queue, chain);
      assert all == {};
    }
  }

  /** Once all that is queued has been visited, the queue does not grow. */
  lemma {:induction false} WalkedStays<Node>(registry: L.Registry<Node>, root: Node, n: nat, m: nat)
    requires n <= m && |L.Walked(registry, root, n)| == n
    ensures L.Walked(registry, root, m) == L.Walked(registry, root, n)
  {
    if n < m {
      WalkedStays(registry, root, n, m - 1);
    }
  }

  lemma QueueIsUnique<Node>(registry: L.Registry<Node>, root: Node, a: seq<L.Entry<Node>>, b: seq<L.Entry<Node>>)
    requires L.Traced(registry, root, a, |a|) && L.Traced(registry, root, b, |b|)
    ensures a == b
  {
    if |a| <= |b| {
      WalkedStays(registry, root, |a|, |b|);
    } else {
      WalkedStays(registry, root, |b|, |a|);
    }
  }

  /** The enumeration has one result, whether or not it is cut short. */
  lemma EnumerationIsUnique<Node(!new)>(registry: L.Registry<Node>, root: Node, paths: seq<LookupPath>, cut: bool,
                                                             others: seq<LookupPath>, otherCut: bool)
    requires L.Enumerates(registry, root, paths, cut) && L.Enumerates(registry, root, others, otherCut)
    ensures paths == others && cut == otherCut
  {
    var a: seq<L.Entry<Node>> :| L.EnumeratesAs(registry, root, paths, cut, a);
    var b: seq<L.Entry<Node>> :| L.EnumeratesAs(registry, root, others, otherCut, b);
    QueueIsUnique(registry, root, a, b);
    L.PathOrder();
    SameElements(paths, others);
    AscendingUnique(L.PathLess, paths, others);
  }

  // ---------------------------------------------------------------------------------------------
  // What the resolver accepts after a field
  // ---------------------------------------------------------------------------------------------

  predicate WildcardFree(f: Field) {
    forall i :: 0 <= i < |f.lookupPaths| ==> "*" !in f.lookupPaths[i].transforms
  }

  /** With each listed chain, the chain before its last transform is listed. */
  ghost predicate PrefixClosed(f: Field) {
    forall i :: 0 <= i < |f.lookupPaths| && f.lookupPaths[i].transforms != [] ==>
                  ListedExactly(f, AllButLast(f.lookupPaths[i].transforms))
  }

  function AllButLast(names: seq<string>): seq<string>
    requires names != []
  {
    names[..|names| - 1]
  }

  ghost predicate ListedExactly(f: Field, names: seq<string>) {
    exists i :: 0 <= i < |f.lookupPaths| && f.lookupPaths[i].transforms == names
  }

  lemma InitNames(chain: L.Chain)
    requires chain != []
    ensures L.TransformsOf(chain) != [] && L.TransformsOf(L.Init(chain)) == AllButLast(L.TransformsOf(chain))
  {
    assert |L.TransformsOf(chain)| == |chain|;
  }

  /** The chain before a listed one is listed. */
  lemma ListedBefore<Node(!new)>(registry: L.Registry<Node>, root: Node, f: Field, i: nat)
    requires L.Enumerates(registry, root, f.lookupPaths, f.lookupPathsTruncated)
    requires i < |f.lookupPaths| && f.lookupPaths[i].transforms != []
    ensures ListedExactly(f, AllButLast(f.lookupPaths[i].transforms))
  {
    var paths := f.lookupPaths;
    var chain := ListedPathIsTrue(registry, root, paths, f.lookupPathsTruncated, i);
    assert |chain| == |L.TransformsOf(chain)|;
    assert ListsChain(paths, chain);
    ListedChainsAreClosed(registry, root, paths, f.lookupPathsTruncated, chain);
    InitNames(chain);
    var k :| 0 <= k < |paths| && L.IsPathOf(paths[k], L.Init(chain));
  }

  /** The enumerated paths of a field are prefix closed. */
  lemma EnumeratedIsPrefixClosed<Node(!new)>(registry: L.Registry<Node>, root: Node, f: Field)
    requires L.Enumerates(registry, root, f.lookupPaths, f.lookupPathsTruncated)
    ensures PrefixClosed(f)
  {
    forall i | 0 <= i < |f.lookupPaths| && f.lookupPaths[i].transforms != []
      ensures ListedExactly(f, AllButLast(f.lookupPaths[i].transforms))
    {
      ListedBefore(registry, root, f, i);
    }
  }

  lemma {:induction false} PrefixesAreListed(f: Field, names: seq<string>, k: nat)
    requires PrefixClosed(f) && ListedExactly(f, names) && k <= |names|
    ensures ListedExactly(f, names[..k])
  {
    if k == |names| {
      assert names[..k] == names;
    } else {
      PrefixesAreListed(f, AllButLast(names), k);
      assert AllButLast(names)[..k] == names[..k];
    }
  }

  lemma ContinuesIsListed(f: Field, prefix: seq<string>, name: string, i: nat)
    requires PrefixClosed(f) && i < |f.lookupPaths| && Continues(f.lookupPaths[i], prefix, name)
    ensures ListedExactly(f, prefix + [name])
  {
    var transforms := f.lookupPaths[i].transforms;
    assert ListedExactly(f, transforms);
    PrefixesAreListed(f, transforms, |prefix| + 1);
    assert transforms[..|prefix| + 1] == prefix + [name];
  }

  lemma ListedContinues(f: Field, prefix: seq<string>, name: string) returns (i: nat)
    requires ListedExactly(f, prefix + [name])
    ensures i < |f.lookupPaths| && Continues(f.lookupPaths[i], prefix, name)
  {
    i :| 0 <= i < |f.lookupPaths| && f.lookupPaths[i].transforms == prefix + [name];
  }

  ghost predicate Continued(f: Field, prefix: seq<string>, name: string) {
    exists i :: 0 <= i < |f.lookupPaths| && Continues(f.lookupPaths[i], prefix, name)
  }

  lemma ContinuesMeansListed(f: Field, prefix: seq<string>, name: string)
    requires PrefixClosed(f)
    ensures Continued(f, prefix, name) == ListedExactly(f, prefix + [name])
  {
    if Continued(f, prefix, name) {
      var i :| 0 <= i < |f.lookupPaths| && Continues(f.lookupPaths[i], prefix, name);
      ContinuesIsListed(f, prefix, name, i);
    }
    if ListedExactly(f, prefix + [name]) {
      var i := ListedContinues(f, prefix, name);
    }
  }

  lemma {:induction false} DecidedMeansKnown(f: Field, paths: seq<LookupPath>, prefix: seq<string>, name: string,
                                             lookups: bool)
    ensures Decision(f, paths, prefix, name, lookups).Some? <==>
            exists i :: 0 <= i < |paths| && PathDecision(f, paths[i], prefix, name, lookups).Some?
  {
    if paths != [] {
      var k := |paths| - 1;
      DecidedMeansKnown(f, paths[..k], prefix, name, lookups);
      assert forall i :: 0 <= i < k ==> paths[..k][i] == paths[i];
    }
  }

  /** A terminal lookup of the chain. */
  ghost predicate ListedLookup(f: Field, names: seq<string>, name: string) {
    exists i :: 0 <= i < |f.lookupPaths| && f.lookupPaths[i].transforms == names && name in f.lookupPaths[i].lookups
  }

  /** Some path knows the name as the next transform or as a terminal lookup. */
  lemma KnownMeansListed(f: Field, prefix: seq<string>, name: string, lookups: bool)
    requires PrefixClosed(f) && !f.isRelation
    ensures Decision(f, f.lookupPaths, prefix, name, lookups).Some? <==>
            ListedExactly(f, prefix + [name]) || (lookups && ListedLookup(f, prefix, name))
  {
    var paths := f.lookupPaths;
    DecidedMeansKnown(f, paths, prefix, name, lookups);
    ContinuesMeansListed(f, prefix, name);
    if i :| 0 <= i < |paths| && Continues(paths[i], prefix, name) {
      assert PathDecision(f, paths[i], prefix, name, lookups).Some?;
    }
    if i :| 0 <= i < |paths| && lookups && HasLookup(f, paths[i], prefix, name) {
      assert PathDecision(f, paths[i], prefix, name, lookups).Some?;
    }
    if lookups && ListedLookup(f, prefix, name) {
      var i :| 0 <= i < |paths| && paths[i].transforms == prefix && name in paths[i].lookups;
      assert HasLookup(f, paths[i], prefix, name);
    }
  }

  lemma SuffixIsDecision(f: Field, prefix: seq<string>, name: string, hasMore: bool)
    requires WildcardFree(f)
    ensures
      var r := Suffix(Some(f), prefix, name, PathLookup, hasMore);
      && (r.Some? <==> Decision(f, f.lookupPaths, prefix, name, !hasMore).Some?)
      && (r.Some? && hasMore ==> r.value.1 == prefix + [name])
  {
    if Decision(f, f.lookupPaths, prefix, name, false) == Some(LookupCandidate) {
      DecidedByLookup(f, f.lookupPaths, prefix, name, false);
    }
  }

  lemma SuffixMeansListed(f: Field, prefix: seq<string>, name: string, hasMore: bool)
    requires PrefixClosed(f) && WildcardFree(f) && !f.isRelation
    ensures
      var r := Suffix(Some(f), prefix, name, PathLookup, hasMore);
      && (r.Some? <==> ListedExactly(f, prefix + [name]) || (!hasMore && ListedLookup(f, prefix, name)))
      && (r.Some? && hasMore ==> r.value.1 == prefix + [name])
  {
    KnownMeansListed(f, prefix, name, !hasMore);
    SuffixIsDecision(f, prefix, name, hasMore);
  }

  /** A field of the model that is not a relation, followed by some names. */
  function FieldPath(own: PathSegment, suffix: seq<PathSegment>): seq<PathSegment> {
    [own] + suffix
  }

  function Texts(segments: seq<PathSegment>): seq<string> {
    seq(|segments|, i requires 0 <= i < |segments| => segments[i].text)
  }

  predicate NamesField(g: Graph, model: string, own: PathSegment, f: Field) {
    && model != "" && own.text != "" && !f.isRelation
    && QueryAccess(g, model, own.text).Some? && QueryAccess(g, model, own.text).value.field == f
  }

  lemma ConsumeOnField(g: Graph, f: Field, names: seq<string>, segment: PathSegment)
    requires PrefixClosed(f) && WildcardFree(f) && !f.isRelation
    ensures Next(Consume(g, PathLookup, State("", Some(f), None, names), segment, true)) ==
            if segment.text != "" && ListedExactly(f, names + [segment.text]) then Some(State("", Some(f), None,
                                                                                              names + [segment.text]))
            else None
  {
    SuffixMeansListed(f, names, segment.text, true);
  }

  /** The state after the field and these names. */
  ghost function OnField(f: Field, names: seq<string>): Option<State> {
    if names == [] || ("" !in names && ListedExactly(f, names)) then Some(State("", Some(f), None, names)) else None
  }

  lemma OnFieldStep(g: Graph, f: Field, names: seq<string>, segment: PathSegment)
    requires PrefixClosed(f) && WildcardFree(f) && !f.isRelation
    ensures OnField(f, names + [segment.text]) ==
            if OnField(f, names).None? then None
            else Next(Consume(g, PathLookup, OnField(f, names).value, segment, true))
  {
    var more := names + [segment.text];
    ConsumeOnField(g, f, names, segment);
    if ListedExactly(f, more) {
      PrefixesAreListed(f, more, |names|);
      assert more[..|names|] == names;
    }
  }

  lemma {:induction false} WalkAfterField(g: Graph, model: string, own: PathSegment, f: Field,
                                          suffix: seq<PathSegment>, n: nat)
    requires NamesField(g, model, own, f) && PrefixClosed(f) && WildcardFree(f)
    requires n < |suffix| || n == 0
    ensures Walk(g, PathLookup, model, FieldPath(own, suffix), n + 1) == OnField(f, Texts(suffix)[..n])
  {
    var path := FieldPath(own, suffix);
    if n == 0 {
      WalkStep(g, PathLookup, model, path, 0, Start(model));
    } else {
      WalkAfterField(g, model, own, f, suffix, n - 1);
      assert Texts(suffix)[..n] == Texts(suffix)[..n - 1] + [suffix[n - 1].text];
      assert path[n] == suffix[n - 1];
      OnFieldStep(g, f, Texts(suffix)[..n - 1], suffix[n - 1]);
      if Walk(g, PathLookup, model, path, n).Some? {
        WalkStep(g, PathLookup, model, path, n, OnField(f, Texts(suffix)[..n - 1]).value);
      } else {
        WalkStops(g, PathLookup, model, path, n, n + 1);
      }
    }
  }

  lemma LastOnField(g: Graph, f: Field, names: seq<string>, segment: PathSegment)
    requires PrefixClosed(f) && WildcardFree(f) && !f.isRelation
    ensures Consume(g, PathLookup, State("", Some(f), None, names), segment, false).Some? ==
            (segment.text != "" && (ListedExactly(f, names + [segment.text]) || ListedLookup(f, names, segment.text)))
  {
    SuffixMeansListed(f, names, segment.text, false);
  }

  /** The names are a listed chain, or a listed chain followed by one of its terminal lookups; none is empty. */
  ghost predicate InLanguage(f: Field, names: seq<string>)
    requires names != []
  {
    && "" !in names
    && (ListedExactly(f, names)
        || ((|names| == 1 || ListedExactly(f, AllButLast(names)))
            && ListedLookup(f, AllButLast(names), names[|names| - 1])))
  }

  lemma LanguageStep(f: Field, before: seq<string>, name: string)
    requires PrefixClosed(f)
    ensures InLanguage(f, before + [name]) ==
            (OnField(f, before).Some? && name != ""
             && (ListedExactly(f, before + [name]) || ListedLookup(f, before, name)))
  {
    var names := before + [name];
    assert AllButLast(names) == before;
    if ListedExactly(f, names) {
      PrefixesAreListed(f, names, |before|);
      assert names[..|before|] == before;
    }
  }

  /**
   After a field that is not a relation, whose paths are prefix closed and have no "*", the
   resolver accepts in lookup mode exactly the listed chains, and the listed chains followed by one
   of their terminal lookups; names are never empty.
   */
  lemma AcceptsExactlyTheListed(g: Graph, model: string, own: PathSegment, f: Field, suffix: seq<PathSegment>)
    requires NamesField(g, model, own, f) && PrefixClosed(f) && WildcardFree(f) && suffix != []
    ensures
      var path := FieldPath(own, suffix);
      Walk(g, PathLookup, model, path, |path|).Some? == InLanguage(f, Texts(suffix))
  {
    var path := FieldPath(own, suffix);
    var n := |suffix| - 1;
    var before, last := Texts(suffix)[..n], suffix[n];
    assert Texts(suffix) == before + [last.text] && path[n + 1] == last;
    WalkAfterField(g, model, own, f, suffix, n);
    LanguageStep(f, before, last.text);
    if OnField(f, before).Some? {
      LastOnField(g, f, before, last);
      WalkStep(g, PathLookup, model, path, n + 1, OnField(f, before).value);
    } else {
      WalkStops(g, PathLookup, model, path, n + 1, n + 2);
    }
  }

  /**
   So for a field whose paths were enumerated without being truncated, these are exactly the
   constructible chains of at most two transforms, and their terminal lookups.
   */
  lemma AcceptsExactlyTheConstructible<Node(!new)>(g: Graph, model: string, own: PathSegment, f: Field,
                                                   suffix: seq<PathSegment>,
                                                   registry: L.Registry<Node>, root: Node)
    requires NamesField(g, model, own, f) && WildcardFree(f) && suffix != [] && "" !in Texts(suffix)
    requires L.Enumerates(registry, root, f.lookupPaths, false) && !f.lookupPathsTruncated
    ensures
      var path := FieldPath(own, suffix);
      Walk(g, PathLookup, model, path, |path|).Some? ==
      (ReachedBy(registry, root, Texts(suffix))
       || LookedUpBy(registry, root, AllButLast(Texts(suffix)), Texts(suffix)[|suffix| - 1]))
  {
    EnumeratedIsPrefixClosed(registry, root, f);
    AcceptsExactlyTheListed(g, model, own, f, suffix);
    var names := Texts(suffix);
    ListedIsReached(registry, root, f, names);
    LookupIsReached(registry, root, f, AllButLast(names), names[|names| - 1]);
  }

  /** A chain of fixed transforms with these names can be constructed. */
  ghost predicate ReachedBy<Node>(registry: L.Registry<Node>, root: Node, names: seq<string>) {
    |names| <= MAX_LOOKUP_DEPTH && registry.Reach(root, Fixed(names)).Some?
  }

  /** The expression that chain leads to has this lookup. */
  ghost predicate LookedUpBy<Node>(registry: L.Registry<Node>, root: Node, names: seq<string>, name: string) {
    ReachedBy(registry, root, names) && name in registry.lookups(registry.Reach(root, Fixed(names)).value)
  }

  function Fixed(names: seq<string>): L.Chain {
    seq(|names|, i requires 0 <= i < |names| => L.Link(names[i], false))
  }

  /** Without a "*", a listed path is that of a chain of fixed transforms. */
  lemma TrueChainIsFixed<Node>(registry: L.Registry<Node>, root: Node, f: Field, i: nat, chain: L.Chain)
    requires WildcardFree(f) && i < |f.lookupPaths| && IsTrue(registry, root, f.lookupPaths[i], chain)
    ensures chain == Fixed(f.lookupPaths[i].transforms)
  {
    var names := f.lookupPaths[i].transforms;
    assert |chain| == |L.TransformsOf(chain)| == |names|;
    forall k | 0 <= k < |chain| ensures chain[k] == L.Link(names[k], false) {
      assert chain[k].name == L.TransformsOf(chain)[k] == names[k];
      KeysAreStars(registry, root, chain, k);
    }
  }

  lemma {:induction false} KeysAreStars<Node>(registry: L.Registry<Node>, root: Node, chain: L.Chain, k: nat)
    requires registry.Reach(root, chain).Some? && k < |chain|
    ensures chain[k].isKey ==> chain[k].name == "*"
  {
    if k < |chain| - 1 {
      KeysAreStars(registry, root, chain[..|chain| - 1], k);
    }
  }

  lemma ListedIsReached<Node(!new)>(registry: L.Registry<Node>, root: Node, f: Field, names: seq<string>)
    requires WildcardFree(f) && L.Enumerates(registry, root, f.lookupPaths, false)
    ensures ListedExactly(f, names) == ReachedBy(registry, root, names)
  {
    if i :| 0 <= i < |f.lookupPaths| && f.lookupPaths[i].transforms == names {
      var chain := ListedPathIsTrue(registry, root, f.lookupPaths, false, i);
      TrueChainIsFixed(registry, root, f, i, chain);
    }
    if ReachedBy(registry, root, names) {
      ConstructibleIsListed(registry, root, f.lookupPaths, Fixed(names));
      var i := ChainIsListed(f, names);
    }
  }

  lemma ConstructibleIsListed<Node(!new)>(registry: L.Registry<Node>, root: Node, paths: seq<LookupPath>,
                                                               chain: L.Chain)
    requires L.Enumerates(registry, root, paths, false) && Constructible(registry, root, chain)
    ensures ListsChain(paths, chain)
  {
    TruncatedMeansMissing(registry, root, paths, false);
  }

  lemma ChainIsListed(f: Field, names: seq<string>) returns (i: nat)
    requires ListsChain(f.lookupPaths, Fixed(names))
    ensures i < |f.lookupPaths| && f.lookupPaths[i].transforms == names
  {
    i :| 0 <= i < |f.lookupPaths| && L.IsPathOf(f.lookupPaths[i], Fixed(names));
    assert L.TransformsOf(Fixed(names)) == names;
  }

  lemma LookupIsReached<Node(!new)>(registry: L.Registry<Node>, root: Node, f: Field, names: seq<string>, name: string)
    requires WildcardFree(f) && L.Enumerates(registry, root, f.lookupPaths, false)
    ensures ListedLookup(f, names, name) == LookedUpBy(registry, root, names, name)
  {
    forall i | 0 <= i < |f.lookupPaths| && f.lookupPaths[i].transforms == names
      ensures ReachedBy(registry, root, names)
              && f.lookupPaths[i].lookups == registry.lookups(registry.Reach(root, Fixed(names)).value)
    {
      var chain := ListedPathIsTrue(registry, root, f.lookupPaths, false, i);
      TrueChainIsFixed(registry, root, f, i, chain);
    }
    if ReachedBy(registry, root, names) {
      ConstructibleIsListed(registry, root, f.lookupPaths, Fixed(names));
      var i := ChainIsListed(f, names);
    }
  }

  // ---------------------------------------------------------------------------------------------
  // Completion over sorted lookup paths
  // ---------------------------------------------------------------------------------------------

  /** Shorter paths first, as the enumeration returns them. */
  ghost predicate SortedPaths(f: Field) {
    Ascending(L.PathLess, f.lookupPaths)
  }

  lemma {:induction false} FirstDecides(f: Field, paths: seq<LookupPath>, prefix: seq<string>, name: string,
                                        lookups: bool)
    returns (i: nat)
    requires Decision(f, paths, prefix, name, lookups).Some?
    ensures i < |paths| && PathDecision(f, paths[i], prefix, name, lookups) == Decision(f, paths, prefix, name, lookups)
    ensures forall j :: 0 <= j < i ==> PathDecision(f, paths[j], prefix, name, lookups).None?
  {
    var k := |paths| - 1;
    if Decision(f, paths[..k], prefix, name, lookups).Some? {
      i := FirstDecides(f, paths[..k], prefix, name, lookups);
      assert forall j :: 0 <= j < k ==> paths[j] == paths[..k][j];
    } else {
      i := k;
      DecidedMeansKnown(f, paths[..k], prefix, name, lookups);
      assert forall j :: 0 <= j < k ==> paths[j] == paths[..k][j];
    }
  }

  /** In sorted paths a lookup comes before every continuation, so no "*" key hides it. */
  lemma NoLookupAfterKey(f: Field, prefix: seq<string>)
    requires SortedPaths(f) && Decision(f, f.lookupPaths, prefix, "*", true) == Some(TransformCandidate)
    ensures !StarLookup(f, f.lookupPaths, prefix, PathLookup)
  {
    var paths := f.lookupPaths;
    var i := FirstDecides(f, paths, prefix, "*", true);
    forall k | 0 <= k < |paths| ensures !HasLookup(f, paths[k], prefix, "*") {
      assert i < k ==> L.PathLess(paths[i], paths[k]);
    }
  }

  lemma SortedIsNotShadowed(g: Graph, mode: PathMode, s: State, name: string)
    requires s.Subject().Some? ==> SortedPaths(s.Subject().value)
    ensures !Shadowed(g, mode, s, name)
  {
    if mode.PathLookup? && s.Subject().Some? {
      var f := s.Subject().value;
      if Decision(f, f.lookupPaths, s.transforms, "*", true) == Some(TransformCandidate) {
        NoLookupAfterKey(f, s.transforms);
      }
    }
  }

  /** All fields that queries can name have sorted lookup paths. */
  ghost predicate FieldsSorted(g: Graph) {
    forall l, name :: l in g.canonical && name in g.canonical[l].queryByName ==>
                        SortedPaths(g.canonical[l].queryByName[name].field)
  }

  lemma {:induction false} SubjectIsSorted(g: Graph, mode: PathMode, model: string, segments: seq<PathSegment>, n: nat)
    requires FieldsSorted(g) && n <= |segments| && Walk(g, mode, model, segments, n).Some?
    ensures
      var subject := Walk(g, mode, model, segments, n).value.Subject();
      subject.Some? ==> SortedPaths(subject.value)
  {
    if n > 0 {
      WalkBack(g, mode, model, segments, n);
      SubjectIsSorted(g, mode, model, segments, n - 1);
      SubjectStep(g, mode, Walk(g, mode, model, segments, n - 1).value, segments[n - 1], n < |segments|);
    }
  }

  lemma SubjectStep(g: Graph, mode: PathMode, s: State, segment: PathSegment, hasMore: bool)
    requires FieldsSorted(g) && (s.Subject().Some? ==> SortedPaths(s.Subject().value))
    requires Consume(g, mode, s, segment, hasMore).Some?
    ensures
      var subject := Consume(g, mode, s, segment, hasMore).value.0.Subject();
      subject.Some? ==> SortedPaths(subject.value)
  {
  }

  /**
   On a built graph with sorted lookup paths, completion and acceptance agree without exception:
   after a prefix that can be consumed, a name is offered if and only if it continues the active
   text and the path ended by it is consumed other than through the "*" key.
   */
  lemma SortedCompletionIsAcceptance(g: Graph, model: string, mode: PathMode, segments: seq<PathSegment>, active: nat,
                                     candidates: seq<Candidate>, name: string)
    requires Built(g) && FieldsSorted(g) && active < |segments| && Walk(g, mode, model, segments, active).Some?
    requires IsCompletion(g, model, mode, segments, active, candidates)
    ensures
      var completed := segments[..active] + [PathSegment(name, 0, 0)];
      name in Names(candidates) <==> segments[active].text <= name && ConsumedPlainly(g, mode, model, completed)
  {
    var s := Walk(g, mode, model, segments, active).value;
    SubjectIsSorted(g, mode, model, segments, active);
    SortedIsNotShadowed(g, mode, s, name);
    CompletionIsAcceptance(g, model, mode, segments, active, candidates, name, s);
  }

  /** Lookup paths as the worker enumerates them are sorted, so this is so on every graph it can send. */
  lemma EnumeratedFieldsAreSorted<Node(!new)>(g: Graph, registries: Field -> L.Registry<Node>, roots: Field -> Node)
    requires forall l, name :: l in g.canonical && name in g.canonical[l].queryByName ==>
                                 IsEnumerated(g.canonical[l].queryByName[name].field, registries, roots)
    ensures FieldsSorted(g)
  {
    forall l, name | l in g.canonical && name in g.canonical[l].queryByName
      ensures SortedPaths(g.canonical[l].queryByName[name].field)
    {
      var f := g.canonical[l].queryByName[name].field;
      assert IsEnumerated(f, registries, roots);
      var queue: seq<L.Entry<Node>> :|
        L.EnumeratesAs(registries(f), roots(f), f.lookupPaths, f.lookupPathsTruncated, queue);
    }
  }

  ghost predicate IsEnumerated<Node(!new)>(f: Field, registries: Field -> L.Registry<Node>, roots: Field -> Node) {
    L.Enumerates(registries(f), roots(f), f.lookupPaths, f.lookupPathsTruncated)
  }
}
