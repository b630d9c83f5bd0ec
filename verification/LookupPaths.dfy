/** The bounded breadth-first enumeration of the lookups reachable through a field's transforms. */
module LookupPaths {
  import opened Prelude
  import opened Ordering
  import opened Schema

  /** One transform on the way: a registered one, or the key "*" of a JSON value. */
  datatype Link = Link(name: string, isKey: bool)

  type Chain = seq<Link>

  /**
   What Django knows about expressions: the lookups and transforms registered for each, sorted by
   name, and the expression a transform makes of it, if that can be constructed.
   */
  datatype Registry<!Node> = Registry(
    lookups: Node -> seq<string>,
    fixed: Node -> seq<string>,
    child: (Node, string) -> Option<Node>,
    keyChild: Node -> Option<Node>)
  {
    function Next(node: Node, link: Link): Option<Node> {
      if link.isKey then (if link.name == "*" then keyChild(node) else None)
      else if link.name in fixed(node) then child(node, link.name)
      else None
    }

    /** The expression that a chain of transforms leads to. */
    function Reach(root: Node, chain: Chain): Option<Node> {
      if chain == [] then Some(root)
      else
        match Reach(root, chain[..|chain| - 1])
        case None => None
        case Some(node) => Next(node, chain[|chain| - 1])
    }
  }

  /** Transform names are the keys of a dictionary. */
  ghost predicate NamesAreKeys<Node(!new)>(registry: Registry<Node>) {
    forall node :: Distinct(registry.fixed(node))
  }

  datatype Entry<Node> = Entry(chain: Chain, node: Node)

  function Kind(link: Link): string {
    if link.isKey then "key_transform" else "transform"
  }

  function TransformsOf(chain: Chain): seq<string> {
    seq(|chain|, i requires 0 <= i < |chain| => chain[i].name)
  }

  function KindsOf(chain: Chain): seq<string> {
    seq(|chain|, i requires 0 <= i < |chain| => Kind(chain[i]))
  }

  function PathOf<Node>(registry: Registry<Node>, e: Entry<Node>): LookupPath {
    LookupPath(TransformsOf(e.chain), KindsOf(e.chain), registry.lookups(e.node))
  }

  /** The path says where the chain leads. */
  predicate IsPathOf(path: LookupPath, chain: Chain) {
    path.transforms == TransformsOf(chain) && path.kinds == KindsOf(chain)
  }

  lemma SamePathSameChain(a: Chain, b: Chain)
    requires TransformsOf(a) == TransformsOf(b) && KindsOf(a) == KindsOf(b)
    ensures a == b
  {
    assert |a| == |TransformsOf(a)| == |TransformsOf(b)| == |b|;
    forall i | 0 <= i < |a| ensures a[i] == b[i] {
      assert a[i].name == TransformsOf(a)[i] == TransformsOf(b)[i] == b[i].name;
      assert Kind(a[i]) == KindsOf(a)[i] == KindsOf(b)[i] == Kind(b[i]);
      assert Kind(a[i])[0] == if a[i].isKey then 'k' else 't';
      assert Kind(b[i])[0] == if b[i].isKey then 'k' else 't';
    }
  }

  // ---------------------------------------------------------------------------------------------
  // The order of the result
  // ---------------------------------------------------------------------------------------------

  predicate ListLess(a: seq<string>, b: seq<string>) {
    b != [] && (a == [] || Less(a[0], b[0]) || (a[0] == b[0] && ListLess(a[1..], b[1..])))
  }

  lemma {:induction false} ListLessTransitive(a: seq<string>, b: seq<string>, c: seq<string>)
    requires ListLess(a, b) && ListLess(b, c)
    ensures ListLess(a, c)
  {
    if a != [] {
      LessIrreflexive(b[0]);
      if a[0] == b[0] && b[0] == c[0] {
        ListLessTransitive(a[1..], b[1..], c[1..]);
      } else if Less(a[0], b[0]) && Less(b[0], c[0]) {
        LessTransitive(a[0], b[0], c[0]);
      }
    }
  }

  lemma {:induction false} ListLessIrreflexive(a: seq<string>)
    ensures !ListLess(a, a)
  {
    if a != [] {
      LessIrreflexive(a[0]);
      ListLessIrreflexive(a[1..]);
    }
  }

  lemma {:induction false} ListLessTotal(a: seq<string>, b: seq<string>)
    ensures a == b || ListLess(a, b) || ListLess(b, a)
  {
    if a != [] && b != [] {
      LessTotal(a[0], b[0]);
      ListLessTotal(a[1..], b[1..]);
      assert a == [a[0]] + a[1..] && b == [b[0]] + b[1..];
    }
  }

  /** Shorter first, then by transforms, then by kinds. */
  predicate PathLess(left: LookupPath, right: LookupPath) {
    if |left.transforms| != |right.transforms| then |left.transforms| < |right.transforms|
    else if left.transforms != right.transforms then ListLess(left.transforms, right.transforms)
    else ListLess(left.kinds, right.kinds)
  }

  lemma PathLessTransitive(a: LookupPath, b: LookupPath, c: LookupPath)
    requires PathLess(a, b) && PathLess(b, c)
    ensures PathLess(a, c)
  {
    if |a.transforms| == |b.transforms| == |c.transforms| {
      if a.transforms == b.transforms == c.transforms {
        ListLessTransitive(a.kinds, b.kinds, c.kinds);
      } else if a.transforms != b.transforms && b.transforms != c.transforms {
        ListLessTransitive(a.transforms, b.transforms, c.transforms);
        ListLessIrreflexive(a.transforms);
      }
    }
  }

  lemma PathOrder()
    ensures StrictOrder(PathLess)
  {
    forall a ensures !PathLess(a, a) {
      ListLessIrreflexive(a.kinds);
    }
    forall a, b, c | PathLess(a, b) && PathLess(b, c) ensures PathLess(a, c) {
      PathLessTransitive(a, b, c);
    }
  }

  // ---------------------------------------------------------------------------------------------
  // The queue
  // ---------------------------------------------------------------------------------------------

  ghost predicate Has<Node>(queue: seq<Entry<Node>>, chain: Chain) {
    exists i :: 0 <= i < |queue| && queue[i].chain == chain
  }

  ghost predicate ChainsApart<Node>(queue: seq<Entry<Node>>) {
    forall i, j :: 0 <= i < j < |queue| ==> queue[i].chain != queue[j].chain
  }

  ghost predicate Leads<Node>(registry: Registry<Node>, root: Node, queue: seq<Entry<Node>>) {
    forall i :: 0 <= i < |queue| ==>
                  |queue[i].chain| <= MAX_LOOKUP_DEPTH && registry.Reach(root, queue[i].chain) == Some(queue[i].node)
  }

  /** Each chain but the empty one extends a chain visited before it was queued. */
  ghost predicate Rooted<Node>(queue: seq<Entry<Node>>, visited: nat) {
    && |queue| > 0 && queue[0].chain == []
    && forall i :: 0 < i < |queue| ==> queue[i].chain != [] && Has(queue[..Min(visited, |queue|)], Init(queue[i].chain))
  }

  function Min(a: nat, b: nat): nat {
    if a < b then a else b
  }

  function Init(chain: Chain): Chain
    requires chain != []
  {
    chain[..|chain| - 1]
  }

  /** This entry may be followed by the link. */
  predicate Extends<Node>(registry: Registry<Node>, e: Entry<Node>, link: Link) {
    |e.chain| < MAX_LOOKUP_DEPTH && registry.Next(e.node, link).Some?
  }

  /** Every extension of a visited chain is queued. */
  ghost predicate Complete<Node>(registry: Registry<Node>, queue: seq<Entry<Node>>, visited: nat) {
    forall i, link :: 0 <= i < visited && i < |queue| && Extends(registry, queue[i], link) ==>
                        Has(queue, queue[i].chain + [link])
  }

  /** What visiting one entry adds to the queue. */
  ghost predicate Offspring<Node>(registry: Registry<Node>, e: Entry<Node>, pushed: seq<Entry<Node>>) {
    && ChainsApart(pushed)
    && forall i :: 0 <= i < |pushed| ==>
                     && pushed[i].chain != [] && Init(pushed[i].chain) == e.chain
                     && Extends(registry, e, pushed[i].chain[|e.chain|])
                     && registry.Next(e.node, pushed[i].chain[|e.chain|]) == Some(pushed[i].node)
  }

  ghost predicate AllPushed<Node>(registry: Registry<Node>, e: Entry<Node>, pushed: seq<Entry<Node>>) {
    forall link :: Extends(registry, e, link) ==> Has(pushed, e.chain + [link])
  }

  lemma OffspringLeads<Node>(registry: Registry<Node>, root: Node, e: Entry<Node>, pushed: seq<Entry<Node>>)
    requires Offspring(registry, e, pushed) && registry.Reach(root, e.chain) == Some(e.node)
    ensures Leads(registry, root, pushed)
  {
    forall i | 0 <= i < |pushed|
      ensures |pushed[i].chain| <= MAX_LOOKUP_DEPTH && registry.Reach(root, pushed[i].chain) == Some(pushed[i].node)
    {
      assert Init(pushed[i].chain) == pushed[i].chain[..|pushed[i].chain| - 1];
    }
  }

  lemma Parent<Node>(queue: seq<Entry<Node>>, visited: nat, i: nat) returns (k: nat)
    requires visited < |queue| && Rooted(queue, visited) && 0 < i < |queue|
    ensures k < visited && queue[i].chain != [] && queue[k].chain == Init(queue[i].chain)
  {
    var first := queue[..visited];
    assert Has(first, Init(queue[i].chain));
    k :| 0 <= k < |first| && first[k].chain == Init(queue[i].chain);
  }

  /** Chains pushed for one entry differ from all queued ones: those extend entries visited earlier. */
  lemma OffspringIsNew<Node>(registry: Registry<Node>, queue: seq<Entry<Node>>, visited: nat, pushed: seq<Entry<Node>>)
    requires visited < |queue| && ChainsApart(queue) && Rooted(queue, visited)
    requires Offspring(registry, queue[visited], pushed)
    ensures ChainsApart(queue + pushed) && Rooted(queue + pushed, visited + 1)
  {
    var more := queue + pushed;
    forall i, j | 0 <= i < |queue| && 0 <= j < |pushed| ensures queue[i].chain != pushed[j].chain {
      NotYetExtended(queue, visited, pushed[j].chain);
    }
    forall i | 0 < i < |more| ensures more[i].chain != [] && Has(more[..visited + 1], Init(more[i].chain)) {
      if i < |queue| {
        var k := Parent(queue, visited, i);
        assert more[..visited + 1][k].chain == Init(more[i].chain);
      } else {
        assert more[i] == pushed[i - |queue|];
        assert more[..visited + 1][visited].chain == Init(more[i].chain);
      }
    }
  }

  lemma HasInBoth<Node>(a: seq<Entry<Node>>, b: seq<Entry<Node>>, chain: Chain)
    ensures Has(a + b, chain) <==> Has(a, chain) || Has(b, chain)
  {
    assert forall i :: 0 <= i < |a| ==> (a + b)[i] == a[i];
    assert forall i :: 0 <= i < |b| ==> (a + b)[|a| + i] == b[i];
    if Has(a + b, chain) {
      var i :| 0 <= i < |a + b| && (a + b)[i].chain == chain;
      assert i < |a| || b[i - |a|].chain == chain;
    }
  }

  /** A chain missing from the queue stays missing; nothing else becomes missing but dropped offspring. */
  lemma CompleteStep<Node>(registry: Registry<Node>, queue: seq<Entry<Node>>, visited: nat, pushed: seq<Entry<Node>>)
    requires visited < |queue| && ChainsApart(queue) && Rooted(queue, visited)
    requires Offspring(registry, queue[visited], pushed)
    ensures Complete(registry, queue + pushed, visited + 1) <==>
            Complete(registry, queue, visited) && AllPushed(registry, queue[visited], pushed)
  {
    var more := queue + pushed;
    forall i, link | 0 <= i <= visited && Extends(registry, queue[i], link)
      ensures Has(more, queue[i].chain + [link]) <==>
              if i == visited then Has(pushed, queue[i].chain + [link]) else Has(queue, queue[i].chain + [link])
    {
      var chain := queue[i].chain + [link];
      HasInBoth(queue, pushed, chain);
      assert Init(chain) == queue[i].chain;
      assert i < visited ==> queue[i].chain != queue[visited].chain;
      if i == visited {
        NotYetExtended(queue, visited, chain);
      }
    }
    assert forall i :: 0 <= i <= visited ==> more[i] == queue[i];
  }

  lemma NotYetExtended<Node>(queue: seq<Entry<Node>>, visited: nat, chain: Chain)
    requires visited < |queue| && ChainsApart(queue) && Rooted(queue, visited)
    requires chain != [] && Init(chain) == queue[visited].chain
    ensures !Has(queue, chain)
  {
    forall i | 0 < i < |queue| ensures Init(queue[i].chain) != queue[visited].chain {
      var k := Parent(queue, visited, i);
      assert queue[k].chain != queue[visited].chain;
    }
  }

  /** When all is visited, completeness means that every constructible chain is queued. */
  lemma {:induction false} CompleteHasAll<Node>(registry: Registry<Node>, root: Node, queue: seq<Entry<Node>>,
                                                chain: Chain)
    requires Leads(registry, root, queue) && Rooted(queue, |queue|) && Complete(registry, queue, |queue|)
    requires |chain| <= MAX_LOOKUP_DEPTH && registry.Reach(root, chain).Some?
    ensures Has(queue, chain)
  {
    if chain != [] {
      var init := Init(chain);
      CompleteHasAll(registry, root, queue, init);
      var i :| 0 <= i < |queue| && queue[i].chain == init;
      assert chain == init + [chain[|init|]];
      assert Extends(registry, queue[i], chain[|init|]);
    }
  }

  /** A chain that could be constructed is not queued. */
  ghost predicate Misses<Node>(registry: Registry<Node>, root: Node, queue: seq<Entry<Node>>) {
    exists chain: Chain :: |chain| <= MAX_LOOKUP_DEPTH && registry.Reach(root, chain).Some? && !Has(queue, chain)
  }

  lemma IncompleteMisses<Node>(registry: Registry<Node>, root: Node, queue: seq<Entry<Node>>)
    requires Leads(registry, root, queue) && Rooted(queue, |queue|)
    ensures Complete(registry, queue, |queue|) == !Misses(registry, root, queue)
  {
    if Complete(registry, queue, |queue|) {
      forall chain: Chain | |chain| <= MAX_LOOKUP_DEPTH && registry.Reach(root, chain).Some? ensures Has(queue, chain) {
        CompleteHasAll(registry, root, queue, chain);
      }
    } else {
      DroppedIsMissing(registry, root, queue);
    }
  }

  lemma DroppedIsMissing<Node>(registry: Registry<Node>, root: Node, queue: seq<Entry<Node>>)
    requires Leads(registry, root, queue) && !Complete(registry, queue, |queue|)
    ensures Misses(registry, root, queue)
  {
    var i, link :| 0 <= i < |queue| && Extends(registry, queue[i], link) && !Has(queue, queue[i].chain + [link]);
    var chain := queue[i].chain + [link];
    assert chain[..|chain| - 1] == queue[i].chain;
    assert registry.Reach(root, chain).Some?;
  }

  // ---------------------------------------------------------------------------------------------
  // Enumeration
  // ---------------------------------------------------------------------------------------------

  /** The extensions of an entry by these transforms that can be constructed, in order. */
  function FixedExtensions<Node>(registry: Registry<Node>, e: Entry<Node>, names: seq<string>): seq<Entry<Node>> {
    if names == [] then []
    else
      var earlier, name := FixedExtensions(registry, e, names[..|names| - 1]), names[|names| - 1];
      match registry.child(e.node, name)
      case None => earlier
      case Some(node) => earlier + [Entry(e.chain + [Link(name, false)], node)]
  }

  /** The extension by the key, if it can be constructed. */
  function KeyExtension<Node>(registry: Registry<Node>, e: Entry<Node>): seq<Entry<Node>> {
    match registry.keyChild(e.node)
    case None => []
    case Some(node) => [Entry(e.chain + [Link("*", true)], node)]
  }

  /** All extensions of an entry, the key last. */
  function Extensions<Node>(registry: Registry<Node>, e: Entry<Node>): seq<Entry<Node>> {
    FixedExtensions(registry, e, registry.fixed(e.node)) + KeyExtension(registry, e)
  }

  /** Chains that may still be queued when so many are, and so many have been visited. */
  function Room(queued: nat, visited: nat): nat {
    if queued + visited < MAX_LOOKUP_PATHS then MAX_LOOKUP_PATHS - queued - visited else 0
  }

  function Take<T>(s: seq<T>, n: nat): seq<T> {
    if n < |s| then s[..n] else s
  }

  /** As many of these extensions as there is room for are queued. */
  ghost predicate Queued<Node>(extensions: seq<Entry<Node>>, pushed: seq<Entry<Node>>, truncated: bool, room: nat) {
    pushed == Take(extensions, room) && truncated == (|extensions| > room)
  }

  lemma {:induction false} FixedStep<Node>(registry: Registry<Node>, e: Entry<Node>, names: seq<string>, i: nat)
    requires i < |names|
    ensures FixedExtensions(registry, e, names[..i + 1]) <= FixedExtensions(registry, e, names)
    ensures FixedExtensions(registry, e, names[..i + 1]) ==
            FixedExtensions(registry, e, names[..i])
            + match registry.child(e.node, names[i])
              case None => []
              case Some(node) => [Entry(e.chain + [Link(names[i], false)], node)]
    decreases |names|
  {
    assert names[..i + 1][..i] == names[..i];
    if i + 1 < |names| {
      FixedStep(registry, e, names[..|names| - 1], i);
      assert names[..|names| - 1][..i + 1] == names[..i + 1];
    } else {
      assert names[..i + 1] == names;
    }
  }

  lemma {:induction false} FixedAreOffspring<Node>(registry: Registry<Node>, e: Entry<Node>, names: seq<string>)
    requires Distinct(names) && |e.chain| < MAX_LOOKUP_DEPTH
    requires forall name :: name in names ==> name in registry.fixed(e.node)
    ensures Offspring(registry, e, FixedExtensions(registry, e, names))
    ensures LinksAmong(e, FixedExtensions(registry, e, names), names)
    ensures forall name :: name in names && registry.child(e.node, name).Some? ==>
                             Has(FixedExtensions(registry, e, names), e.chain + [Link(name, false)])
  {
    if names != [] {
      var earlier, name := names[..|names| - 1], names[|names| - 1];
      FixedAreOffspring(registry, e, earlier);
      assert names == earlier + [name];
      if registry.child(e.node, name).Some? {
        AddOffspring(registry, e, FixedExtensions(registry, e, earlier), Link(name, false), earlier);
      }
    }
  }

  /** These extensions are by transforms with these names. */
  ghost predicate LinksAmong<Node>(e: Entry<Node>, extensions: seq<Entry<Node>>, names: seq<string>) {
    forall k :: 0 <= k < |extensions| ==>
                  && |extensions[k].chain| == |e.chain| + 1
                  && !extensions[k].chain[|e.chain|].isKey && extensions[k].chain[|e.chain|].name in names
  }

  lemma AddOffspring<Node>(registry: Registry<Node>, e: Entry<Node>, extensions: seq<Entry<Node>>, link: Link,
                           names: seq<string>)
    requires Offspring(registry, e, extensions) && LinksAmong(e, extensions, names)
    requires Extends(registry, e, link) && (link.isKey || link.name !in names)
    ensures
      var more := extensions + [Entry(e.chain + [link], registry.Next(e.node, link).value)];
      Offspring(registry, e, more) && forall chain :: Has(more, chain) <==> Has(extensions, chain)
                                                                            || chain == e.chain + [link]
  {
    var entry := Entry(e.chain + [link], registry.Next(e.node, link).value);
    assert Init(entry.chain) == e.chain && entry.chain[|e.chain|] == link;
    forall chain ensures Has(extensions + [entry], chain) <==> Has(extensions, chain) || chain == e.chain + [link] {
      HasInBoth(extensions, [entry], chain);
      assert [entry][0].chain == e.chain + [link];
    }
  }

  lemma KeyIsOffspring<Node>(registry: Registry<Node>, e: Entry<Node>, extensions: seq<Entry<Node>>, names: seq<string>)
    requires Offspring(registry, e, extensions) && LinksAmong(e, extensions, names) && |e.chain| < MAX_LOOKUP_DEPTH
    ensures Offspring(registry, e, extensions + KeyExtension(registry, e))
    ensures forall chain :: Has(extensions, chain) ==> Has(extensions + KeyExtension(registry, e), chain)
    ensures registry.keyChild(e.node).Some? ==> Has(extensions + KeyExtension(registry, e), e.chain + [Link("*", true)])
  {
    if registry.keyChild(e.node).Some? {
      AddOffspring(registry, e, extensions, Link("*", true), names);
    } else {
      assert extensions + [] == extensions;
    }
  }

  /** The extensions of an entry are just those that can be constructed, each once. */
  lemma ExtensionsAreAll<Node>(registry: Registry<Node>, e: Entry<Node>)
    requires Distinct(registry.fixed(e.node)) && |e.chain| < MAX_LOOKUP_DEPTH
    ensures Offspring(registry, e, Extensions(registry, e)) && AllPushed(registry, e, Extensions(registry, e))
  {
    var fixed := registry.fixed(e.node);
    FixedAreOffspring(registry, e, fixed);
    KeyIsOffspring(registry, e, FixedExtensions(registry, e, fixed), fixed);
    forall link | Extends(registry, e, link) ensures Has(Extensions(registry, e), e.chain + [link]) {
      assert link == if link.isKey then Link("*", true) else Link(link.name, false);
    }
  }

  /** Some are dropped exactly when there is no room for all. */
  lemma DroppedWithoutRoom<Node>(registry: Registry<Node>, e: Entry<Node>, room: nat)
    requires Distinct(registry.fixed(e.node)) && |e.chain| < MAX_LOOKUP_DEPTH
    ensures Offspring(registry, e, Take(Extensions(registry, e), room))
    ensures AllPushed(registry, e, Take(Extensions(registry, e), room)) == (|Extensions(registry, e)| <= room)
  {
    var all := Extensions(registry, e);
    ExtensionsAreAll(registry, e);
    if |all| > room {
      var link := all[room].chain[|e.chain|];
      assert all[room].chain == Init(all[room].chain) + [link];
      assert Extends(registry, e, link) && !Has(all[..room], e.chain + [link]);
    }
  }

  /** Queue the extensions of the entry just visited, as long as the bound allows. */
  method Expand<Node(!new)>(registry: Registry<Node>, e: Entry<Node>, queued: nat, visited: nat)
    returns (pushed: seq<Entry<Node>>, truncated: bool)
    requires Distinct(registry.fixed(e.node)) && 0 < visited <= queued && |e.chain| < MAX_LOOKUP_DEPTH
    ensures Offspring(registry, e, pushed)
    ensures pushed == [] || queued + |pushed| + visited <= MAX_LOOKUP_PATHS
    ensures truncated == !AllPushed(registry, e, pushed)
    ensures truncated ==> queued + |pushed| + visited >= MAX_LOOKUP_PATHS
    ensures pushed == Take(Extensions(registry, e), Room(queued, visited))
  {
    pushed, truncated := [], false;
    var fixed := registry.fixed(e.node);
    var i := 0;
    while i < |fixed| && !truncated
      invariant i <= |fixed| && FixedExtensions(registry, e, fixed[..i]) <= FixedExtensions(registry, e, fixed)
      invariant Queued(FixedExtensions(registry, e, fixed[..i]), pushed, truncated, Room(queued, visited))
    {
      FixedStep(registry, e, fixed, i);
      var child := registry.child(e.node, fixed[i]);
      if child.Some? {
        if visited + queued + |pushed| - visited + visited >= MAX_LOOKUP_PATHS {
          truncated := true;
        } else {
          pushed := pushed + [Entry(e.chain + [Link(fixed[i], false)], child.value)];
        }
      }
      i := i + 1;
    }
    assert fixed[..|fixed|] == fixed;
    var child := registry.keyChild(e.node);
    if child.Some? {
      if visited + queued + |pushed| - visited + visited >= MAX_LOOKUP_PATHS {
        truncated := true;
      } else {
        pushed := pushed + [Entry(e.chain + [Link("*", true)], child.value)];
      }
    }
    DroppedWithoutRoom(registry, e, Room(queued, visited));
    assert Queued(Extensions(registry, e), pushed, truncated, Room(queued, visited));
  }

  /** The paths of the first entries, in order. */
  function PathsOf<Node>(registry: Registry<Node>, queue: seq<Entry<Node>>): seq<LookupPath> {
    seq(|queue|, i requires 0 <= i < |queue| => PathOf(registry, queue[i]))
  }

  ghost predicate Seen<Node>(queue: seq<Entry<Node>>, seen: set<Chain>) {
    |seen| == |queue| && forall chain :: chain in seen <==> Has(queue, chain)
  }

  lemma SeenStep<Node>(queue: seq<Entry<Node>>, visited: nat, seen: set<Chain>)
    requires visited < |queue| && ChainsApart(queue) && Seen(queue[..visited], seen)
    ensures queue[visited].chain !in seen
    ensures Seen(queue[..visited + 1], seen + {queue[visited].chain})
  {
    assert queue[..visited + 1] == queue[..visited] + [queue[visited]];
    forall chain
      ensures Has(queue[..visited + 1], chain) <==> Has(queue[..visited], chain) || chain == queue[visited].chain {
      HasInBoth(queue[..visited], [queue[visited]], chain);
      assert [queue[visited]][0].chain == queue[visited].chain;
    }
  }

  /** What visiting an entry queues. */
  function Kept<Node>(registry: Registry<Node>, e: Entry<Node>, queued: nat, visited: nat): seq<Entry<Node>> {
    if |e.chain| >= MAX_LOOKUP_DEPTH then [] else Take(Extensions(registry, e), Room(queued, visited))
  }

  /** The queue after the first `n` visits. */
  function Walked<Node>(registry: Registry<Node>, root: Node, n: nat): seq<Entry<Node>> {
    if n == 0 then [Entry([], root)]
    else
      var queue := Walked(registry, root, n - 1);
      if n > |queue| then queue else queue + Kept(registry, queue[n - 1], |queue|, n)
  }

  /** The queue is that of so many visits. */
  ghost predicate Traced<Node>(registry: Registry<Node>, root: Node, queue: seq<Entry<Node>>, visited: nat) {
    queue == Walked(registry, root, visited)
  }

  /** What the enumeration must return. */
  ghost predicate Enumerates<Node(!new)>(registry: Registry<Node>, root: Node, paths: seq<LookupPath>,
                                         truncated: bool) {
    exists queue: seq<Entry<Node>> :: EnumeratesAs(registry, root, paths, truncated, queue)
  }

  ghost predicate EnumeratesAs<Node>(registry: Registry<Node>, root: Node, paths: seq<LookupPath>, truncated: bool,
                                     queue: seq<Entry<Node>>) {
    && ListsAll(registry, paths, queue)
    && Stage(registry, root, queue, |queue|)
    && |queue| < MAX_LOOKUP_PATHS
    && truncated == Misses(registry, root, queue)
    && (truncated ==> |queue| + |queue| >= MAX_LOOKUP_PATHS)
    && Traced(registry, root, queue, |queue|)
  }

  /** The same paths, sorted. */
  ghost predicate ListsAll<Node>(registry: Registry<Node>, paths: seq<LookupPath>, queue: seq<Entry<Node>>) {
    Ascending(PathLess, paths) && multiset(paths) == multiset(PathsOf(registry, queue))
  }

  /** What holds after each visit. */
  ghost predicate Stage<Node>(registry: Registry<Node>, root: Node, queue: seq<Entry<Node>>, visited: nat) {
    ChainsApart(queue) && Leads(registry, root, queue) && Rooted(queue, visited)
  }

  lemma StageStep<Node>(registry: Registry<Node>, root: Node, queue: seq<Entry<Node>>, visited: nat,
                        pushed: seq<Entry<Node>>)
    requires visited < |queue| && Stage(registry, root, queue, visited)
    requires Offspring(registry, queue[visited], pushed)
    ensures Stage(registry, root, queue + pushed, visited + 1)
  {
    OffspringLeads(registry, root, queue[visited], pushed);
    OffspringIsNew(registry, queue, visited, pushed);
  }

  /** What has been found and seen after the visit. */
  ghost predicate Recorded<Node>(registry: Registry<Node>, queue: seq<Entry<Node>>, visited: nat,
                                 found: seq<LookupPath>, seen: set<Chain>) {
    visited <= |queue| && found == PathsOf(registry, queue[..visited]) && Seen(queue[..visited], seen)
  }

  lemma RecordedStep<Node>(registry: Registry<Node>, queue: seq<Entry<Node>>, visited: nat, found: seq<LookupPath>,
                           seen: set<Chain>,
                           pushed: seq<Entry<Node>>)
    requires visited < |queue| && ChainsApart(queue) && Recorded(registry, queue, visited, found, seen)
    ensures queue[visited].chain !in seen
    ensures Recorded(registry, queue + pushed, visited + 1, found + [PathOf(registry, queue[visited])],
                     seen + {queue[visited].chain})
  {
    SeenStep(queue, visited, seen);
    assert queue[..visited + 1] == queue[..visited] + [queue[visited]];
    assert (queue + pushed)[..visited + 1] == queue[..visited + 1];
  }

  lemma NotSeen<Node>(registry: Registry<Node>, root: Node, queue: seq<Entry<Node>>, visited: nat,
                      found: seq<LookupPath>, seen: set<Chain>, truncated: bool)
    requires visited < |queue| && Progress(registry, root, queue, visited, found, seen, truncated)
    ensures queue[visited].chain !in seen
  {
    SeenStep(queue, visited, seen);
  }

  ghost predicate Progress<Node>(registry: Registry<Node>, root: Node, queue: seq<Entry<Node>>, visited: nat,
                                 found: seq<LookupPath>, seen: set<Chain>, truncated: bool) {
    && Stage(registry, root, queue, visited) && Recorded(registry, queue, visited, found, seen)
    && truncated == !Complete(registry, queue, visited)
    && (truncated ==> |queue| + visited >= MAX_LOOKUP_PATHS)
    && Traced(registry, root, queue, visited)
  }

  lemma ProgressStarts<Node>(registry: Registry<Node>, root: Node)
    ensures Progress(registry, root, [Entry([], root)], 0, [], {}, false)
  {
  }

  lemma ProgressStep<Node>(registry: Registry<Node>, root: Node, queue: seq<Entry<Node>>, visited: nat,
                           found: seq<LookupPath>, seen: set<Chain>, truncated: bool, pushed: seq<Entry<Node>>,
                           dropped: bool)
    requires visited < |queue| && Progress(registry, root, queue, visited, found, seen, truncated)
    requires Offspring(registry, queue[visited], pushed) && dropped == !AllPushed(registry, queue[visited], pushed)
    requires dropped ==> |queue| + |pushed| + visited + 1 >= MAX_LOOKUP_PATHS
    requires pushed == Kept(registry, queue[visited], |queue|, visited + 1)
    ensures Progress(registry, root, queue + pushed, visited + 1, found + [PathOf(registry, queue[visited])],
                     seen + {queue[visited].chain}, truncated || dropped)
  {
    StageStep(registry, root, queue, visited, pushed);
    RecordedStep(registry, queue, visited, found, seen, pushed);
    CompleteStep(registry, queue, visited, pushed);
  }

  lemma Finished<Node(!new)>(registry: Registry<Node>, root: Node, queue: seq<Entry<Node>>, found: seq<LookupPath>,
                             seen: set<Chain>, truncated: bool)
    requires Progress(registry, root, queue, |queue|, found, seen, truncated) && |queue| < MAX_LOOKUP_PATHS
    ensures Enumerates(registry, root, Sort(PathLess, found), truncated)
  {
    IncompleteMisses(registry, root, queue);
    assert queue[..|queue|] == queue;
    PathsComparable(registry, queue);
    assert EnumeratesAs(registry, root, Sort(PathLess, found), truncated, queue);
  }

  method VisitEntry<Node(!new)>(registry: Registry<Node>, e: Entry<Node>, queued: nat, visited: nat)
    returns (pushed: seq<Entry<Node>>, dropped: bool)
    requires Distinct(registry.fixed(e.node)) && 0 < visited <= queued < MAX_LOOKUP_PATHS
    ensures Offspring(registry, e, pushed) && queued + |pushed| < MAX_LOOKUP_PATHS
    ensures dropped == !AllPushed(registry, e, pushed)
    ensures dropped ==> queued + |pushed| + visited >= MAX_LOOKUP_PATHS
    ensures pushed == Kept(registry, e, queued, visited)
  {
    if |e.chain| >= MAX_LOOKUP_DEPTH {
      return [], false;
    }
    pushed, dropped := Expand(registry, e, queued, visited);
  }

  /** One round of the enumeration. */
  method VisitNext<Node(!new)>(registry: Registry<Node>, ghost root: Node, queue: seq<Entry<Node>>, visited: nat,
                               found: seq<LookupPath>, seen: set<Chain>, truncated: bool)
    returns (longer: seq<Entry<Node>>, paths: seq<LookupPath>, keys: set<Chain>, cut: bool)
    requires NamesAreKeys(registry) && visited < |queue| < MAX_LOOKUP_PATHS
    requires Progress(registry, root, queue, visited, found, seen, truncated)
    ensures visited < |longer| < MAX_LOOKUP_PATHS && |paths| == |found| + 1
    ensures Progress(registry, root, longer, visited + 1, paths, keys, cut)
  {
    var e := queue[visited];
    NotSeen(registry, root, queue, visited, found, seen, truncated);
    if e.chain in seen {
      assert false; // no chain is queued twice, so no entry is skipped
    }
    var pushed, dropped := VisitEntry(registry, e, |queue|, visited + 1);
    ProgressStep(registry, root, queue, visited, found, seen, truncated, pushed, dropped);
    longer, paths, keys, cut := queue + pushed, found + [PathOf(registry, e)], seen + {e.chain}, truncated || dropped;
  }

  method BuildLookupPaths<Node(!new)>(registry: Registry<Node>, root: Node)
    returns (paths: seq<LookupPath>, truncated: bool)
    requires NamesAreKeys(registry)
    ensures Enumerates(registry, root, paths, truncated)
  {
    var queue: seq<Entry<Node>> := [Entry([], root)];
    var queueIndex := 0;
    var seen: set<Chain> := {};
    var found: seq<LookupPath> := [];
    truncated := false;
    ProgressStarts(registry, root);
    while queueIndex < |queue| && |found| < MAX_LOOKUP_PATHS
      invariant |found| == queueIndex <= |queue| < MAX_LOOKUP_PATHS
      invariant Progress(registry, root, queue, queueIndex, found, seen, truncated)
      decreases MAX_LOOKUP_PATHS - queueIndex
    {
      queue, found, seen, truncated := VisitNext(registry, root, queue, queueIndex, found, seen, truncated);
      queueIndex := queueIndex + 1;
    }
    if queueIndex < |queue| {
      truncated := true;
    }
    Finished(registry, root, queue, found, seen, truncated);
    paths := Sort(PathLess, found);
  }

  lemma PathsComparable<Node>(registry: Registry<Node>, queue: seq<Entry<Node>>)
    requires ChainsApart(queue)
    ensures ListsAll(registry, Sort(PathLess, PathsOf(registry, queue)), queue)
  {
    var paths := PathsOf(registry, queue);
    PathOrder();
    forall i, j | 0 <= i < j < |paths|
      ensures paths[i] != paths[j] && (PathLess(paths[i], paths[j]) || PathLess(paths[j], paths[i])) {
      ListLessTotal(paths[i].transforms, paths[j].transforms);
      ListLessTotal(paths[i].kinds, paths[j].kinds);
      if paths[i].transforms == paths[j].transforms && paths[i].kinds == paths[j].kinds {
        SamePathSameChain(queue[i].chain, queue[j].chain);
      }
    }
    SortAscending(PathLess, paths);
  }
}
