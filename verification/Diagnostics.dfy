/**
 Diagnostic publication as a concurrent protocol.

 One action is one access to the document store or the schema cache, or one step under the
 diagnostics mutex. Editor notifications are handled one at a time; graph replacements and the
 revalidations they start run concurrently with them and with each other.
 */
module Diagnostics {
  import opened Prelude

  type Uri = string

  datatype Document = Document(version: int, text: string)

  /** What the store hands out: a document as it was at one moment. */
  datatype Item = Item(uri: Uri, document: Document)

  /** `Report` stands for the diagnostics computed from this document and the graph of this generation. */
  datatype Message = Empty | Report(document: Document, generation: nat)

  datatype Handler =
    | Idle
    | Stored(uri: Uri) // the store is updated, the document not yet read back
    | Snapped(item: Item) // before the schema cache is read
    | Ready(item: Item, generation: nat) // diagnostics computed, before the mutex
    | Removed(uri: Uri) // closed in the store, before the mutex
    | Inside // under the mutex

  datatype Revalidation =
    | Notified(generation: nat)
    | Loaded(generation: nat) // the generation was still current
    | Queue(generation: nat, items: seq<Item>)
    | Busy(generation: nat, items: seq<Item>) // under the mutex with an earlier item

  datatype Who = Editor | Worker(id: nat)

  datatype Stage = Entered | DocumentMatched | BothMatched

  datatype Mutex =
    | Free
    | Publishing(who: Who, item: Item, generation: nat, stage: Stage)
    | Clearing(uri: Uri)

  datatype State = State(
    documents: map<Uri, Document>,
    generation: nat,
    handler: Handler,
    revalidations: map<nat, Revalidation>,
    started: nat,
    mutex: Mutex,
    last: map<Uri, Message>) // the last message sent for each document

  datatype Action =
    | Open(uri: Uri, document: Document)
    | Change(uri: Uri, document: Document)
    | Save(uri: Uri, text: Option<string>)
    | Close(uri: Uri)
    | ReadBack
    | ReadCache
    | LockHandler
    | ReplaceGraph
    | StartRevalidation(id: nat)
    | ListDocuments(id: nat, order: seq<Uri>)
    | NextItem(id: nat)
    | CheckDocument
    | CheckGeneration
    | Send
    | SendClear

  function Init(generation: nat): State {
    State(map[], generation, Idle, map[], 0, Free, map[])
  }

  predicate Enabled(s: State, a: Action) {
    match a
    case Open(_, _) => s.handler.Idle?
    case Change(uri, d) => s.handler.Idle? && uri in s.documents && d.version > s.documents[uri].version
    case Save(uri, _) => s.handler.Idle? && uri in s.documents
    case Close(_) => s.handler.Idle?
    case ReadBack => s.handler.Stored?
    case ReadCache => s.handler.Snapped?
    case LockHandler => s.mutex.Free? && (s.handler.Ready? || s.handler.Removed?)
    case ReplaceGraph => true
    case StartRevalidation(id) => id in s.revalidations && s.revalidations[id].Notified?
    case ListDocuments(id, order) =>
      && id in s.revalidations && s.revalidations[id].Loaded?
      && (forall i :: 0 <= i < |order| ==> order[i] in s.documents)
      && (forall uri :: uri in s.documents ==> uri in order)
      && (forall i, j :: 0 <= i < j < |order| ==> order[i] != order[j])
    case NextItem(id) =>
      && id in s.revalidations && s.revalidations[id].Queue?
      && (s.revalidations[id].items == [] || s.mutex.Free?)
    case CheckDocument => s.mutex.Publishing? && s.mutex.stage.Entered?
    case CheckGeneration => s.mutex.Publishing? && s.mutex.stage.DocumentMatched?
    case Send => s.mutex.Publishing? && s.mutex.stage.BothMatched?
    case SendClear => s.mutex.Clearing?
  }

  /** Leave the critical section; its owner goes on. */
  function Release(s: State): State
    requires s.mutex.Publishing?
  {
    match s.mutex.who
    case Editor => s.(mutex := Free, handler := Idle)
    case Worker(id) =>
      if id in s.revalidations && s.revalidations[id].Busy?
      then s.(mutex := Free, revalidations := s.revalidations[id := Queue(s.revalidations[id].generation,
                                                                          s.revalidations[id].items)])
      else s.(mutex := Free)
  }

  function Apply(s: State, a: Action): State
    requires Enabled(s, a)
  {
    match a
    case Open(uri, d) => s.(documents := s.documents[uri := d], handler := Stored(uri))
    case Change(uri, d) => s.(documents := s.documents[uri := d], handler := Stored(uri))
    case Save(uri, text) =>
      var d := match text case None => s.documents[uri] case Some(t) => s.documents[uri].(text := t);
      s.(documents := s.documents[uri := d], handler := Stored(uri))
    case Close(uri) => s.(documents := s.documents - {uri}, handler := Removed(uri))
    case ReadBack =>
      var uri := s.handler.uri;
      s.(handler := if uri in s.documents then Snapped(Item(uri, s.documents[uri])) else Idle)
    case ReadCache => s.(handler := Ready(s.handler.item, s.generation))
    case LockHandler =>
      s.(handler := Inside,
      mutex := if s.handler.Removed? then Clearing(s.handler.uri)
      else Publishing(Editor, s.handler.item, s.handler.generation, Entered))
    case ReplaceGraph =>
      s.(generation := s.generation + 1, started := s.started + 1,
      revalidations := s.revalidations[s.started := Notified(s.generation + 1)])
    case StartRevalidation(id) =>
      var g := s.revalidations[id].generation;
      s.(revalidations := if s.generation != g then s.revalidations - {id} else s.revalidations[id := Loaded(g)])
    case ListDocuments(id, order) =>
      var items := seq(|order|, i requires 0 <= i < |order| => Item(order[i], s.documents[order[i]]));
      s.(revalidations := s.revalidations[id := Queue(s.revalidations[id].generation, items)])
    case NextItem(id) =>
      var r := s.revalidations[id];
      if r.items == [] then s.(revalidations := s.revalidations - {id})
      else
        s.(revalidations := s.revalidations[id := Busy(r.generation, r.items[1..])],
        mutex := Publishing(Worker(id), r.items[0], r.generation, Entered))
    case CheckDocument =>
      var item := s.mutex.item;
      if item.uri in s.documents && s.documents[item.uri] == item.document
      then s.(mutex := s.mutex.(stage := DocumentMatched))
      else Release(s)
    case CheckGeneration =>
      if s.generation == s.mutex.generation then s.(mutex := s.mutex.(stage := BothMatched)) else Release(s)
    case Send => Release(s.(last := s.last[s.mutex.item.uri := Report(s.mutex.item.document, s.mutex.generation)]))
    case SendClear => s.(mutex := Free, handler := Idle, last := s.last[s.mutex.uri := Empty])
  }

  function Step(s: State, a: Action): State {
    if Enabled(s, a) then Apply(s, a) else s
  }

  /** The state after any interleaving, over a cache that holds `generation` graphs. */
  function Run(generation: nat, actions: seq<Action>): State {
    if actions == [] then Init(generation)
    else Step(Run(generation, actions[..|actions| - 1]), actions[|actions| - 1])
  }

  // ---------------------------------------------------------------------------------------------
  // What a client sees once everything has come to rest
  // ---------------------------------------------------------------------------------------------

  /** The last message for this document is the right one. */
  predicate Settled(s: State, uri: Uri) {
    if uri in s.documents
    then uri in s.last && s.last[uri] == Report(s.documents[uri], s.generation)
    else uri in s.last ==> s.last[uri].Empty?
  }

  /** No handler and no revalidation is in flight. */
  predicate Quiescent(s: State) {
    s.handler.Idle? && s.revalidations == map[]
  }

  predicate Lists(items: seq<Item>, uri: Uri, d: Document) {
    Item(uri, d) in items
  }

  /** This revalidation will still publish the document under the current generation. */
  ghost predicate Covers(s: State, r: Revalidation, uri: Uri)
    requires uri in s.documents
  {
    && r.generation == s.generation
    && match r
       case Notified(_) => true
       case Loaded(_) => true
       case Queue(_, items) => Lists(items, uri, s.documents[uri])
       case Busy(_, items) => Lists(items, uri, s.documents[uri])
  }

  ghost predicate HandlerDue(s: State, uri: Uri) {
    match s.handler
    case Stored(u) => u == uri
    case Snapped(item) => item.uri == uri
    case Ready(item, generation) => item.uri == uri && generation == s.generation
    case Removed(u) => u == uri
    case _ => false
  }

  ghost predicate WorkerDue(s: State, uri: Uri) {
    uri in s.documents && exists id :: id in s.revalidations && Covers(s, s.revalidations[id], uri)
  }

  /** The mutex is held for exactly the message that is right. */
  ghost predicate HolderRight(s: State, uri: Uri) {
    && s.mutex.Publishing? && s.mutex.item.uri == uri
    && uri in s.documents && s.documents[uri] == s.mutex.item.document
    && s.mutex.generation == s.generation
  }

  /** The mutex is held for a message that will be sent although it is not, or no longer, right. */
  ghost predicate HolderWrong(s: State, uri: Uri) {
    && s.mutex.Publishing? && s.mutex.item.uri == uri && !HolderRight(s, uri)
    && (s.mutex.stage.BothMatched? || (s.mutex.stage.DocumentMatched? && s.mutex.generation == s.generation))
  }

  /**
   Either someone is still going to publish the right message, or it is the last one and nothing
   wrong is about to follow.
   */
  ghost predicate Accounted(s: State, uri: Uri) {
    || HandlerDue(s, uri)
    || WorkerDue(s, uri)
    || HolderRight(s, uri)
    || (s.mutex.Clearing? && s.mutex.uri == uri)
    || (Settled(s, uri) && !HolderWrong(s, uri))
  }

  ghost predicate Consistent(s: State) {
    && (match s.handler
        case Stored(uri) => uri in s.documents
        case Snapped(item) => item.uri in s.documents && s.documents[item.uri] == item.document
        case Ready(item, generation) =>
          item.uri in s.documents && s.documents[item.uri] == item.document && generation <= s.generation
        case Removed(uri) => uri !in s.documents
        case _ => true)
    && (match s.mutex
        case Free => !s.handler.Inside?
        case Clearing(uri) => s.handler.Inside? && uri !in s.documents
        case Publishing(Editor, item, generation, _) =>
          && s.handler.Inside? && generation <= s.generation
          && item.uri in s.documents && s.documents[item.uri] == item.document
        case Publishing(Worker(id), _, generation, _) =>
          && !s.handler.Inside? && generation <= s.generation
          && id in s.revalidations && s.revalidations[id].Busy?)
    && (forall id :: id in s.revalidations ==> id < s.started && s.revalidations[id].generation <= s.generation)
    && (forall id :: id in s.revalidations && s.revalidations[id].Busy? ==>
                       s.mutex.Publishing? && s.mutex.who == Worker(id))
  }

  ghost predicate Inv(s: State) {
    Consistent(s) && forall uri :: Accounted(s, uri)
  }

  lemma ConsistentStep(s: State, a: Action)
    requires Consistent(s) && Enabled(s, a)
    ensures Consistent(Apply(s, a))
  {
    if a.CheckDocument? || a.CheckGeneration? || a.Send? || a.SendClear? {
      ConsistentHolder(s, a);
    }
  }

  lemma ConsistentHolder(s: State, a: Action)
    requires Consistent(s) && Enabled(s, a) && (a.CheckDocument? || a.CheckGeneration? || a.Send? || a.SendClear?)
    ensures Consistent(Apply(s, a))
  {
  }

  /** A worker that covers a document goes on covering it, unless it has just taken it under the mutex. */
  lemma WorkerStep(s: State, a: Action, uri: Uri)
    requires Consistent(s) && Enabled(s, a) && WorkerDue(s, uri) && !a.ReplaceGraph?
    requires Apply(s, a).documents == s.documents
    ensures WorkerDue(Apply(s, a), uri) || HolderRight(Apply(s, a), uri)
  {
    var t := Apply(s, a);
    var id :| id in s.revalidations && Covers(s, s.revalidations[id], uri);
    if a.ListDocuments? && a.id == id {
      var i :| 0 <= i < |a.order| && a.order[i] == uri;
      assert t.revalidations[id].items[i] == Item(uri, s.documents[uri]);
    } else if a.NextItem? && a.id == id {
      var items := s.revalidations[id].items;
      assert items == [items[0]] + items[1..];
    }
    assert HolderRight(t, uri) || (id in t.revalidations && Covers(t, t.revalidations[id], uri));
  }

  /** The revalidation that follows a replacement covers every open document. */
  lemma ReplaceStep(s: State, uri: Uri)
    requires Consistent(s) && Accounted(s, uri)
    ensures Accounted(Apply(s, ReplaceGraph), uri)
  {
    var t := Apply(s, ReplaceGraph);
    if uri in s.documents {
      assert Covers(t, t.revalidations[s.started], uri);
    }
  }

  lemma AccountedStep(s: State, a: Action, uri: Uri)
    requires Consistent(s) && Enabled(s, a) && Accounted(s, uri)
    ensures Accounted(Apply(s, a), uri)
  {
    if a.ReplaceGraph? {
      ReplaceStep(s, uri);
    } else if a.Open? || a.Change? || a.Save? || a.Close? {
      EditStep(s, a, uri);
    } else if WorkerDue(s, uri) {
      WorkerStep(s, a, uri);
    }
  }

  /** An edit makes its handler due for the document and leaves every other document accounted for. */
  lemma EditStep(s: State, a: Action, uri: Uri)
    requires Consistent(s) && Enabled(s, a) && Accounted(s, uri)
    requires a.Open? || a.Change? || a.Save? || a.Close?
    ensures Accounted(Apply(s, a), uri)
  {
    var t := Apply(s, a);
    if a.uri != uri && WorkerDue(s, uri) {
      var id :| id in s.revalidations && Covers(s, s.revalidations[id], uri);
      assert Covers(t, t.revalidations[id], uri);
    }
  }

  lemma InvStep(s: State, a: Action)
    requires Inv(s)
    ensures Inv(Step(s, a))
  {
    if Enabled(s, a) {
      ConsistentStep(s, a);
      forall uri ensures Accounted(Apply(s, a), uri) {
        AccountedStep(s, a, uri);
      }
    }
  }

  lemma {:induction false} InvRun(generation: nat, actions: seq<Action>)
    ensures Inv(Run(generation, actions))
  {
    if actions != [] {
      InvRun(generation, actions[..|actions| - 1]);
      InvStep(Run(generation, actions[..|actions| - 1]), actions[|actions| - 1]);
    }
  }

  // ---------------------------------------------------------------------------------------------
  // What the editor sent
  // ---------------------------------------------------------------------------------------------

  /** The notifications and replacements that took place, oldest first. */
  predicate External(a: Action) {
    a.Open? || a.Change? || a.Save? || a.Close? || a.ReplaceGraph?
  }

  ghost function Accepted(generation: nat, actions: seq<Action>): seq<Action> {
    if actions == [] then []
    else
      var before, a := actions[..|actions| - 1], actions[|actions| - 1];
      if External(a) && Enabled(Run(generation, before), a)
      then Accepted(generation, before) + [a]
      else Accepted(generation, before)
  }

  /** The document that these notifications leave open under this name. */
  ghost function Sent(events: seq<Action>, uri: Uri): Option<Document> {
    if events == [] then None
    else
      var before := Sent(events[..|events| - 1], uri);
      match events[|events| - 1]
      case Open(u, d) => if u == uri then Some(d) else before
      case Change(u, d) => if u == uri then Some(d) else before
      case Save(u, text) =>
        if u == uri && before.Some? && text.Some? then Some(Document(before.value.version, text.value)) else before
      case Close(u) => if u == uri then None else before
      case _ => before
  }

  ghost function Replacements(events: seq<Action>): nat {
    if events == [] then 0
    else
      Replacements(events[..|events| - 1]) + if events[|events| - 1].ReplaceGraph? then 1 else 0
  }

  ghost predicate Stores(documents: map<Uri, Document>, events: seq<Action>) {
    forall uri :: Sent(events, uri) == if uri in documents then Some(documents[uri]) else None
  }

  lemma InternalKeeps(s: State, a: Action)
    requires Enabled(s, a) && !External(a)
    ensures Apply(s, a).documents == s.documents && Apply(s, a).generation == s.generation
  {
  }

  lemma ExternalStores(s: State, events: seq<Action>, a: Action)
    requires Stores(s.documents, events) && Enabled(s, a) && External(a)
    ensures Stores(Apply(s, a).documents, events + [a])
    ensures Apply(s, a).generation == s.generation + Replacements(events + [a]) - Replacements(events)
  {
    assert (events + [a])[..|events|] == events;
    forall uri
      ensures
        var t := Apply(s, a);
        Sent(events + [a], uri) == if uri in t.documents then Some(t.documents[uri]) else None
    {
      assert Sent(events, uri) == if uri in s.documents then Some(s.documents[uri]) else None;
    }
  }

  /** The server holds what the editor sent, under the generation that the replacements make. */
  lemma {:induction false} StoreFollowsEditor(generation: nat, actions: seq<Action>)
    ensures Stores(Run(generation, actions).documents, Accepted(generation, actions))
    ensures Run(generation, actions).generation == generation + Replacements(Accepted(generation, actions))
  {
    if actions != [] {
      var before, a := actions[..|actions| - 1], actions[|actions| - 1];
      StoreFollowsEditor(generation, before);
      if Enabled(Run(generation, before), a) {
        if External(a) {
          ExternalStores(Run(generation, before), Accepted(generation, before), a);
        } else {
          InternalKeeps(Run(generation, before), a);
        }
      }
    }
  }

  /** While no notification is handled, an edit is taken exactly if its document is open and, for a change, older. */
  lemma EditsAreTaken(generation: nat, actions: seq<Action>, uri: Uri)
    requires Run(generation, actions).handler.Idle?
    ensures
      var s, sent := Run(generation, actions), Sent(Accepted(generation, actions), uri);
      && (forall d :: Enabled(s, Open(uri, d)))
      && (forall d :: Enabled(s, Change(uri, d)) <==> sent.Some? && d.version > sent.value.version)
      && (forall text :: Enabled(s, Save(uri, text)) <==> sent.Some?)
      && Enabled(s, Close(uri))
  {
    StoreFollowsEditor(generation, actions);
    assert Stores(Run(generation, actions).documents, Accepted(generation, actions));
  }

  lemma QuietIsSettled(s: State, uri: Uri)
    requires Consistent(s) && Accounted(s, uri) && Quiescent(s)
    ensures Settled(s, uri)
  {
    assert s.mutex.Free?;
  }

  /**
   In every interleaving, once no handler and no revalidation is in flight, the last message of a
   document that the editor has open reports the text the editor sent last, under the generation of
   the latest replacement, and that of any other document is empty.
   */
  lemma DiagnosticsSettle(generation: nat, actions: seq<Action>, uri: Uri)
    requires Quiescent(Run(generation, actions))
    ensures
      var events, last := Accepted(generation, actions), Run(generation, actions).last;
      match Sent(events, uri)
      case Some(d) => uri in last && last[uri] == Report(d, generation + Replacements(events))
      case None => uri in last ==> last[uri].Empty?
  {
    var s := Run(generation, actions);
    InvRun(generation, actions);
    assert Accounted(s, uri);
    QuietIsSettled(s, uri);
    StoreFollowsEditor(generation, actions);
    assert Stores(s.documents, Accepted(generation, actions));
  }

  // ---------------------------------------------------------------------------------------------
  // What was computed
  // ---------------------------------------------------------------------------------------------

  /** The generation in the cache when this revalidation read the graph. */
  ghost function LoadedAt(generation: nat, actions: seq<Action>, id: nat): Option<nat> {
    if actions == [] then None
    else
      var before, a := actions[..|actions| - 1], actions[|actions| - 1];
      var s := Run(generation, before);
      if a == StartRevalidation(id) && Enabled(s, a) then Some(s.generation) else LoadedAt(generation, before, id)
  }

  /** Diagnostics of a document as it was, under the graph of a generation. */
  datatype Computation = Computation(item: Item, generation: nat)

  /** All that has been computed: by handlers from the graph they read, by revalidations from that read before. */
  ghost function Computed(generation: nat, actions: seq<Action>): set<Computation> {
    if actions == [] then {}
    else
      var before, a := actions[..|actions| - 1], actions[|actions| - 1];
      var s, done := Run(generation, before), Computed(generation, before);
      if !Enabled(s, a) then done
      else
        match a
        case ReadCache => done + {Computation(s.handler.item, s.generation)}
        case ListDocuments(id, _) =>
          var loaded := LoadedAt(generation, before, id);
          if loaded.None? then done
          else done + set uri | uri in s.documents :: Computation(Item(uri, s.documents[uri]), loaded.value)
        case _ => done
  }

  /** Whatever is on its way, or was sent, has been computed under the generation that it names. */
  ghost predicate Honest(s: State, done: set<Computation>) {
    && (s.handler.Ready? ==> Computation(s.handler.item, s.handler.generation) in done)
    && (s.mutex.Publishing? ==> Computation(s.mutex.item, s.mutex.generation) in done)
    && (forall uri :: uri in s.last && s.last[uri].Report? ==>
                        Computation(Item(uri, s.last[uri].document), s.last[uri].generation) in done)
    && forall id :: id in s.revalidations ==> HonestWork(s.revalidations[id], done)
  }

  ghost predicate HonestWork(r: Revalidation, done: set<Computation>) {
    match r
    case Queue(g, items) => forall i :: 0 <= i < |items| ==> Computation(items[i], g) in done
    case Busy(g, items) => forall i :: 0 <= i < |items| ==> Computation(items[i], g) in done
    case _ => true
  }

  /** A revalidation that has read the graph has read that of its generation. */
  ghost predicate LoadsInv(generation: nat, actions: seq<Action>) {
    var s := Run(generation, actions);
    forall id :: id in s.revalidations && s.revalidations[id].Loaded? ==>
                   LoadedAt(generation, actions, id) == Some(s.revalidations[id].generation)
  }

  lemma LoadStays(generation: nat, actions: seq<Action>, a: Action, id: nat)
    requires Consistent(Run(generation, actions)) && LoadsInv(generation, actions)
    requires
      var t := Run(generation, actions + [a]);
      id in t.revalidations && t.revalidations[id].Loaded?
    ensures LoadedAt(generation, actions + [a], id) == Some(Run(generation, actions + [a]).revalidations[id].generation)
  {
    assert (actions + [a])[..|actions|] == actions;
  }

  lemma {:induction false} LoadsRun(generation: nat, actions: seq<Action>)
    ensures LoadsInv(generation, actions)
  {
    if actions != [] {
      var before, a := actions[..|actions| - 1], actions[|actions| - 1];
      LoadsRun(generation, before);
      InvRun(generation, before);
      assert actions == before + [a];
      var t := Run(generation, actions);
      forall id | id in t.revalidations && t.revalidations[id].Loaded?
        ensures LoadedAt(generation, actions, id) == Some(t.revalidations[id].generation)
      {
        LoadStays(generation, before, a, id);
      }
    }
  }

  lemma HonestStep(s: State, a: Action, done: set<Computation>)
    requires Honest(s, done) && Enabled(s, a) && !a.ReadCache? && !a.ListDocuments?
    ensures Honest(Apply(s, a), done)
  {
    if a.CheckDocument? || a.CheckGeneration? || a.Send? || a.SendClear? {
      HonestHolder(s, a, done);
    }
  }

  lemma HonestHolder(s: State, a: Action, done: set<Computation>)
    requires Honest(s, done) && Enabled(s, a) && (a.CheckDocument? || a.CheckGeneration? || a.Send? || a.SendClear?)
    ensures Honest(Apply(s, a), done)
  {
  }

  lemma HonestRead(s: State, done: set<Computation>)
    requires Honest(s, done) && s.handler.Snapped?
    ensures Honest(Apply(s, ReadCache), done + {Computation(s.handler.item, s.generation)})
  {
  }

  lemma HonestList(s: State, id: nat, order: seq<Uri>, done: set<Computation>)
    requires Honest(s, done) && Enabled(s, ListDocuments(id, order))
    ensures Honest(Apply(s, ListDocuments(id, order)),
                   done + set uri | uri in s.documents ::
                     Computation(Item(uri, s.documents[uri]), s.revalidations[id].generation))
  {
  }

  /**
   In every interleaving, each message for a document reports diagnostics that were computed from a
   text that was open under its name, and from the graph that the cache held as the generation it names.
   */
  lemma {:induction false} MessagesAreComputed(generation: nat, actions: seq<Action>)
    ensures Honest(Run(generation, actions), Computed(generation, actions))
  {
    if actions != [] {
      var before, a := actions[..|actions| - 1], actions[|actions| - 1];
      var s, done := Run(generation, before), Computed(generation, before);
      MessagesAreComputed(generation, before);
      if Enabled(s, a) {
        if a.ReadCache? {
          HonestRead(s, done);
        } else if a.ListDocuments? {
          LoadsRun(generation, before);
          HonestList(s, a.id, a.order, done);
        } else {
          HonestStep(s, a, done);
        }
      }
    }
  }

  // ---------------------------------------------------------------------------------------------
  // Coming to rest
  // ---------------------------------------------------------------------------------------------

  /** Steps that a revalidation may still take, outside the mutex; `open` documents are to be listed. */
  function StepsOf(r: Revalidation, open: nat): nat {
    match r
    case Notified(_) => 4 * open + 3
    case Loaded(_) => 4 * open + 2
    case Queue(_, items) => 4 * |items| + 1
    case Busy(_, items) => 4 * |items| + 1
  }

  function HandlerSteps(h: Handler): nat {
    match h
    case Idle => 0
    case Inside => 0
    case Removed(_) => 2
    case Ready(_, _) => 4
    case Snapped(_) => 5
    case Stored(_) => 6
  }

  function MutexSteps(m: Mutex): nat {
    match m
    case Free => 0
    case Clearing(_) => 1
    case Publishing(_, _, _, stage) =>
      match stage
      case Entered => 3
      case DocumentMatched => 2
      case BothMatched => 1
  }

  /** Steps that the revalidations numbered below `n` may still take. */
  ghost function WorkerSteps(revalidations: map<nat, Revalidation>, open: nat, n: nat): nat {
    if n == 0 then 0
    else
      WorkerSteps(revalidations, open, n - 1)
      + if n - 1 in revalidations then StepsOf(revalidations[n - 1], open) else 0
  }

  ghost function StepsLeft(s: State): nat {
    HandlerSteps(s.handler) + MutexSteps(s.mutex) + WorkerSteps(s.revalidations, |s.documents|, s.started)
  }

  lemma {:induction false} WorkersElsewhere(r: map<nat, Revalidation>, t: map<nat, Revalidation>, open: nat, n: nat)
    requires forall id :: id < n ==> (id in r <==> id in t) && (id in r ==> r[id] == t[id])
    ensures WorkerSteps(r, open, n) == WorkerSteps(t, open, n)
  {
    if n > 0 {
      WorkersElsewhere(r, t, open, n - 1);
    }
  }

  /** Only the steps of the revalidation that moved change. */
  lemma {:induction false} WorkerMoves(r: map<nat, Revalidation>, t: map<nat, Revalidation>, open: nat, n: nat, id: nat)
    requires id < n && id in r
    requires forall i :: i != id ==> (i in r <==> i in t) && (i in r ==> r[i] == t[i])
    ensures
      WorkerSteps(t, open, n) + StepsOf(r[id], open)
      == WorkerSteps(r, open, n) + if id in t then StepsOf(t[id], open) else 0
  {
    if id == n - 1 {
      WorkersElsewhere(r, t, open, n - 1);
    } else {
      WorkerMoves(r, t, open, n - 1, id);
    }
  }

  lemma {:induction false} DistinctFit(order: seq<Uri>, names: set<Uri>)
    requires forall i :: 0 <= i < |order| ==> order[i] in names
    requires forall i, j :: 0 <= i < j < |order| ==> order[i] != order[j]
    ensures |order| <= |names|
    decreases |order|
  {
    if order != [] {
      var first := order[0];
      assert forall i :: 0 <= i < |order[1..]| ==> order[1..][i] == order[i + 1];
      DistinctFit(order[1..], names - {first});
    }
  }

  /** Whatever is in flight takes up one of the steps left. */
  lemma StepsGoDown(s: State, a: Action)
    requires Consistent(s) && Enabled(s, a) && !External(a)
    ensures StepsLeft(Apply(s, a)) < StepsLeft(s)
  {
    if a.StartRevalidation? || a.ListDocuments? || a.NextItem? {
      WorkerGoesDown(s, a);
    } else if a.CheckDocument? || a.CheckGeneration? || a.Send? {
      MutexGoesDown(s, a);
    }
  }

  lemma WorkerGoesDown(s: State, a: Action)
    requires Consistent(s) && Enabled(s, a) && (a.StartRevalidation? || a.ListDocuments? || a.NextItem?)
    ensures StepsLeft(Apply(s, a)) < StepsLeft(s)
  {
    var t := Apply(s, a);
    WorkerMoves(s.revalidations, t.revalidations, |s.documents|, s.started, a.id);
    if a.ListDocuments? {
      DistinctFit(a.order, s.documents.Keys);
    }
  }

  lemma MutexGoesDown(s: State, a: Action)
    requires Consistent(s) && Enabled(s, a) && (a.CheckDocument? || a.CheckGeneration? || a.Send?)
    ensures StepsLeft(Apply(s, a)) < StepsLeft(s)
  {
    var t, open := Apply(s, a), |s.documents|;
    if s.mutex.who.Worker? {
      WorkerMoves(s.revalidations, t.revalidations, open, s.started, s.mutex.who.id);
    }
  }

  lemma {:induction false} ListedOnce(names: set<Uri>) returns (order: seq<Uri>)
    ensures forall i :: 0 <= i < |order| ==> order[i] in names
    ensures forall uri :: uri in names ==> uri in order
    ensures forall i, j :: 0 <= i < j < |order| ==> order[i] != order[j]
    decreases |names|
  {
    if names == {} {
      order := [];
    } else {
      var uri :| uri in names;
      order := ListedOnce(names - {uri});
      order := order + [uri];
    }
  }

  /** Nothing in flight is ever stuck. */
  lemma SomethingMoves(s: State) returns (a: Action)
    requires Consistent(s) && !Quiescent(s)
    ensures Enabled(s, a) && !External(a)
  {
    match s.mutex
    case Clearing(_) => a := SendClear;
    case Publishing(_, _, _, stage) =>
      a := if stage.Entered? then CheckDocument else if stage.DocumentMatched? then CheckGeneration else Send;
    case Free =>
      if !s.handler.Idle? {
        a := if s.handler.Stored? then ReadBack else if s.handler.Snapped? then ReadCache else LockHandler;
      } else {
        var id :| id in s.revalidations;
        match s.revalidations[id]
        case Notified(_) => a := StartRevalidation(id);
        case Loaded(_) =>
          var order := ListedOnce(s.documents.Keys);
          a := ListDocuments(id, order);
        case _ => a := NextItem(id);
      }
  }

  ghost predicate AllInternal(more: seq<Action>) {
    forall i :: 0 <= i < |more| ==> !External(more[i])
  }

  /** Once the editor and the graph keep still, everything in flight ends: no handler and no revalidation blocks. */
  lemma {:induction false} ComesToRest(generation: nat, actions: seq<Action>) returns (more: seq<Action>)
    ensures AllInternal(more) && Quiescent(Run(generation, actions + more))
    decreases StepsLeft(Run(generation, actions))
  {
    var s := Run(generation, actions);
    if Quiescent(s) {
      more := [];
      assert actions + [] == actions;
    } else {
      InvRun(generation, actions);
      var a := SomethingMoves(s);
      StepsGoDown(s, a);
      assert (actions + [a])[..|actions|] == actions;
      var rest := ComesToRest(generation, actions + [a]);
      more := [a] + rest;
      assert actions + more == actions + [a] + rest;
    }
  }

  /** Each of these steps is enabled in its turn, and none comes from the editor or the graph. */
  ghost predicate AllTaken(generation: nat, actions: seq<Action>, more: seq<Action>)
    decreases |more|
  {
    more == []
    || (&& Enabled(Run(generation, actions), more[0]) && !External(more[0])
        && AllTaken(generation, actions + [more[0]], more[1..]))
  }

  /** And it ends whatever the order: no more steps are taken than are left. */
  lemma {:induction false} RestIsNear(generation: nat, actions: seq<Action>, more: seq<Action>)
    requires AllTaken(generation, actions, more)
    ensures |more| <= StepsLeft(Run(generation, actions))
    decreases |more|
  {
    if more != [] {
      InvRun(generation, actions);
      StepsGoDown(Run(generation, actions), more[0]);
      assert (actions + [more[0]])[..|actions|] == actions;
      RestIsNear(generation, actions + [more[0]], more[1..]);
    }
  }
}
