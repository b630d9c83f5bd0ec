/** A graph that can be built, on which completion offers a lookup that the resolver does not accept. */
module PathExample {
  import opened Prelude
  import opened Ordering
  import opened Schema
  import opened SchemaIndex
  import opened SchemaGraph
  import opened PathResolver
  import opened PathTheorems

  /** A field whose first lookup path is a "*" key and whose second has a lookup named "*": they are not sorted. */
  function StarField(): Field {
    Field("data", false, None, None, None, None, None, None, false, "shop.item", false, [],
          [LookupPath(["*"], ["key_transform"], ["exact"]), LookupPath([], [], ["*"])], false, true)
  }

  function Item(): Model {
    Model("shop.item", "shop.models", "Item", ["/shop/models.py"], map["data" := StarField()], [], true)
  }

  function Shop(): App {
    App("shop", "shop", "/shop", true, map["item" := Item()])
  }

  function ShopSnapshot(): Snapshot {
    Snapshot(SCHEMA_VERSION, POSITION_ENCODING, MAX_LOOKUP_DEPTH, MAX_LOOKUP_PATHS, true, map["shop" := Shop()])
  }

  function DataAccess(): Access {
    Access("data", Declared, StarField())
  }

  function ItemIndex(): ModelIndex {
    var own := map["data" := DataAccess()];
    ModelIndex(Item(), Item().fields, map["data" := StarField()], map[], map[], own, own,
               PerContext(map[], map[], map[]),
               [DataAccess()], [DataAccess()], PerContext([], [], []))
  }

  function ItemRecord(): Record {
    RecordOf(Shop(), "shop", "item")
  }

  function ShopGraph(): Graph {
    Extend(Graph(map[], map[], map[], map[], map[]), ItemRecord(), ItemIndex())
  }

  lemma OneOffer(offers: Field -> seq<Access>, f: Field)
    ensures OffersOf(offers, [f]) == offers(f)
  {
    assert [f][..0] == [];
    assert OffersOf(offers, []) + offers(f) == offers(f);
  }

  lemma OneTable(a: Access)
    requires Usable(a.name)
    ensures TableOf([a]) == map[a.name := a]
    ensures Lists([a], map[a.name := a])
  {
    assert [a][..0] == [];
    assert TableOf([]) == map[];
  }

  lemma ItemOffers()
    ensures QueryOffersOf([StarField()]) == [DataAccess()] && InstanceOffersOf([StarField()]) == [DataAccess()]
    ensures forall context :: RelationOffersOf(context, [StarField()]) == []
  {
    OneOffer(QueryOffers, StarField());
    OneOffer(InstanceOffers, StarField());
    forall context ensures RelationOffersOf(context, [StarField()]) == [] {
      OneOffer(RelationOfferer(context), StarField());
    }
  }

  lemma ItemNames()
    ensures SortedNames(Item(), ["data"]) && SortedFields(Item(), ["data"]) == [StarField()]
  {
  }

  lemma ItemIsIndexed()
    ensures IsIndex(ItemIndex(), Item()) && ModelIndexable(Item())
  {
    ItemNames();
    ItemOffers();
    OneTable(DataAccess());
    var fields := [StarField()];
    assert Lists([], TableOf([]));
    assert Serves(map["data" := StarField()], QueryNames, fields) by {
      assert StarField() in fields && "data" in QueryNames(StarField());
    }
    assert IsIndexOf(ItemIndex(), Item(), fields);
    assert NamesDistinct(fields);
    assert Indexable(fields);
  }

  lemma ItemIsValid()
    ensures ValidModel("shop", "item", Item())
  {
    var paths := StarField().lookupPaths;
    assert ValidLookupPath(paths[0]) && ValidLookupPath(paths[1]);
    assert ValidField("data", StarField());
  }

  lemma OneRecord()
    ensures Records(ShopSnapshot(), ShopSnapshot().apps.Keys) == {ItemRecord()}
  {
    var s := ShopSnapshot();
    assert s.apps["shop"] == Shop() && Shop().models["item"] == Item();
    var records := Records(s, s.apps.Keys);
    forall r | r in records ensures r == ItemRecord() {
      var key, name :| key in s.apps && name in s.apps[key].models && r == RecordOf(s.apps[key], key, name);
      assert key == "shop" && name == "item";
    }
    assert ItemRecord() in records by {
      assert "shop" in s.apps && "item" in s.apps["shop"].models;
    }
  }

  lemma OneIsRegistrable(r: Record)
    requires Sound(r)
    ensures Registrable({r})
  {
  }

  lemma ItemIsSound()
    ensures Registrable({ItemRecord()})
  {
    ItemIsValid();
    ItemIsIndexed();
    OneIsRegistrable(ItemRecord());
  }

  lemma ItemResolves()
    ensures AllResolve({ItemRecord()})
  {
    var r := ItemRecord();
    assert r in {r} && r.CanonicalLabel() == "shop.item";
    assert "shop.item" in LabelsOf({r});
  }

  lemma ShopIsAccepted()
    ensures Accepts(ShopSnapshot())
  {
    OneRecord();
    ItemIsSound();
    ItemResolves();
  }

  lemma NothingIsDescribed()
    ensures Describes({}, Graph(map[], map[], map[], map[], map[]))
  {
  }

  /** Any one record with its index makes a graph. */
  lemma OneIsDescribed(records: set<Record>, g: Graph, r: Record, index: ModelIndex)
    requires records == {} + {r} && Describes({}, g)
    requires g.canonical == map[] && g.classPath == map[] && g.sourceClass == map[]
    requires IsIndex(index, r.model)
    ensures Describes(records, Extend(g, r, index))
  {
    DescribesStep({}, r, g, index);
  }

  lemma ShopIsDescribed()
    ensures Describes({ItemRecord()}, ShopGraph())
  {
    ItemIsIndexed();
    NothingIsDescribed();
    OneIsDescribed({ItemRecord()}, Graph(map[], map[], map[], map[], map[]), ItemRecord(), ItemIndex());
  }

  /** The graph is built from the snapshot. */
  lemma ShopIsBuilt()
    ensures Built(ShopGraph())
  {
    ShopIsAccepted();
    OneRecord();
    ShopIsDescribed();
    BuiltFrom(ShopSnapshot(), ShopGraph());
  }

  lemma BuiltFrom(s: Snapshot, g: Graph)
    requires Accepts(s) && Describes(Records(s, s.apps.Keys), g)
    ensures Built(g)
  {
  }

  function DataPath(): seq<PathSegment> {
    [PathSegment("data", 0, 4), PathSegment("", 6, 6)]
  }

  function AfterData(): State {
    State("", Some(StarField()), None, [])
  }

  lemma StarIsShadowed()
    ensures Shadowed(ShopGraph(), PathLookup, AfterData(), "*")
  {
    var f := StarField();
    var paths := f.lookupPaths;
    assert Continues(paths[0], [], "*") && HasLookup(f, paths[1], [], "*");
    assert paths[..1] == [paths[0]] && paths[..1][..0] == [];
    assert Decision(f, paths[..1], [], "*", true) == Some(TransformCandidate);
    assert Decision(f, paths, [], "*", true) == Some(TransformCandidate);
  }

  lemma DataIsConsumed()
    ensures Walk(ShopGraph(), PathLookup, "shop.item", DataPath(), 1) == Some(AfterData())
  {
    WalkStep(ShopGraph(), PathLookup, "shop.item", DataPath(), 0, Start("shop.item"));
    assert QueryAccess(ShopGraph(), "shop.item", "data") == Some(DataAccess());
  }

  /** After "data", completion offers "*" on this graph, and the path that ends with it is consumed only as the key. */
  lemma ShadowedExample(candidates: seq<Candidate>)
    requires IsCompletion(ShopGraph(), "shop.item", PathLookup, DataPath(), 1, candidates)
    ensures Built(ShopGraph())
    ensures "*" in Names(candidates)
    ensures !ConsumedPlainly(ShopGraph(), PathLookup, "shop.item", DataPath()[..1] + [PathSegment("*", 0, 0)])
  {
    ShopIsBuilt();
    DataIsConsumed();
    StarIsShadowed();
    CompletionIsAcceptance(ShopGraph(), "shop.item", PathLookup, DataPath(), 1, candidates, "*", AfterData());
  }
}
