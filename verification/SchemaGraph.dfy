/** Building the schema graph from a snapshot whose apps and models are visited in any order. */
module SchemaGraph {
  import opened Prelude
  import opened Ordering
  import opened Schema
  import opened SchemaIndex

  const SCHEMA_VERSION := 3
  const POSITION_ENCODING := "utf-8-bytes"

  /** `rootIsAbsolute` and `sourcesValid` stand for the checks on file paths. */
  datatype App = App(appLabel: string, importName: string, rootPath: string, rootIsAbsolute: bool, models: map<string,
                                                                                                               Model>)

  datatype Snapshot = Snapshot(
    schemaVersion: int,
    positionEncoding: string,
    lookupMaxDepth: int,
    lookupMaxCount: int,
    sourcesValid: bool,
    apps: map<string, App>)

  /** A model is referred to by its canonical label; `None` marks an export path claimed more than once. */
  datatype Graph = Graph(
    canonical: map<string, ModelIndex>,
    classPath: map<string, string>,
    modelExport: map<string, Option<string>>,
    sourceClass: map<string, string>,
    modules: map<string, seq<string>>)

  function ClassPathOf(m: Model): string {
    m.moduleName + "." + m.qualname
  }

  function SourceKeys(m: Model): seq<string> {
    seq(|m.sourcePaths|, i requires 0 <= i < |m.sourcePaths| => m.sourcePaths[i] + "\0" + m.qualname)
  }

  /** The path under which an app's `models` package exports a top-level model. */
  function ExportPathOf(app: App, m: Model): Option<string> {
    if '.' !in m.qualname && (m.moduleName == app.importName + ".models" || app.importName + ".models." <= m.moduleName)
    then Some(app.importName + ".models." + m.qualname)
    else None
  }

  predicate ValidHeader(s: Snapshot) {
    && s.schemaVersion == SCHEMA_VERSION && s.positionEncoding == POSITION_ENCODING
    && s.lookupMaxDepth == MAX_LOOKUP_DEPTH && s.lookupMaxCount == MAX_LOOKUP_PATHS
  }

  predicate ValidApp(key: string, app: App) {
    key != "" && app.appLabel == key && app.importName != "" && app.rootPath != "" && app.rootIsAbsolute
  }

  // ---------------------------------------------------------------------------------------------
  // What a graph must be, without an order
  // ---------------------------------------------------------------------------------------------

  /** One visited model with the keys it is registered under. */
  datatype Record = Record(
    appKey: string, modelName: string, model: Model, classPath: string, exportPath: Option<string>,
    sourceKeys: seq<string>)
  {
    function CanonicalLabel(): string {
      model.canonicalLabel
    }
  }

  function RecordOf(app: App, appKey: string, modelName: string): Record
    requires modelName in app.models
  {
    var m := app.models[modelName];
    Record(appKey, modelName, m, ClassPathOf(m), ExportPathOf(app, m), SourceKeys(m))
  }

  predicate SharesSource(r: Record, q: Record) {
    exists k :: k in r.sourceKeys && k in q.sourceKeys
  }

  predicate Collide(r: Record, q: Record) {
    r.CanonicalLabel() == q.CanonicalLabel() || r.classPath == q.classPath || SharesSource(r, q)
  }

  ghost predicate CollidesWithin(r: Record, records: set<Record>) {
    exists q :: q in records && Collide(r, q)
  }

  /** The table sends each key of each record to the record's canonical label, and has no other key. */
  ghost predicate Sends(records: set<Record>, keys: Record -> seq<string>, table: map<string, string>) {
    && (forall k :: k in table ==> exists r :: r in records && k in keys(r))
    && (forall r, k :: r in records && k in keys(r) ==> k in table && table[k] == r.CanonicalLabel())
  }

  ghost predicate HasLabels(records: set<Record>, labels: set<string>) {
    && (forall l :: l in labels ==> exists r :: r in records && r.CanonicalLabel() == l)
    && (forall r :: r in records ==> r.CanonicalLabel() in labels)
  }

  /** Each record's label leads to an index of its model, in the given sense. */
  ghost predicate LeadsToIndexes(records: set<Record>, canonical: map<string, ModelIndex>,
                                 isIndex: (ModelIndex, Model) -> bool) {
    forall r :: r in records && r.CanonicalLabel() in canonical ==> isIndex(canonical[r.CanonicalLabel()], r.model)
  }

  /** This label alone claims the export path. */
  ghost predicate SoleClaim(records: set<Record>, path: string, canonicalLabel: string) {
    && (exists r :: r in records && r.exportPath == Some(path) && r.CanonicalLabel() == canonicalLabel)
    && (forall r :: r in records && r.exportPath == Some(path) ==> r.CanonicalLabel() == canonicalLabel)
  }

  /** A path is listed when it is claimed, and resolves exactly to its sole claimant. */
  ghost predicate Exports(records: set<Record>, exports: map<string, Option<string>>) {
    && (forall p :: p in exports ==> exists r :: r in records && r.exportPath == Some(p))
    && (forall r :: r in records && r.exportPath.Some? ==> r.exportPath.value in exports)
    && (forall p, l :: p in exports ==> (exports[p] == Some(l) <==> SoleClaim(records, p, l)))
  }

  /** The table lists the labels of the records of each modules, each once, in some order. */
  ghost predicate ListsModules(records: set<Record>, modules: map<string, seq<string>>) {
    && (forall name :: name in modules ==> modules[name] != [] && Distinct(modules[name]))
    && (forall name, l :: name in modules && l in modules[name] ==>
                            exists r :: r in records && r.model.moduleName == name && r.CanonicalLabel() == l)
    && (forall r :: r in records ==> r.model.moduleName in modules && r.CanonicalLabel() in modules[r.model.moduleName])
  }

  function ClassPathKeys(r: Record): seq<string> {
    [r.classPath]
  }

  function SourceKeysOf(r: Record): seq<string> {
    r.sourceKeys
  }

  /** The tables are those of exactly these records, for this notion of an index. */
  ghost predicate Tables(records: set<Record>, g: Graph, isIndex: (ModelIndex, Model) -> bool) {
    && HasLabels(records, g.canonical.Keys)
    && LeadsToIndexes(records, g.canonical, isIndex)
    && Sends(records, ClassPathKeys, g.classPath)
    && Sends(records, SourceKeysOf, g.sourceClass)
    && Exports(records, g.modelExport)
    && ListsModules(records, g.modules)
  }

  /** The graph is that of exactly these records. */
  ghost predicate Describes(records: set<Record>, g: Graph) {
    Tables(records, g, IsIndex)
  }

  /** No graph, or one whose tables are those of these records. */
  ghost predicate DescribedBy(g: Option<Graph>, records: set<Record>) {
    match g
    case None => true
    case Some(graph) => Describes(records, graph)
  }

  // ---------------------------------------------------------------------------------------------
  // Registering one model
  // ---------------------------------------------------------------------------------------------

  /** The table with each of the keys leading to the label. */
  function WithKeys(table: map<string, string>, keys: seq<string>, canonicalLabel: string): map<string, string> {
    if keys == [] then table else WithKeys(table, keys[..|keys| - 1],
                                           canonicalLabel)[keys[|keys| - 1] := canonicalLabel]
  }

  lemma {:induction false} WithKeysHolds(table: map<string, string>, keys: seq<string>, canonicalLabel: string)
    ensures
      var next := WithKeys(table, keys, canonicalLabel);
      && (forall k :: k in next <==> k in table || k in keys)
      && (forall k :: k in next ==> next[k] == if k in keys then canonicalLabel else table[k])
  {
    if keys != [] {
      var init, last := keys[..|keys| - 1], keys[|keys| - 1];
      WithKeysHolds(table, init, canonicalLabel);
      assert keys == init + [last];
    }
  }

  /** Record the model under each of its keys, unless another model is recorded under one of them. */
  method RecordKeys(table: map<string, string>, keys: seq<string>, canonicalLabel: string)
    returns (r: Option<map<string, string>>)
    ensures r.Some? <==> forall i :: 0 <= i < |keys| && keys[i] in table ==> table[keys[i]] == canonicalLabel
    ensures r.Some? ==> r.value == WithKeys(table, keys, canonicalLabel)
  {
    var current := table;
    for i := 0 to |keys|
      invariant current == WithKeys(table, keys[..i], canonicalLabel)
      invariant forall j :: 0 <= j < i && keys[j] in table ==> table[keys[j]] == canonicalLabel
    {
      WithKeysHolds(table, keys[..i], canonicalLabel);
      assert keys[..i + 1][..i] == keys[..i];
      if keys[i] in current && current[keys[i]] != canonicalLabel {
        return None;
      }
      current := current[keys[i] := canonicalLabel];
    }
    assert keys[..|keys|] == keys;
    return Some(current);
  }

  /** A second claim on an export path makes it unresolvable. */
  function Export(exports: map<string, Option<string>>, path: Option<string>, canonicalLabel: string): map<string,
    Option<string>> {
    if path.None? then exports
    else if path.value in exports then
      if exports[path.value] == Some(canonicalLabel) then exports else exports[path.value := None]
    else exports[path.value := Some(canonicalLabel)]
  }

  lemma ExportsStep(records: set<Record>, r: Record, exports: map<string, Option<string>>)
    requires Exports(records, exports)
    requires forall q :: q in records ==> q.CanonicalLabel() != r.CanonicalLabel()
    ensures Exports(records + {r}, Export(exports, r.exportPath, r.CanonicalLabel()))
  {
    var more := records + {r};
    var next := Export(exports, r.exportPath, r.CanonicalLabel());
    assert r in more;
    forall p | p in next ensures exists q :: q in more && q.exportPath == Some(p) {
      if p in exports {
        var q :| q in records && q.exportPath == Some(p);
        assert q in more;
      }
    }
    forall p, l | p in next ensures next[p] == Some(l) <==> SoleClaim(more, p, l) {
      if r.exportPath == Some(p) {
        if p in exports {
          var q :| q in records && q.exportPath == Some(p);
          assert q in more;
        }
      } else {
        if q :| q in records && q.exportPath == Some(p) && q.CanonicalLabel() == l {
          assert q in more;
        }
        assert SoleClaim(more, p, l) <==> SoleClaim(records, p, l);
      }
    }
  }

  function Append(modules: map<string, seq<string>>, name: string, canonicalLabel: string): map<string, seq<string>> {
    modules[name := (if name in modules then modules[name] else []) + [canonicalLabel]]
  }

  lemma ModulesStep(records: set<Record>, r: Record, modules: map<string, seq<string>>)
    requires ListsModules(records, modules)
    requires forall q :: q in records ==> q.CanonicalLabel() != r.CanonicalLabel()
    ensures ListsModules(records + {r}, Append(modules, r.model.moduleName, r.CanonicalLabel()))
  {
    var more := records + {r};
    var next := Append(modules, r.model.moduleName, r.CanonicalLabel());
    assert r in more;
    forall name | name in next ensures next[name] != [] && Distinct(next[name]) {
      assert name in modules ==> r.CanonicalLabel() !in modules[name];
    }
    forall name, l | name in next && l in next[name]
      ensures exists q :: q in more && q.model.moduleName == name && q.CanonicalLabel() == l
    {
      if name in modules && l in modules[name] {
        var q :| q in records && q.model.moduleName == name && q.CanonicalLabel() == l;
        assert q in more;
      }
    }
    forall q | q in more ensures q.model.moduleName in next && q.CanonicalLabel() in next[q.model.moduleName] {
      assert r.CanonicalLabel() in [r.CanonicalLabel()];
      assert q in records ==> q.CanonicalLabel() in modules[q.model.moduleName];
    }
  }

  lemma SendsStep(records: set<Record>, r: Record, keys: Record -> seq<string>, table: map<string, string>)
    requires Sends(records, keys, table) && AllFree(keys(r), table)
    ensures Sends(records + {r}, keys, WithKeys(table, keys(r), r.CanonicalLabel()))
  {
    var next := WithKeys(table, keys(r), r.CanonicalLabel());
    WithKeysHolds(table, keys(r), r.CanonicalLabel());
    forall k | k in next ensures exists q :: q in records + {r} && k in keys(q) {
      if k in table {
        var q :| q in records && k in keys(q);
        assert q in records + {r};
      } else {
        assert r in records + {r};
      }
    }
    forall q, k | q in records && k in keys(q) ensures k !in keys(r) {
      assert k in table;
    }
  }

  lemma LabelsStep(records: set<Record>, r: Record, labels: set<string>)
    requires HasLabels(records, labels)
    ensures HasLabels(records + {r}, labels + {r.CanonicalLabel()})
  {
    forall l | l in labels + {r.CanonicalLabel()} ensures exists q :: q in records + {r} && q.CanonicalLabel() == l {
      if l in labels {
        var q :| q in records && q.CanonicalLabel() == l;
        assert q in records + {r};
      } else {
        assert r in records + {r};
      }
    }
  }

  lemma IndexesStep(records: set<Record>, r: Record, canonical: map<string, ModelIndex>, index: ModelIndex,
                    isIndex: (ModelIndex, Model) -> bool)
    requires LeadsToIndexes(records, canonical, isIndex) && HasLabels(records, canonical.Keys)
    requires r.CanonicalLabel() !in canonical && isIndex(index, r.model)
    ensures LeadsToIndexes(records + {r}, canonical[r.CanonicalLabel() := index], isIndex)
  {
  }

  /** None of the keys is taken. */
  predicate AllFree(keys: seq<string>, table: map<string, string>) {
    forall k :: k in keys ==> k !in table
  }

  /** The tables tell whether a model would collide with an earlier one. */
  lemma CollisionByTables(records: set<Record>, r: Record, g: Graph)
    requires HasLabels(records, g.canonical.Keys)
    requires Sends(records, ClassPathKeys, g.classPath) && Sends(records, SourceKeysOf, g.sourceClass)
    ensures CollidesWithin(r, records) <==>
            || r.CanonicalLabel() in g.canonical
            || r.classPath in g.classPath
            || !AllFree(r.sourceKeys, g.sourceClass)
  {
    if r.CanonicalLabel() in g.canonical {
      var q :| q in records && q.CanonicalLabel() == r.CanonicalLabel();
      assert Collide(r, q);
    } else if r.classPath in g.classPath {
      var q :| q in records && r.classPath in ClassPathKeys(q);
      assert Collide(r, q);
    } else if !AllFree(SourceKeysOf(r), g.sourceClass) {
      var k :| k in SourceKeysOf(r) && k in g.sourceClass;
      var q :| q in records && k in SourceKeysOf(q);
      assert Collide(r, q);
    } else {
      forall q | q in records ensures !Collide(r, q) {
        assert r.classPath in ClassPathKeys(r) && q.classPath in ClassPathKeys(q);
      }
    }
  }

  /** No table value is a label that is not indexed. */
  lemma LabelsIndexed(records: set<Record>, g: Graph, k: string)
    requires HasLabels(records, g.canonical.Keys) && Sends(records, SourceKeysOf, g.sourceClass) && k in g.sourceClass
    ensures g.sourceClass[k] in g.canonical
  {
    var q :| q in records && k in SourceKeysOf(q);
  }

  /** The graph with one more model. */
  function Extend(g: Graph, r: Record, index: ModelIndex): Graph {
    var l := r.CanonicalLabel();
    Graph(g.canonical[l := index], WithKeys(g.classPath, ClassPathKeys(r), l), Export(g.modelExport, r.exportPath, l),
          WithKeys(g.sourceClass, SourceKeysOf(r), l), Append(g.modules, r.model.moduleName, l))
  }

  lemma NewLabel(records: set<Record>, labels: set<string>, r: Record)
    requires HasLabels(records, labels) && r.CanonicalLabel() !in labels
    ensures forall q :: q in records ==> q.CanonicalLabel() != r.CanonicalLabel()
  {
  }

  lemma CanonicalStep(records: set<Record>, r: Record, canonical: map<string, ModelIndex>, index: ModelIndex,
                      isIndex: (ModelIndex, Model) -> bool)
    requires HasLabels(records, canonical.Keys) && LeadsToIndexes(records, canonical, isIndex)
    requires r.CanonicalLabel() !in canonical && isIndex(index, r.model)
    ensures
      var next := canonical[r.CanonicalLabel() := index];
      HasLabels(records + {r}, next.Keys) && LeadsToIndexes(records + {r}, next, isIndex)
  {
    LabelsStep(records, r, canonical.Keys);
    assert canonical[r.CanonicalLabel() := index].Keys == canonical.Keys + {r.CanonicalLabel()};
    IndexesStep(records, r, canonical, index, isIndex);
  }

  lemma TablesStep(records: set<Record>, r: Record, g: Graph, index: ModelIndex, isIndex: (ModelIndex, Model) -> bool)
    requires Tables(records, g, isIndex) && isIndex(index, r.model)
    requires r.CanonicalLabel() !in g.canonical
    requires AllFree(ClassPathKeys(r), g.classPath) && AllFree(SourceKeysOf(r), g.sourceClass)
    ensures Tables(records + {r}, Extend(g, r, index), isIndex)
  {
    CanonicalStep(records, r, g.canonical, index, isIndex);
    SendsStep(records, r, ClassPathKeys, g.classPath);
    SendsStep(records, r, SourceKeysOf, g.sourceClass);
    NewLabel(records, g.canonical.Keys, r);
    ExportsStep(records, r, g.modelExport);
    ModulesStep(records, r, g.modules);
  }

  lemma DescribesStep(records: set<Record>, r: Record, g: Graph, index: ModelIndex)
    requires Describes(records, g) && IsIndex(index, r.model)
    requires r.CanonicalLabel() !in g.canonical && r.classPath !in g.classPath
             && AllFree(SourceKeysOf(r), g.sourceClass)
    ensures Describes(records + {r}, Extend(g, r, index))
  {
    TablesStep(records, r, g, index, IsIndex);
  }

  /** The model is valid by itself. */
  ghost predicate Sound(r: Record) {
    ValidModel(r.appKey, r.modelName, r.model) && ModelIndexable(r.model)
  }

  /** The model can be registered after these. */
  ghost predicate Fits(r: Record, records: set<Record>) {
    Sound(r) && !CollidesWithin(r, records)
  }

  /** While the label is new, recording the source keys fails exactly when one of them is taken. */
  method RecordSources(r: Record, g: Graph, ghost records: set<Record>) returns (sources: Option<map<string, string>>)
    requires HasLabels(records, g.canonical.Keys) && Sends(records, SourceKeysOf, g.sourceClass)
    requires r.CanonicalLabel() !in g.canonical
    ensures sources == if AllFree(SourceKeysOf(r), g.sourceClass)
                       then Some(WithKeys(g.sourceClass, SourceKeysOf(r), r.CanonicalLabel()))
                       else None
  {
    forall k | k in g.sourceClass ensures g.sourceClass[k] != r.CanonicalLabel() {
      LabelsIndexed(records, g, k);
    }
    sources := RecordKeys(g.sourceClass, r.sourceKeys, r.CanonicalLabel());
  }

  /** The tables tell whether a record fits. */
  lemma FitsByTables(records: set<Record>, r: Record, g: Graph)
    requires HasLabels(records, g.canonical.Keys)
    requires Sends(records, ClassPathKeys, g.classPath) && Sends(records, SourceKeysOf, g.sourceClass)
    ensures Fits(r, records) <==>
            && Sound(r)
            && r.CanonicalLabel() !in g.canonical && r.classPath !in g.classPath && AllFree(r.sourceKeys, g.sourceClass)
  {
    CollisionByTables(records, r, g);
  }

  method AddModel(r: Record, g: Graph, ghost records: set<Record>) returns (next: Option<Graph>)
    requires Describes(records, g)
    ensures next.Some? <==> Fits(r, records)
    ensures DescribedBy(next, records + {r})
  {
    FitsByTables(records, r, g);
    if !ValidModel(r.appKey, r.modelName, r.model) || r.CanonicalLabel() in g.canonical || r.classPath in g.classPath {
      return None;
    }
    next := Register(r, g, records);
  }

  /** Index a valid model whose label and class path are new. */
  method Register(r: Record, g: Graph, ghost records: set<Record>) returns (next: Option<Graph>)
    requires Describes(records, g) && ValidFields(r.model)
    requires r.CanonicalLabel() !in g.canonical && r.classPath !in g.classPath
    ensures next.Some? <==> ModelIndexable(r.model) && AllFree(r.sourceKeys, g.sourceClass)
    ensures DescribedBy(next, records + {r})
  {
    var index := BuildModelIndex(r.model);
    if index.None? {
      return None;
    }
    var sources := RecordSources(r, g, records);
    if sources.None? {
      return None;
    }
    DescribesStep(records, r, g, index.value);
    var graph := AddTables(g, r, index.value, sources.value);
    next := Some(graph);
  }

  method AddTables(g: Graph, r: Record, index: ModelIndex, sources: map<string, string>) returns (next: Graph)
    requires sources == WithKeys(g.sourceClass, SourceKeysOf(r), r.CanonicalLabel())
    ensures next == Extend(g, r, index)
  {
    var l := r.CanonicalLabel();
    assert ClassPathKeys(r)[..0] == [];
    assert WithKeys(g.classPath, ClassPathKeys(r), l) == WithKeys(g.classPath, [], l)[r.classPath := l];
    next := Graph(g.canonical[l := index], g.classPath[r.classPath := l], Export(g.modelExport, r.exportPath, l),
                  sources,
                  Append(g.modules, r.model.moduleName, l));
  }

  // ---------------------------------------------------------------------------------------------
  // Building the graph
  // ---------------------------------------------------------------------------------------------

  /** The records of these apps. */
  function Records(s: Snapshot, keys: set<string>): set<Record> {
    set key, name | key in keys && key in s.apps && name in s.apps[key].models :: RecordOf(s.apps[key], key, name)
  }

  /** Every one of these models is valid by itself, and no two of them collide. */
  ghost predicate Registrable(records: set<Record>) {
    && (forall r :: r in records ==> Sound(r))
    && (forall r, q :: r in records && q in records && r != q ==> !Collide(r, q))
  }

  ghost function LabelsOf(records: set<Record>): set<string> {
    set r | r in records :: r.CanonicalLabel()
  }

  /** Source models, related models and parents that are not abstract are all models of the graph. */
  predicate ReferencesResolve(m: Model, labels: set<string>) {
    && (forall key :: key in m.fields ==>
                        && (m.fields[key].sourceModelAbstract || m.fields[key].sourceModel in labels)
                        && (m.fields[key].relatedModel.Some? ==> m.fields[key].relatedModel.value in labels))
    && (forall i :: 0 <= i < |m.parents| ==> m.parents[i].isAbstract || m.parents[i].canonicalLabel in labels)
  }

  ghost predicate AllResolve(records: set<Record>) {
    forall r :: r in records ==> ReferencesResolve(r.model, LabelsOf(records))
  }

  ghost predicate Accepts(s: Snapshot) {
    && ValidHeader(s)
    && (forall key :: key in s.apps ==> ValidApp(key, s.apps[key]))
    && Registrable(Records(s, s.apps.Keys))
    && s.sourcesValid
    && AllResolve(Records(s, s.apps.Keys))
  }

  lemma FitsRegistrable(records: set<Record>, r: Record)
    requires Registrable(records) && r !in records
    ensures Fits(r, records) <==> Registrable(records + {r})
  {
    forall q ensures Collide(r, q) <==> Collide(q, r) {
    }
    assert r in records + {r};
    assert forall q :: q in records ==> q in records + {r};
  }

  lemma StaysUnregistrable(records: set<Record>, more: set<Record>)
    requires records <= more
    ensures Registrable(more) ==> Registrable(records)
  {
  }

  /** Those records and the app's, except for the remaining models. */
  ghost function With(before: set<Record>, app: App, key: string, remaining: set<string>): set<Record> {
    before + set name | name in app.models && name !in remaining :: RecordOf(app, key, name)
  }

  lemma WithStep(before: set<Record>, app: App, key: string, remaining: set<string>, name: string)
    requires name in app.models && name in remaining
    requires forall r :: r in before ==> r.appKey != key
    ensures With(before, app, key, remaining - {name}) == With(before, app, key, remaining) + {RecordOf(app, key, name)}
    ensures RecordOf(app, key, name) !in With(before, app, key, remaining)
  {
  }

  lemma WithGrows(before: set<Record>, app: App, key: string, remaining: set<string>)
    ensures With(before, app, key, app.models.Keys) == before
    ensures With(before, app, key, remaining) <= With(before, app, key, {})
  {
  }

  lemma RecordsStep(s: Snapshot, keys: set<string>, key: string)
    requires key in s.apps
    ensures Records(s, keys + {key}) == With(Records(s, keys), s.apps[key], key, {})
    ensures key in keys || forall r :: r in Records(s, keys) ==> r.appKey != key
  {
  }

  /** Register one more model of the app. */
  method AddNext(r: Record, g: Graph, ghost records: set<Record>) returns (next: Option<Graph>)
    requires Registrable(records) && Describes(records, g) && r !in records
    ensures next.Some? <==> Registrable(records + {r})
    ensures DescribedBy(next, records + {r})
  {
    FitsRegistrable(records, r);
    next := AddModel(r, g, records);
  }

  method AddApp(app: App, key: string, g: Graph, ghost before: set<Record>) returns (next: Option<Graph>)
    requires forall r :: r in before ==> r.appKey != key
    requires Registrable(before) && Describes(before, g)
    ensures next.Some? <==> Registrable(With(before, app, key, {}))
    ensures DescribedBy(next, With(before, app, key, {}))
  {
    var current := g;
    var remaining := app.models.Keys;
    WithGrows(before, app, key, remaining);
    while remaining != {}
      invariant remaining <= app.models.Keys
      invariant Registrable(With(before, app, key, remaining)) && Describes(With(before, app, key, remaining), current)
    {
      var name :| name in remaining;
      WithStep(before, app, key, remaining, name);
      var added := AddNext(RecordOf(app, key, name), current, With(before, app, key, remaining));
      remaining := remaining - {name};
      if added.None? {
        WithGrows(before, app, key, remaining);
        StaysUnregistrable(With(before, app, key, remaining), With(before, app, key, {}));
        return None;
      }
      current := added.value;
    }
    return Some(current);
  }

  lemma IndexModels(records: set<Record>, g: Graph, r: Record)
    requires Describes(records, g) && r in records
    ensures r.CanonicalLabel() in g.canonical && g.canonical[r.CanonicalLabel()].model == r.model
  {
    assert IsIndex(g.canonical[r.CanonicalLabel()], r.model);
  }

  lemma LabelsAreKeys(records: set<Record>, g: Graph)
    requires Describes(records, g)
    ensures g.canonical.Keys == LabelsOf(records)
  {
  }

  /** The models of the graph are those of the records. */
  lemma ModelsMatch(records: set<Record>, g: Graph)
    requires Describes(records, g)
    ensures AllResolve(records) <==> forall l :: l in g.canonical ==>
                                                   ReferencesResolve(g.canonical[l].model, g.canonical.Keys)
  {
    LabelsAreKeys(records, g);
    forall r | r in records
      ensures r.CanonicalLabel() in g.canonical && g.canonical[r.CanonicalLabel()].model == r.model {
      IndexModels(records, g, r);
    }
    forall l | l in g.canonical ensures exists r :: r in records && r.CanonicalLabel() == l {
    }
  }

  method CheckReferences(canonical: map<string, ModelIndex>) returns (ok: bool)
    ensures ok <==> forall l :: l in canonical ==> ReferencesResolve(canonical[l].model, canonical.Keys)
  {
    var remaining := canonical.Keys;
    while remaining != {}
      invariant remaining <= canonical.Keys
      invariant forall l :: l in canonical && l !in remaining ==> ReferencesResolve(canonical[l].model, canonical.Keys)
    {
      var canonicalLabel :| canonicalLabel in remaining;
      remaining := remaining - {canonicalLabel};
      if !ReferencesResolve(canonical[canonicalLabel].model, canonical.Keys) {
        return false;
      }
    }
    return true;
  }

  /** Apps and models are visited in any order; verdict and tables depend on the snapshot alone. */
  method Build(s: Snapshot) returns (r: Option<Graph>)
    ensures r.Some? <==> Accepts(s)
    ensures DescribedBy(r, Records(s, s.apps.Keys))
  {
    if !ValidHeader(s) {
      return None;
    }
    var g := Graph(map[], map[], map[], map[], map[]);
    var remaining := s.apps.Keys;
    ghost var done: set<string> := {};
    while remaining != {}
      invariant done !! remaining && done + remaining == s.apps.Keys
      invariant forall key :: key in done ==> ValidApp(key, s.apps[key])
      invariant Registrable(Records(s, done)) && Describes(Records(s, done), g)
    {
      var key :| key in remaining;
      if !ValidApp(key, s.apps[key]) {
        return None;
      }
      RecordsStep(s, done, key);
      var added := AddApp(s.apps[key], key, g, Records(s, done));
      remaining := remaining - {key};
      done := done + {key};
      if added.None? {
        assert Records(s, done) <= Records(s, s.apps.Keys);
        StaysUnregistrable(Records(s, done), Records(s, s.apps.Keys));
        return None;
      }
      g := added.value;
    }
    assert done == s.apps.Keys;
    if !s.sourcesValid {
      return None;
    }
    ModelsMatch(Records(s, done), g);
    var resolved := CheckReferences(g.canonical);
    if !resolved {
      return None;
    }
    return Some(g);
  }

  // ---------------------------------------------------------------------------------------------
  // What the tables mean
  // ---------------------------------------------------------------------------------------------

  lemma SameSends(records: set<Record>, keys: Record -> seq<string>, a: map<string, string>, b: map<string, string>)
    requires Sends(records, keys, a) && Sends(records, keys, b)
    ensures a == b
  {
    forall k | k in a || k in b ensures k in a && k in b && a[k] == b[k] {
      var r :| r in records && k in keys(r);
    }
  }

  lemma SameIndex(a: ModelIndex, b: ModelIndex, m: Model)
    requires IsIndex(a, m) && IsIndex(b, m)
    ensures a == b
  {
    var names :| SortedNames(m, names) && IsIndexOf(a, m, SortedFields(m, names));
    var others :| SortedNames(m, others) && IsIndexOf(b, m, SortedFields(m, others));
    NamesUnique(m, names, others);
    IndexUnique(a, b, m, SortedFields(m, names));
  }

  lemma SameExports(records: set<Record>, a: map<string, Option<string>>, b: map<string, Option<string>>)
    requires Exports(records, a) && Exports(records, b)
    ensures a == b
  {
    forall p | p in a || p in b ensures p in a && p in b && a[p] == b[p] {
      var r :| r in records && r.exportPath == Some(p);
      if a[p].Some? {
        assert SoleClaim(records, p, a[p].value);
      }
      if b[p].Some? {
        assert SoleClaim(records, p, b[p].value);
      }
    }
  }

  lemma SameEntry(records: set<Record>, a: map<string, ModelIndex>, b: map<string, ModelIndex>, l: string)
    requires HasLabels(records, a.Keys) && l in a && l in b
    requires LeadsToIndexes(records, a, IsIndex) && LeadsToIndexes(records, b, IsIndex)
    ensures a[l] == b[l]
  {
    var r :| r in records && r.CanonicalLabel() == l;
    SameIndex(a[l], b[l], r.model);
  }

  lemma SameIndexes(records: set<Record>, a: map<string, ModelIndex>, b: map<string, ModelIndex>)
    requires HasLabels(records, a.Keys) && LeadsToIndexes(records, a, IsIndex)
    requires HasLabels(records, b.Keys) && LeadsToIndexes(records, b, IsIndex)
    ensures a == b
  {
    assert a.Keys == b.Keys;
    forall l | l in a ensures a[l] == b[l] {
      SameEntry(records, a, b, l);
    }
  }

  /** The lists of a module's models can differ in order only. */
  lemma SameModules(records: set<Record>, a: map<string, seq<string>>, b: map<string, seq<string>>)
    requires ListsModules(records, a) && ListsModules(records, b)
    ensures a.Keys == b.Keys
    ensures forall name, l :: name in a && name in b ==> (l in a[name] <==> l in b[name])
  {
    forall name, l | name in a && l in a[name] ensures name in b && l in b[name] {
      var r :| r in records && r.model.moduleName == name && r.CanonicalLabel() == l;
    }
    forall name, l | name in b && l in b[name] ensures name in a && l in a[name] {
      var r :| r in records && r.model.moduleName == name && r.CanonicalLabel() == l;
    }
    forall name | name in a ensures name in b {
      assert a[name][0] in a[name];
    }
    forall name | name in b ensures name in a {
      assert b[name][0] in b[name];
    }
  }

  function ModuleModelCount(g: Graph, name: string): nat {
    if name in g.modules then |g.modules[name]| else 0
  }

  lemma SameCounts(records: set<Record>, a: Graph, b: Graph, name: string)
    requires ListsModules(records, a.modules) && ListsModules(records, b.modules)
    ensures ModuleModelCount(a, name) == ModuleModelCount(b, name)
  {
    SameModules(records, a.modules, b.modules);
    if name in a.modules {
      DistinctLength(a.modules[name], b.modules[name]);
    }
  }

  lemma DistinctLength(a: seq<string>, b: seq<string>)
    requires Distinct(a) && Distinct(b) && forall l :: l in a <==> l in b
    ensures |a| == |b|
  {
    DistinctCardinality(a);
    DistinctCardinality(b);
    assert (set l | l in a) == (set l | l in b);
  }

  lemma {:induction false} DistinctCardinality(s: seq<string>)
    requires Distinct(s)
    ensures |set l | l in s| == |s|
  {
    if s != [] {
      var init := s[..|s| - 1];
      DistinctCardinality(init);
      assert s == init + [s[|s| - 1]];
      assert (set l | l in s) == (set l | l in init) + {s[|s| - 1]};
      assert s[|s| - 1] !in init;
    }
  }

  /**
   Whatever the order in which apps, models, fields and names were visited, the tables are the same;
   only the lists of a module's models, of which nothing but their length is served, can differ in order.
   */
  lemma BuildIsDeterministic(records: set<Record>, a: Graph, b: Graph)
    requires Describes(records, a) && Describes(records, b)
    ensures a.(modules := b.modules) == b
    ensures forall name :: ModuleModelCount(a, name) == ModuleModelCount(b, name)
  {
    SameIndexes(records, a.canonical, b.canonical);
    SameSends(records, ClassPathKeys, a.classPath, b.classPath);
    SameSends(records, SourceKeysOf, a.sourceClass, b.sourceClass);
    SameExports(records, a.modelExport, b.modelExport);
    forall name ensures ModuleModelCount(a, name) == ModuleModelCount(b, name) {
      SameCounts(records, a, b, name);
    }
  }

  /** The class of that path, or else the only model exported there. */
  function CanonicalLabelForClass(g: Graph, path: string): Option<string> {
    if path in g.classPath then Some(g.classPath[path])
    else if path in g.modelExport then g.modelExport[path]
    else None
  }

  /** An export path that is no class path resolves if and only if exactly one model claims it. */
  lemma ExportPathResolves(records: set<Record>, g: Graph, path: string)
    requires Registrable(records) && Exports(records, g.modelExport)
    requires path !in g.classPath
    ensures CanonicalLabelForClass(g, path).Some? <==> exists r :: OnlyClaimant(records, path, r)
    ensures forall r :: OnlyClaimant(records, path, r) ==> CanonicalLabelForClass(g, path) == Some(r.CanonicalLabel())
  {
    forall r, q | r in records && q in records && r != q ensures r.CanonicalLabel() != q.CanonicalLabel() {
      KeysDistinct(records, r, q);
    }
    var found := CanonicalLabelForClass(g, path);
    if found.Some? {
      assert SoleClaim(records, path, found.value);
      var r :| r in records && r.exportPath == Some(path) && r.CanonicalLabel() == found.value;
      assert OnlyClaimant(records, path, r);
    }
    forall r | OnlyClaimant(records, path, r) ensures found == Some(r.CanonicalLabel()) {
      assert SoleClaim(records, path, r.CanonicalLabel());
    }
  }

  ghost predicate OnlyClaimant(records: set<Record>, path: string, r: Record) {
    r in records && r.exportPath == Some(path) && forall q :: q in records && q.exportPath == Some(path) ==> q == r
  }

  /** No two registered models share a label or a class path. */
  lemma KeysDistinct(records: set<Record>, r: Record, q: Record)
    requires Registrable(records) && r in records && q in records && r != q
    ensures r.CanonicalLabel() != q.CanonicalLabel() && r.classPath != q.classPath
  {
    assert !Collide(r, q);
  }

  /** A class path resolves to the one model that has it, before any export. */
  lemma ClassPathResolves(records: set<Record>, g: Graph, path: string, canonicalLabel: string)
    requires Sends(records, ClassPathKeys, g.classPath)
    requires path in g.classPath
    ensures CanonicalLabelForClass(g, path) == Some(canonicalLabel) <==>
            exists r :: r in records && r.classPath == path && r.CanonicalLabel() == canonicalLabel
  {
    var r :| r in records && path in ClassPathKeys(r);
    assert r.classPath == path;
    forall q | q in records && q.classPath == path ensures g.classPath[path] == q.CanonicalLabel() {
      assert path in ClassPathKeys(q);
    }
  }

  /** The index a label leads to: that of the one model with this label. */
  lemma LabelLeadsToItsModel(s: Snapshot, g: Graph, key: string, name: string)
    requires Accepts(s) && Describes(Records(s, s.apps.Keys), g)
    requires key in s.apps && name in s.apps[key].models
    ensures
      var m := s.apps[key].models[name];
      && m.canonicalLabel == key + "." + name && m.canonicalLabel in g.canonical
      && IsIndex(g.canonical[m.canonicalLabel], m)
  {
    var r := RecordOf(s.apps[key], key, name);
    assert r in Records(s, s.apps.Keys);
    assert Sound(r);
  }

  /** In an accepted graph, every relation with a known target points at a model of the graph. */
  lemma RelationsPointIntoGraph(s: Snapshot, g: Graph, canonicalLabel: string, key: string)
    requires Accepts(s) && Describes(Records(s, s.apps.Keys), g)
    requires canonicalLabel in g.canonical && key in g.canonical[canonicalLabel].model.fields
    ensures
      var f := g.canonical[canonicalLabel].model.fields[key];
      && (f.relatedModel.Some? ==> f.relatedModel.value in g.canonical)
      && (f.sourceModelAbstract || f.sourceModel in g.canonical)
  {
    ModelsMatch(Records(s, s.apps.Keys), g);
  }
}
