/** Which snapshots are accepted, and which model a dotted path leads to, told by the snapshot alone. */
module GraphTheorems {
  import opened Prelude
  import opened Ordering
  import opened Schema
  import opened SchemaIndex
  import opened IndexTheorems
  import opened SchemaGraph

  ghost predicate Present(s: Snapshot, key: string, name: string) {
    key in s.apps && name in s.apps[key].models
  }

  function ModelAt(s: Snapshot, key: string, name: string): Model
    requires Present(s, key, name)
  {
    s.apps[key].models[name]
  }

  // ---------------------------------------------------------------------------------------------
  // Acceptance
  // ---------------------------------------------------------------------------------------------

  predicate HeaderIsOurs(s: Snapshot) {
    s.schemaVersion == 3 && s.positionEncoding == "utf-8-bytes" && s.lookupMaxDepth == 2 && s.lookupMaxCount == 512
  }

  predicate AppIsNamed(key: string, app: App) {
    key == app.appLabel != "" && app.importName != "" && app.rootPath != "" && app.rootIsAbsolute
  }

  predicate PathIsBounded(p: LookupPath) {
    && |p.transforms| <= 2 && |p.kinds| == |p.transforms|
    && forall kind :: kind in p.kinds ==> kind in {"transform", "key_transform"}
  }

  /** Only relations have a direction, a cardinality or a related model, and they have a direction. */
  predicate RelationIsTold(f: Field) {
    if f.isRelation then
      && (f.direction == Some("forward") || f.direction == Some("reverse"))
      && (f.cardinality.None?
          || f.cardinality.value in {"many-to-one", "one-to-many", "one-to-one", "many-to-many"})
    else f.direction.None? && f.cardinality.None? && f.relatedModel.None?
  }

  predicate FieldIsSound(key: string, f: Field) {
    && key == f.name != "" && f.sourceModel != "" && f.metadataValid && RelationIsTold(f)
    && |f.lookupPaths| <= 512 && forall p :: p in f.lookupPaths ==> PathIsBounded(p)
  }

  /** The model is named after its app, its fields are sound, and no two of them contest a name. */
  ghost predicate ModelIsSound(key: string, name: string, m: Model) {
    && name != "" && m.canonicalLabel == key + "." + name
    && m.moduleName != "" && m.qualname != "" && m.metadataValid
    && (forall field :: field in m.fields ==> FieldIsSound(field, m.fields[field]))
    && Uncontested(m)
    && forall parent :: parent in m.parents ==> parent.canonicalLabel != ""
  }

  /** Two models that cannot be told apart by label, by class, or by file and class name. */
  predicate Alike(m: Model, n: Model) {
    || m.canonicalLabel == n.canonicalLabel
    || m.moduleName + "." + m.qualname == n.moduleName + "." + n.qualname
    || exists p, q :: p in m.sourcePaths && q in n.sourcePaths && p + "\0" + m.qualname == q + "\0" + n.qualname
  }

  ghost predicate IsLabel(s: Snapshot, canonicalLabel: string) {
    exists key, name :: Present(s, key, name) && ModelAt(s, key, name).canonicalLabel == canonicalLabel
  }

  /** What the model refers to is in the snapshot, except for abstract sources and parents. */
  ghost predicate RefersWithin(s: Snapshot, m: Model) {
    && (forall field :: field in m.fields ==>
                          && (m.fields[field].sourceModelAbstract || IsLabel(s, m.fields[field].sourceModel))
                          && (m.fields[field].relatedModel.None? || IsLabel(s, m.fields[field].relatedModel.value)))
    && forall parent :: parent in m.parents ==> parent.isAbstract || IsLabel(s, parent.canonicalLabel)
  }

  ghost predicate AllSound(s: Snapshot) {
    forall key, name :: Present(s, key, name) ==> ModelIsSound(key, name, ModelAt(s, key, name))
  }

  ghost predicate NoneAlike(s: Snapshot) {
    forall key, name, other, its :: Present(s, key, name) && Present(s, other, its) && (key, name) != (other, its) ==>
                                      !Alike(ModelAt(s, key, name), ModelAt(s, other, its))
  }

  ghost predicate AllReferWithin(s: Snapshot) {
    forall key, name :: Present(s, key, name) ==> RefersWithin(s, ModelAt(s, key, name))
  }

  lemma SoundMeansValid(key: string, name: string, m: Model)
    ensures ModelIsSound(key, name, m) <==> ValidModel(key, name, m) && ModelIndexable(m)
  {
    FieldsAreSound(m);
    if ValidFields(m) {
      IndexableMeansUncontested(m);
    }
    forall parent | parent in m.parents ensures exists i :: 0 <= i < |m.parents| && m.parents[i] == parent {
    }
  }

  lemma FieldsAreSound(m: Model)
    ensures ValidFields(m) <==> forall field :: field in m.fields ==> FieldIsSound(field, m.fields[field])
  {
    forall field | field in m.fields
      ensures ValidField(field, m.fields[field]) == FieldIsSound(field, m.fields[field]) {
      FieldSoundMeansValid(field, m.fields[field]);
    }
  }

  lemma FieldSoundMeansValid(key: string, f: Field)
    ensures ValidField(key, f) == FieldIsSound(key, f)
  {
    forall p | p in f.lookupPaths ensures exists i :: 0 <= i < |f.lookupPaths| && f.lookupPaths[i] == p {
    }
    forall p: LookupPath ensures ValidLookupPath(p) == PathIsBounded(p) {
      BoundedMeansValid(p);
    }
    assert forall i :: 0 <= i < |f.lookupPaths| ==> f.lookupPaths[i] in f.lookupPaths;
  }

  lemma BoundedMeansValid(p: LookupPath)
    ensures ValidLookupPath(p) == PathIsBounded(p)
  {
    assert forall i :: 0 <= i < |p.kinds| ==> p.kinds[i] in p.kinds;
  }

  lemma RecordsArePresent(s: Snapshot, key: string, name: string)
    requires Present(s, key, name)
    ensures RecordOf(s.apps[key], key, name) in Records(s, s.apps.Keys)
  {
  }

  lemma RecordIsOf(s: Snapshot, r: Record)
    requires r in Records(s, s.apps.Keys)
    ensures Present(s, r.appKey, r.modelName) && r == RecordOf(s.apps[r.appKey], r.appKey, r.modelName)
  {
  }

  lemma AlikeMeansCollide(a: App, b: App, key: string, name: string, other: string, its: string)
    requires name in a.models && its in b.models
    ensures Alike(a.models[name], b.models[its]) == Collide(RecordOf(a, key, name), RecordOf(b, other, its))
  {
    var m, n := a.models[name], b.models[its];
    var r, t := RecordOf(a, key, name), RecordOf(b, other, its);
    if SharesSource(r, t) {
      var k :| k in r.sourceKeys && k in t.sourceKeys;
      var i :| 0 <= i < |r.sourceKeys| && r.sourceKeys[i] == k;
      var j :| 0 <= j < |t.sourceKeys| && t.sourceKeys[j] == k;
      assert m.sourcePaths[i] in m.sourcePaths && n.sourcePaths[j] in n.sourcePaths;
    }
    if p, q :| p in m.sourcePaths && q in n.sourcePaths && p + "\0" + m.qualname == q + "\0" + n.qualname {
      var i :| 0 <= i < |m.sourcePaths| && m.sourcePaths[i] == p;
      var j :| 0 <= j < |n.sourcePaths| && n.sourcePaths[j] == q;
      assert r.sourceKeys[i] == t.sourceKeys[j];
      assert r.sourceKeys[i] in r.sourceKeys && r.sourceKeys[i] in t.sourceKeys;
    }
  }

  lemma RegistrableMeansApart(s: Snapshot)
    ensures Registrable(Records(s, s.apps.Keys)) <==> AllSound(s) && NoneAlike(s)
  {
    var records := Records(s, s.apps.Keys);
    forall key, name | Present(s, key, name)
      ensures RecordOf(s.apps[key], key, name) in records
      ensures Sound(RecordOf(s.apps[key], key, name)) == ModelIsSound(key, name, ModelAt(s, key, name))
    {
      RecordsArePresent(s, key, name);
      SoundMeansValid(key, name, ModelAt(s, key, name));
    }
    forall r | r in records
      ensures Present(s, r.appKey, r.modelName) && r == RecordOf(s.apps[r.appKey], r.appKey, r.modelName) {
      RecordIsOf(s, r);
    }
    forall key, name, other, its | Present(s, key, name) && Present(s, other, its)
      ensures Alike(ModelAt(s, key, name), ModelAt(s, other, its))
           == Collide(RecordOf(s.apps[key], key, name), RecordOf(s.apps[other], other, its))
    {
      AlikeMeansCollide(s.apps[key], s.apps[other], key, name, other, its);
    }
    if AllSound(s) && NoneAlike(s) {
      assert Registrable(records);
    }
    if Registrable(records) {
      Apart(s);
    }
  }

  lemma Apart(s: Snapshot)
    requires Registrable(Records(s, s.apps.Keys))
    ensures AllSound(s) && NoneAlike(s)
  {
    var records := Records(s, s.apps.Keys);
    forall key, name | Present(s, key, name) ensures ModelIsSound(key, name, ModelAt(s, key, name)) {
      RecordsArePresent(s, key, name);
      SoundMeansValid(key, name, ModelAt(s, key, name));
      assert Sound(RecordOf(s.apps[key], key, name));
    }
    forall key, name, other, its | Present(s, key, name) && Present(s, other, its) && (key, name) != (other, its)
      ensures !Alike(ModelAt(s, key, name), ModelAt(s, other, its))
    {
      RecordsArePresent(s, key, name);
      RecordsArePresent(s, other, its);
      AlikeMeansCollide(s.apps[key], s.apps[other], key, name, other, its);
      assert !Collide(RecordOf(s.apps[key], key, name), RecordOf(s.apps[other], other, its));
    }
  }

  lemma LabelsArePresent(s: Snapshot, canonicalLabel: string)
    ensures canonicalLabel in LabelsOf(Records(s, s.apps.Keys)) <==> IsLabel(s, canonicalLabel)
  {
    if key, name :| Present(s, key, name) && ModelAt(s, key, name).canonicalLabel == canonicalLabel {
      RecordsArePresent(s, key, name);
      assert RecordOf(s.apps[key], key, name).CanonicalLabel() == canonicalLabel;
    }
    if canonicalLabel in LabelsOf(Records(s, s.apps.Keys)) {
      var r :| r in Records(s, s.apps.Keys) && r.CanonicalLabel() == canonicalLabel;
      RecordIsOf(s, r);
      assert ModelAt(s, r.appKey, r.modelName).canonicalLabel == canonicalLabel;
    }
  }

  lemma ResolvesMeansWithin(s: Snapshot, m: Model)
    ensures ReferencesResolve(m, LabelsOf(Records(s, s.apps.Keys))) <==> RefersWithin(s, m)
  {
    forall l ensures l in LabelsOf(Records(s, s.apps.Keys)) <==> IsLabel(s, l) {
      LabelsArePresent(s, l);
    }
    assert forall parent :: parent in m.parents ==> exists i :: 0 <= i < |m.parents| && m.parents[i] == parent;
  }

  lemma AllResolveMeansWithin(s: Snapshot)
    ensures AllResolve(Records(s, s.apps.Keys)) <==> AllReferWithin(s)
  {
    forall m ensures ReferencesResolve(m, LabelsOf(Records(s, s.apps.Keys))) <==> RefersWithin(s, m) {
      ResolvesMeansWithin(s, m);
    }
    forall key, name | Present(s, key, name) ensures RecordOf(s.apps[key], key, name) in Records(s, s.apps.Keys) {
      RecordsArePresent(s, key, name);
    }
    forall r | r in Records(s, s.apps.Keys)
      ensures Present(s, r.appKey, r.modelName) && r.model == ModelAt(s, r.appKey, r.modelName) {
      RecordIsOf(s, r);
    }
    if AllResolve(Records(s, s.apps.Keys)) {
      forall key, name | Present(s, key, name) ensures RefersWithin(s, ModelAt(s, key, name)) {
        assert RecordOf(s.apps[key], key, name).model == ModelAt(s, key, name);
      }
    }
  }

  /** A graph is built exactly from snapshots of this form. */
  lemma AcceptsExactly(s: Snapshot)
    ensures Accepts(s) <==>
            && HeaderIsOurs(s) && s.sourcesValid
            && (forall key :: key in s.apps ==> AppIsNamed(key, s.apps[key]))
            && AllSound(s) && NoneAlike(s) && AllReferWithin(s)
  {
    RegistrableMeansApart(s);
    AllResolveMeansWithin(s);
  }

  /** Paths and class names hold no NUL, so a shared source key is a shared file and class name. */
  lemma SameSourceKey(p: string, q: string, a: string, b: string)
    requires '\0' !in p && '\0' !in q && p + "\0" + a == q + "\0" + b
    ensures p == q && a == b
  {
    var s := p + "\0" + a;
    assert s[|p|] == '\0' && s[|q|] == '\0';
    assert forall i :: 0 <= i < |p| ==> s[i] in p;
    assert forall i :: 0 <= i < |q| ==> s[i] in q;
    assert s[..|p|] == p && s[..|q|] == q && s[|p| + 1..] == a && s[|q| + 1..] == b;
  }

  // ---------------------------------------------------------------------------------------------
  // Dotted paths
  // ---------------------------------------------------------------------------------------------

  /** The model is a top-level class in the app's `models` module, or in a module inside it. */
  ghost predicate ExportedAs(app: App, m: Model, path: string) {
    && path == app.importName + ".models." + m.qualname && '.' !in m.qualname
    && (m.moduleName == app.importName + ".models" || exists rest :: m.moduleName == app.importName + ".models." + rest)
  }

  lemma ExportIs(app: App, m: Model, path: string)
    ensures ExportPathOf(app, m) == Some(path) <==> ExportedAs(app, m, path)
  {
    var prefix := app.importName + ".models.";
    if prefix <= m.moduleName {
      assert m.moduleName == prefix + m.moduleName[|prefix|..];
    }
    if rest :| m.moduleName == prefix + rest {
      assert prefix <= m.moduleName;
    }
  }

  ghost predicate HasClassPath(s: Snapshot, key: string, name: string, path: string) {
    Present(s, key, name) && ModelAt(s, key, name).moduleName + "." + ModelAt(s, key, name).qualname == path
  }

  ghost predicate Exported(s: Snapshot, key: string, name: string, path: string) {
    Present(s, key, name) && ExportedAs(s.apps[key], ModelAt(s, key, name), path)
  }

  /**
   A dotted path leads to the model whose class it is; and if it is no model's class, to the model
   that is exported under it, provided there is only one.
   */
  lemma PathLeadsExactly(s: Snapshot, g: Graph, path: string, canonicalLabel: string)
    requires Accepts(s) && Describes(Records(s, s.apps.Keys), g)
    ensures CanonicalLabelForClass(g, path) == Some(canonicalLabel) <==>
            exists key, name :: Present(s, key, name) && ModelAt(s, key, name).canonicalLabel == canonicalLabel
                                && (HasClassPath(s, key, name, path)
                                    || (OnlyExported(s, key, name, path) && NoClassPath(s, path)))
  {
    if path in g.classPath {
      ClassLeads(s, g, path, canonicalLabel);
    } else {
      ExportLeads(s, g, path, canonicalLabel);
    }
  }

  ghost predicate NoClassPath(s: Snapshot, path: string) {
    forall key, name :: !HasClassPath(s, key, name, path)
  }

  ghost predicate OnlyExported(s: Snapshot, key: string, name: string, path: string) {
    && Exported(s, key, name, path)
    && forall other, its :: Exported(s, other, its, path) ==> (other, its) == (key, name)
  }

  lemma ClassPathListed(s: Snapshot, g: Graph, path: string)
    requires Sends(Records(s, s.apps.Keys), ClassPathKeys, g.classPath)
    ensures path in g.classPath <==> exists key, name :: HasClassPath(s, key, name, path)
  {
    if path in g.classPath {
      var r :| r in Records(s, s.apps.Keys) && path in ClassPathKeys(r);
      RecordIsOf(s, r);
      assert HasClassPath(s, r.appKey, r.modelName, path);
    }
    if key, name :| HasClassPath(s, key, name, path) {
      RecordsArePresent(s, key, name);
      assert path in ClassPathKeys(RecordOf(s.apps[key], key, name));
    }
  }

  lemma ClassLeads(s: Snapshot, g: Graph, path: string, canonicalLabel: string)
    requires Sends(Records(s, s.apps.Keys), ClassPathKeys, g.classPath) && path in g.classPath
    ensures !NoClassPath(s, path)
    ensures CanonicalLabelForClass(g, path) == Some(canonicalLabel) <==>
            exists key, name :: Present(s, key, name) && ModelAt(s, key, name).canonicalLabel == canonicalLabel
                                && HasClassPath(s, key, name, path)
  {
    var records := Records(s, s.apps.Keys);
    ClassPathListed(s, g, path);
    ClassPathResolves(records, g, path, canonicalLabel);
    if r :| r in records && r.classPath == path && r.CanonicalLabel() == canonicalLabel {
      RecordIsOf(s, r);
      assert HasClassPath(s, r.appKey, r.modelName, path);
    }
    if key, name :| Present(s, key, name) && ModelAt(s, key, name).canonicalLabel == canonicalLabel
                    && HasClassPath(s, key, name, path) {
      RecordsArePresent(s, key, name);
      assert RecordOf(s.apps[key], key, name).classPath == path;
    }
  }

  lemma ExportLeads(s: Snapshot, g: Graph, path: string, canonicalLabel: string)
    requires Registrable(Records(s, s.apps.Keys)) && Exports(Records(s, s.apps.Keys), g.modelExport)
    requires Sends(Records(s, s.apps.Keys), ClassPathKeys, g.classPath) && path !in g.classPath
    ensures NoClassPath(s, path)
    ensures CanonicalLabelForClass(g, path) == Some(canonicalLabel) <==>
            exists key, name :: Present(s, key, name) && ModelAt(s, key, name).canonicalLabel == canonicalLabel
                                && OnlyExported(s, key, name, path)
  {
    var records := Records(s, s.apps.Keys);
    ClassPathListed(s, g, path);
    ExportPathResolves(records, g, path);
    if CanonicalLabelForClass(g, path) == Some(canonicalLabel) {
      var r :| OnlyClaimant(records, path, r);
      OnlyMeansOnly(s, path, r);
      assert ModelAt(s, r.appKey, r.modelName).canonicalLabel == canonicalLabel;
    }
    if key, name :| Present(s, key, name) && ModelAt(s, key, name).canonicalLabel == canonicalLabel
                    && OnlyExported(s, key, name, path) {
      RecordsArePresent(s, key, name);
      OnlyMeansOnly(s, path, RecordOf(s.apps[key], key, name));
    }
  }

  lemma OnlyMeansOnly(s: Snapshot, path: string, r: Record)
    requires r in Records(s, s.apps.Keys)
    ensures Present(s, r.appKey, r.modelName) && r == RecordOf(s.apps[r.appKey], r.appKey, r.modelName)
    ensures OnlyClaimant(Records(s, s.apps.Keys), path, r) <==> OnlyExported(s, r.appKey, r.modelName, path)
  {
    RecordIsOf(s, r);
    forall q | q in Records(s, s.apps.Keys)
      ensures Present(s, q.appKey, q.modelName) && q == RecordOf(s.apps[q.appKey], q.appKey, q.modelName)
      ensures q.exportPath == Some(path) <==> Exported(s, q.appKey, q.modelName, path)
    {
      RecordIsOf(s, q);
      ExportIs(s.apps[q.appKey], q.model, path);
    }
    forall key, name | Present(s, key, name) ensures RecordOf(s.apps[key], key, name) in Records(s, s.apps.Keys) {
      RecordsArePresent(s, key, name);
    }
  }
}
