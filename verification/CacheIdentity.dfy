/** The byte streams whose digests identify a cached schema and its sources. */
module CacheIdentity {
  import opened Prelude
  import opened Positions
  import opened EnvironmentFile
  import opened Ordering

  const FRAME_LIMIT := 32 * 1024 * 1024
  const MAX_SOURCE_BYTES := FRAME_LIMIT
  const READ_SIZE := 64 * 1024
  const TWO_64 := 0x1_0000_0000_0000_0000

  /** A digest is any function of the stream. */
  type Digest = Bytes -> Bytes

  // ---------------------------------------------------------------------------------------------
  // Fields
  // ---------------------------------------------------------------------------------------------

  datatype Field = Field(name: Bytes, value: Bytes)

  /** Lengths fit the eight bytes they are written in. */
  predicate Encodable(f: Field) {
    |f.name| < TWO_64 && |f.value| < TWO_64
  }

  predicate AllEncodable(fields: seq<Field>) {
    forall i :: 0 <= i < |fields| ==> Encodable(fields[i])
  }

  function BigEndian(n: nat, width: nat): (r: Bytes)
    ensures |r| == width
  {
    if width == 0 then [] else BigEndian(n / 256, width - 1) + [(n % 256) as byte]
  }

  function FromBigEndian(s: Bytes): nat {
    if s == [] then 0 else FromBigEndian(s[..|s| - 1]) * 256 + s[|s| - 1] as nat
  }

  function Power(width: nat): nat {
    if width == 0 then 1 else 256 * Power(width - 1)
  }

  lemma {:induction false} BigEndianRoundTrip(n: nat, width: nat)
    requires n < Power(width)
    ensures FromBigEndian(BigEndian(n, width)) == n
  {
    if width > 0 {
      BigEndianRoundTrip(n / 256, width - 1);
    }
  }

  function Length(n: nat): Bytes {
    BigEndian(n, 8)
  }

  lemma LengthRoundTrip(n: nat)
    requires n < TWO_64
    ensures FromBigEndian(Length(n)) == n
  {
    assert Power(2) == 0x1_0000;
    assert Power(4) == 0x1_0000_0000;
    assert Power(6) == 0x1_0000_0000_0000;
    assert Power(8) == TWO_64;
    BigEndianRoundTrip(n, 8);
  }

  /** The most significant byte comes first. */
  lemma {:induction false} ByteOfLength(n: nat, width: nat, i: nat)
    requires i < width
    ensures Power(width - 1 - i) > 0
    ensures BigEndian(n, width)[i] as nat == n / Power(width - 1 - i) % 256
  {
    PowerIsPositive(width - 1 - i);
    if i < width - 1 {
      ByteOfLength(n / 256, width - 1, i);
      DivideTwice(n, Power(width - 2 - i));
    }
  }

  lemma {:induction false} PowerIsPositive(width: nat)
    ensures Power(width) > 0
  {
    if width > 0 {
      PowerIsPositive(width - 1);
    }
  }

  lemma DivideTwice(n: nat, d: nat)
    requires d > 0
    ensures n / 256 / d == n / (256 * d)
  {
    var q, r := n / 256 / d, n / 256 % d;
    assert n / 256 == q * d + r;
    assert n == 256 * (q * d + r) + n % 256;
    assert n == q * (256 * d) + (256 * r + n % 256) by {
      assert 256 * (q * d) == q * (256 * d);
    }
    QuotientIs(n, 256 * d, q, 256 * r + n % 256);
  }

  lemma QuotientIs(n: nat, d: nat, q: nat, r: nat)
    requires n == q * d + r && r < d
    ensures n / d == q
  {
    var x := n / d - q;
    assert x * d == r - n % d by {
      Distribute(n / d, q, d);
    }
    if x >= 1 {
      AtLeast(x, d);
    } else if x <= -1 {
      AtLeast(-x, d);
    }
  }

  lemma Distribute(a: int, b: int, d: int)
    ensures (a - b) * d == a * d - b * d
  {
  }

  lemma AtLeast(x: int, d: nat)
    requires x >= 1
    ensures x * d >= d
  {
    Distribute(x, 1, d);
    assert (x - 1) * d >= 0;
  }

  /** Text preceded by its length. */
  function Prefixed(text: Bytes): Bytes {
    Length(|text|) + text
  }

  function EncodeField(f: Field): Bytes {
    Prefixed(f.name) + Prefixed(f.value)
  }

  function Concat(parts: seq<Bytes>): Bytes {
    if parts == [] then [] else Concat(parts[..|parts| - 1]) + parts[|parts| - 1]
  }

  lemma ConcatEnd(parts: seq<Bytes>, last: Bytes)
    ensures Concat(parts + [last]) == Concat(parts) + last
  {
    assert (parts + [last])[..|parts|] == parts;
  }

  lemma {:induction false} ConcatBoth(a: seq<Bytes>, b: seq<Bytes>)
    ensures Concat(a + b) == Concat(a) + Concat(b)
  {
    if b == [] {
      assert a + b == a;
    } else {
      var init, last := b[..|b| - 1], b[|b| - 1];
      ConcatBoth(a, init);
      assert a + b == a + init + [last];
      ConcatEnd(a + init, last);
      Associate(Concat(a), Concat(init), last);
    }
  }

  lemma ConcatFront(parts: seq<Bytes>)
    requires parts != []
    ensures Concat(parts) == parts[0] + Concat(parts[1..])
  {
    assert parts == [parts[0]] + parts[1..];
    ConcatBoth([parts[0]], parts[1..]);
    ConcatEnd([], parts[0]);
    assert [] + [parts[0]] == [parts[0]];
  }

  function Encodings(fields: seq<Field>): seq<Bytes> {
    seq(|fields|, i requires 0 <= i < |fields| => EncodeField(fields[i]))
  }

  function EncodeFields(fields: seq<Field>): Bytes {
    Concat(Encodings(fields))
  }

  /** Streams that begin with prefixed texts begin with the same text if they are equal. */
  lemma PrefixedSplits(a: Bytes, b: Bytes, r: Bytes, t: Bytes)
    requires |a| < TWO_64 && |b| < TWO_64 && Prefixed(a) + r == Prefixed(b) + t
    ensures a == b && r == t
  {
    var s := Prefixed(a) + r;
    assert s[..8] == Length(|a|) && s[..8] == Length(|b|);
    LengthRoundTrip(|a|);
    LengthRoundTrip(|b|);
    var n := 8 + |a|;
    assert s[8..n] == a && s[8..n] == b;
    assert s[n..] == r && s[n..] == t;
  }

  lemma FieldSplits(a: Field, b: Field, r: Bytes, t: Bytes)
    requires Encodable(a) && Encodable(b) && EncodeField(a) + r == EncodeField(b) + t
    ensures a == b && r == t
  {
    Associate(Prefixed(a.name), Prefixed(a.value), r);
    Associate(Prefixed(b.name), Prefixed(b.value), t);
    PrefixedSplits(a.name, b.name, Prefixed(a.value) + r, Prefixed(b.value) + t);
    PrefixedSplits(a.value, b.value, r, t);
  }

  lemma EncodeFieldsFront(fields: seq<Field>)
    requires fields != []
    ensures EncodeFields(fields) == EncodeField(fields[0]) + EncodeFields(fields[1..])
    ensures EncodeFields(fields) != []
  {
    ConcatFront(Encodings(fields));
    assert Encodings(fields)[1..] == Encodings(fields[1..]);
    FieldIsNotEmpty(fields[0]);
  }

  lemma FieldIsNotEmpty(f: Field)
    ensures EncodeField(f) != []
  {
  }

  lemma OnlyNoneEncodesToNothing(fields: seq<Field>)
    ensures EncodeFields(fields) == [] <==> fields == []
  {
    if fields != [] {
      EncodeFieldsFront(fields);
    }
  }

  lemma FirstsAgree(a: seq<Field>, b: seq<Field>)
    requires a != [] && b != [] && Encodable(a[0]) && Encodable(b[0]) && EncodeFields(a) == EncodeFields(b)
    ensures a[0] == b[0] && EncodeFields(a[1..]) == EncodeFields(b[1..])
  {
    EncodeFieldsFront(a);
    EncodeFieldsFront(b);
    FieldSplits(a[0], b[0], EncodeFields(a[1..]), EncodeFields(b[1..]));
  }

  /** The encoding of a sequence of fields determines it. */
  lemma {:induction false} FieldsInjective(a: seq<Field>, b: seq<Field>)
    requires AllEncodable(a) && AllEncodable(b)
    requires EncodeFields(a) == EncodeFields(b)
    ensures a == b
    decreases |a|
  {
    OnlyNoneEncodesToNothing(a);
    OnlyNoneEncodesToNothing(b);
    if a != [] {
      FirstsAgree(a, b);
      FieldsInjective(a[1..], b[1..]);
      assert a == [a[0]] + a[1..] && b == [b[0]] + b[1..];
    }
  }

  // ---------------------------------------------------------------------------------------------
  // Decimal numbers
  // ---------------------------------------------------------------------------------------------

  function Digits(n: nat): (r: Bytes)
    ensures r != [] && forall i :: 0 <= i < |r| ==> 48 <= r[i] <= 57
  {
    (if n < 10 then [] else Digits(n / 10)) + [(48 + n % 10) as byte]
  }

  function FromDigits(s: Bytes): nat
    requires forall i :: 0 <= i < |s| ==> 48 <= s[i] <= 57
  {
    if s == [] then 0 else FromDigits(s[..|s| - 1]) * 10 + (s[|s| - 1] - 48) as nat
  }

  lemma {:induction false} DigitsRoundTrip(n: nat)
    ensures FromDigits(Digits(n)) == n
  {
    if n >= 10 {
      DigitsRoundTrip(n / 10);
      assert Digits(n)[..|Digits(n)| - 1] == Digits(n / 10);
    } else {
      assert Digits(n)[..0] == [];
    }
  }

  function Decimal(n: int): Bytes {
    if n < 0 then [45] + Digits(-n) else Digits(n)
  }

  lemma DecimalInjective(a: int, b: int)
    requires Decimal(a) == Decimal(b)
    ensures a == b
  {
    DigitsRoundTrip(if a < 0 then -a else a);
    DigitsRoundTrip(if b < 0 then -b else b);
    assert (a < 0) == (Decimal(a)[0] == 45) == (b < 0);
    if a < 0 {
      assert Decimal(a)[1..] == Digits(-a) && Decimal(b)[1..] == Digits(-b);
    }
  }

  // ---------------------------------------------------------------------------------------------
  // The identity of a configuration
  // ---------------------------------------------------------------------------------------------

  /** What a cache entry depends on. Paths are canonical; `settingsSelection` says how the settings are chosen. */
  datatype Configuration = Configuration(
    projectRoot: Bytes,
    pythonPath: Bytes,
    pythonSize: int,
    pythonMode: nat,
    pythonModTime: int,
    settingsModule: Bytes,
    settingsSelection: Bytes,
    workerEnvironment: seq<Entry>,
    platformEnvironment: seq<Entry>,
    coordinatorPath: Bytes,
    workerDigest: Bytes)

  /** The versions of the formats that a cache entry is written in. */
  datatype Versions = Versions(
    cacheFormat: nat, extractionFormat: nat, protocol: nat, schema: nat, positionEncoding: Bytes, frameLimit: nat)

  function Current(): Versions {
    Versions(1, 1, 1, 3, Ascii("utf-8-bytes"), FRAME_LIMIT)
  }

  function Named(name: string, value: Bytes): Field {
    Field(Ascii(name), value)
  }

  function SettingsVariable(): Bytes {
    Ascii("DJANGO_SETTINGS_MODULE")
  }

  /** The value of the first variable with this name. */
  function EnvironmentValue(normalize: Normalizer, entries: seq<Entry>, name: Bytes): Option<Bytes> {
    if entries == [] then None
    else if normalize(entries[0].name) == normalize(name) then Some(entries[0].value)
    else EnvironmentValue(normalize, entries[1..], name)
  }

  function EffectiveSettings(normalize: Normalizer, c: Configuration): Bytes {
    var chosen := EnvironmentValue(normalize, c.workerEnvironment, SettingsVariable());
    if chosen.Some? then chosen.value else c.settingsModule
  }

  function FixedFields(normalize: Normalizer, v: Versions, c: Configuration): seq<Field> {
    [ Named("format", Decimal(v.cacheFormat)), Named("extraction-format", Decimal(v.extractionFormat)),
      Named("protocol", Decimal(v.protocol)), Named("schema", Decimal(v.schema)),
      Named("position", v.positionEncoding), Named("frame-limit", Decimal(v.frameLimit)),
      Named("project", c.projectRoot), Named("python", c.pythonPath),
      Named("file-size", Decimal(c.pythonSize)), Named("file-mode", Decimal(c.pythonMode)),
      Named("file-modtime", Decimal(c.pythonModTime)),
      Named("settings", c.settingsModule), Named("effective-settings", EffectiveSettings(normalize, c)),
      Named("settings-selection", c.settingsSelection) ]
  }

  /** The settings that take effect are those of the first variable that names them, or the configured ones. */
  lemma {:induction false} FirstVariableDecides(normalize: Normalizer, entries: seq<Entry>, name: Bytes)
    ensures match EnvironmentValue(normalize, entries, name)
            case None => forall i :: 0 <= i < |entries| ==> normalize(entries[i].name) != normalize(name)
            case Some(value) =>
              exists i :: 0 <= i < |entries| && entries[i].value == value
                          && normalize(entries[i].name) == normalize(name)
                          && forall j :: 0 <= j < i ==> normalize(entries[j].name) != normalize(name)
  {
    if entries != [] && normalize(entries[0].name) != normalize(name) {
      FirstVariableDecides(normalize, entries[1..], name);
      assert forall i :: 0 < i < |entries| ==> entries[i] == entries[1..][i - 1];
      var rest := EnvironmentValue(normalize, entries[1..], name);
      if rest.Some? {
        var i :| 0 <= i < |entries| - 1 && entries[1..][i].value == rest.value
                 && normalize(entries[1..][i].name) == normalize(name)
                 && forall j :: 0 <= j < i ==> normalize(entries[1..][j].name) != normalize(name);
        assert forall j :: 0 < j < i + 1 ==> entries[j] == entries[1..][j - 1];
        assert entries[i + 1].value == rest.value;
      }
    }
  }

  /** The settings that take effect: those that the first such variable names, or the configured ones. */
  lemma EffectiveSettingsDecided(normalize: Normalizer, c: Configuration)
    ensures
      var name, entries := normalize(Ascii("DJANGO_SETTINGS_MODULE")), c.workerEnvironment;
      || (EffectiveSettings(normalize, c) == c.settingsModule
          && forall i :: 0 <= i < |entries| ==> normalize(entries[i].name) != name)
      || (exists i :: 0 <= i < |entries| && entries[i].value == EffectiveSettings(normalize, c)
                      && normalize(entries[i].name) == name
                      && forall j :: 0 <= j < i ==> normalize(entries[j].name) != name)
  {
    FirstVariableDecides(normalize, c.workerEnvironment, SettingsVariable());
  }

  /** The stream says this of that, under a name that fits. */
  predicate Says(fields: seq<Field>, name: string, value: Bytes) {
    Field(Ascii(name), value) in fields
  }

  /** Every property of the configuration is told under its own name. */
  lemma PropertiesAreTold(normalize: Normalizer, v: Versions, c: Configuration)
    ensures
      var fields := FixedFields(normalize, v, c);
      && |fields| == 14
      && Says(fields, "project", c.projectRoot) && Says(fields, "python", c.pythonPath)
      && Says(fields, "file-size", Decimal(c.pythonSize)) && Says(fields, "file-mode", Decimal(c.pythonMode))
      && Says(fields, "file-modtime", Decimal(c.pythonModTime))
      && Says(fields, "settings", c.settingsModule) && Says(fields, "settings-selection", c.settingsSelection)
      && Says(fields, "effective-settings", EffectiveSettings(normalize, c))
      && Says(fields, "format", Decimal(v.cacheFormat))
      && Says(fields, "extraction-format", Decimal(v.extractionFormat))
      && Says(fields, "protocol", Decimal(v.protocol)) && Says(fields, "schema", Decimal(v.schema))
      && Says(fields, "position", v.positionEncoding) && Says(fields, "frame-limit", Decimal(v.frameLimit))
  {
    var f := FixedFields(normalize, v, c);
    assert f[0] in f && f[1] in f && f[2] in f && f[3] in f && f[4] in f && f[5] in f && f[6] in f;
    assert f[7] in f && f[8] in f && f[9] in f && f[10] in f && f[11] in f && f[12] in f && f[13] in f;
  }

  /** A name and a value field for each variable. */
  function VariableFields(nameTag: Bytes, valueTag: Bytes, entries: seq<Entry>): seq<Field> {
    if entries == [] then []
    else
      var e := entries[|entries| - 1];
      VariableFields(nameTag, valueTag, entries[..|entries| - 1]) + [Field(nameTag, e.name), Field(valueTag, e.value)]
  }

  function WorkerFields(entries: seq<Entry>): seq<Field> {
    VariableFields(Ascii("environment-name"), Ascii("environment-value"), entries)
  }

  function PlatformFields(entries: seq<Entry>): seq<Field> {
    VariableFields(Ascii("platform-environment-name"), Ascii("platform-environment-value"), entries)
  }

  function LastFields(c: Configuration): seq<Field> {
    [Named("coordinator-path", c.coordinatorPath), Named("worker", c.workerDigest)]
  }

  function Fields(normalize: Normalizer, v: Versions, c: Configuration): seq<Field> {
    FixedFields(normalize, v, c) + (WorkerFields(c.workerEnvironment) + (PlatformFields(c.platformEnvironment)
                                                                         + LastFields(c)))
  }

  lemma {:induction false} VariablesFront(nameTag: Bytes, valueTag: Bytes, entries: seq<Entry>)
    requires entries != []
    ensures VariableFields(nameTag, valueTag, entries) ==
            [Field(nameTag, entries[0].name), Field(valueTag, entries[0].value)]
            + VariableFields(nameTag, valueTag, entries[1..])
  {
    var n := |entries| - 1;
    if n > 0 {
      VariablesFront(nameTag, valueTag, entries[..n]);
      assert entries[..n][1..] == entries[1..][..n - 1];
    } else {
      assert entries[..0] == entries[1..] == [];
    }
  }

  /** A list of variables ends where the next field has another name. */
  lemma {:induction false} VariablesSplit(nameTag: Bytes, valueTag: Bytes, a: seq<Entry>, b: seq<Entry>, r: seq<Field>,
                                          t: seq<Field>)
    requires r != [] && t != [] && r[0].name != nameTag && t[0].name != nameTag
    requires VariableFields(nameTag, valueTag, a) + r == VariableFields(nameTag, valueTag, b) + t
    ensures a == b && r == t
    decreases |a|
  {
    VariablesFirst(nameTag, valueTag, a, r);
    VariablesFirst(nameTag, valueTag, b, t);
    if a == [] {
      assert VariableFields(nameTag, valueTag, a) + r == r;
      assert VariableFields(nameTag, valueTag, b) + t == t;
    } else {
      VariablesRest(nameTag, valueTag, a, r);
      VariablesRest(nameTag, valueTag, b, t);
      VariablesSplit(nameTag, valueTag, a[1..], b[1..], r, t);
      assert a == [a[0]] + a[1..] && b == [b[0]] + b[1..];
    }
  }

  /** The first field tells whether there are variables. */
  lemma VariablesFirst(nameTag: Bytes, valueTag: Bytes, a: seq<Entry>, r: seq<Field>)
    requires r != [] && r[0].name != nameTag
    ensures
      var s := VariableFields(nameTag, valueTag, a) + r;
      s != [] && (s[0].name == nameTag <==> a != [])
  {
    if a == [] {
      assert VariableFields(nameTag, valueTag, a) + r == r;
    } else {
      VariablesFront(nameTag, valueTag, a);
    }
  }

  lemma VariablesRest(nameTag: Bytes, valueTag: Bytes, a: seq<Entry>, r: seq<Field>)
    requires a != []
    ensures
      var s := VariableFields(nameTag, valueTag, a) + r;
      && |s| >= 2 && s[0].value == a[0].name && s[1].value == a[0].value
      && s[2..] == VariableFields(nameTag, valueTag, a[1..]) + r
  {
    VariablesFront(nameTag, valueTag, a);
    FrontSplits([Field(nameTag, a[0].name), Field(valueTag, a[0].value)], VariableFields(nameTag, valueTag, a[1..]), r);
  }

  lemma FrontSplits(front: seq<Field>, rest: seq<Field>, r: seq<Field>)
    ensures (front + rest + r)[|front|..] == rest + r
    ensures forall i :: 0 <= i < |front| ==> (front + rest + r)[i] == front[i]
  {
  }

  lemma SameFixed(normalize: Normalizer, v: Versions, a: Configuration, w: Versions, b: Configuration)
    requires FixedFields(normalize, v, a) == FixedFields(normalize, w, b)
    ensures v == w
    ensures a.projectRoot == b.projectRoot && a.pythonPath == b.pythonPath
    ensures a.pythonSize == b.pythonSize && a.pythonMode == b.pythonMode && a.pythonModTime == b.pythonModTime
    ensures a.settingsModule == b.settingsModule && a.settingsSelection == b.settingsSelection
  {
    var f, g := FixedFields(normalize, v, a), FixedFields(normalize, w, b);
    assert f[0] == g[0] && f[1] == g[1] && f[2] == g[2] && f[3] == g[3] && f[4] == g[4] && f[5] == g[5];
    assert f[6] == g[6] && f[7] == g[7] && f[8] == g[8] && f[9] == g[9] && f[10] == g[10] && f[11] == g[11]
           && f[13] == g[13];
    DecimalInjective(v.cacheFormat, w.cacheFormat);
    DecimalInjective(v.extractionFormat, w.extractionFormat);
    DecimalInjective(v.protocol, w.protocol);
    DecimalInjective(v.schema, w.schema);
    DecimalInjective(v.frameLimit, w.frameLimit);
    DecimalInjective(a.pythonSize, b.pythonSize);
    DecimalInjective(a.pythonMode, b.pythonMode);
    DecimalInjective(a.pythonModTime, b.pythonModTime);
  }

  predicate EndsWorkerFields(f: Field) {
    f.name != Ascii("environment-name")
  }

  predicate EndsPlatformFields(f: Field) {
    f.name != Ascii("platform-environment-name")
  }

  lemma WorkerSplit(a: seq<Entry>, b: seq<Entry>, r: seq<Field>, t: seq<Field>)
    requires r != [] && t != [] && EndsWorkerFields(r[0]) && EndsWorkerFields(t[0])
    requires WorkerFields(a) + r == WorkerFields(b) + t
    ensures a == b && r == t
  {
    VariablesSplit(Ascii("environment-name"), Ascii("environment-value"), a, b, r, t);
  }

  lemma PlatformSplit(a: seq<Entry>, b: seq<Entry>, r: seq<Field>, t: seq<Field>)
    requires r != [] && t != [] && EndsPlatformFields(r[0]) && EndsPlatformFields(t[0])
    requires PlatformFields(a) + r == PlatformFields(b) + t
    ensures a == b && r == t
  {
    VariablesSplit(Ascii("platform-environment-name"), Ascii("platform-environment-value"), a, b, r, t);
  }

  lemma LastFieldsEnd(c: Configuration)
    ensures EndsWorkerFields(LastFields(c)[0]) && EndsPlatformFields(LastFields(c)[0])
  {
    assert Ascii("coordinator-path")[0] == 99 && Ascii("environment-name")[0] == 101
           && Ascii("platform-environment-name")[0] == 112;
  }

  lemma PlatformFieldsEnd(entries: seq<Entry>, rest: seq<Field>)
    requires rest != [] && EndsWorkerFields(rest[0])
    ensures EndsWorkerFields((PlatformFields(entries) + rest)[0])
  {
    if entries != [] {
      VariablesFront(Ascii("platform-environment-name"), Ascii("platform-environment-value"), entries);
      assert Ascii("environment-name")[0] == 101 && Ascii("platform-environment-name")[0] == 112;
    }
  }

  lemma RestDetermines(a: Configuration, b: Configuration)
    requires WorkerFields(a.workerEnvironment) + (PlatformFields(a.platformEnvironment) + LastFields(a)) ==
             WorkerFields(b.workerEnvironment) + (PlatformFields(b.platformEnvironment) + LastFields(b))
    ensures a.workerEnvironment == b.workerEnvironment && a.platformEnvironment == b.platformEnvironment
    ensures LastFields(a) == LastFields(b)
  {
    LastFieldsEnd(a);
    LastFieldsEnd(b);
    PlatformFieldsEnd(a.platformEnvironment, LastFields(a));
    PlatformFieldsEnd(b.platformEnvironment, LastFields(b));
    WorkerSplit(a.workerEnvironment, b.workerEnvironment,
                PlatformFields(a.platformEnvironment) + LastFields(a),
                PlatformFields(b.platformEnvironment) + LastFields(b));
    PlatformSplit(a.platformEnvironment, b.platformEnvironment, LastFields(a), LastFields(b));
  }

  lemma SameLast(a: Configuration, b: Configuration)
    requires LastFields(a) == LastFields(b)
    ensures a.coordinatorPath == b.coordinatorPath && a.workerDigest == b.workerDigest
  {
    assert LastFields(a)[0].value == LastFields(b)[0].value && LastFields(a)[1].value == LastFields(b)[1].value;
  }

  lemma FieldsDetermine(normalize: Normalizer, v: Versions, a: Configuration, w: Versions, b: Configuration)
    requires Fields(normalize, v, a) == Fields(normalize, w, b)
    ensures v == w && a == b
  {
    SplitAlike(FixedFields(normalize, v, a), FixedFields(normalize, w, b),
               WorkerFields(a.workerEnvironment) + (PlatformFields(a.platformEnvironment) + LastFields(a)),
               WorkerFields(b.workerEnvironment) + (PlatformFields(b.platformEnvironment) + LastFields(b)));
    SameFixed(normalize, v, a, w, b);
    RestDetermines(a, b);
    SameLast(a, b);
  }

  /**
   Streams that are the same come from the same configuration, down to every environment variable,
   and from the same versions of all formats: no entry outlives a change of format.
   */
  lemma ConfigurationInjective(normalize: Normalizer, v: Versions, a: Configuration, w: Versions, b: Configuration)
    requires AllEncodable(Fields(normalize, v, a)) && AllEncodable(Fields(normalize, w, b))
    requires EncodeFields(Fields(normalize, v, a)) == EncodeFields(Fields(normalize, w, b))
    ensures v == w && a == b
  {
    FieldsInjective(Fields(normalize, v, a), Fields(normalize, w, b));
    FieldsDetermine(normalize, v, a, w, b);
  }

  /** What a running hash has been given. */
  class HashWriter {
    var written: Bytes

    constructor ()
      ensures written == []
    {
      written := [];
    }

    method Write(text: Bytes)
      modifies this
      ensures written == old(written) + text
    {
      written := written + text;
    }

    method WriteCacheIdentityField(name: Bytes, value: Bytes)
      modifies this
      ensures written == old(written) + EncodeField(Field(name, value))
    {
      Write(Length(|name|));
      Write(name);
      Write(Length(|value|));
      Write(value);
      assert written == old(written) + EncodeField(Field(name, value));
    }
  }

  method WriteFields(hash: HashWriter, fields: seq<Field>)
    modifies hash
    ensures hash.written == old(hash.written) + EncodeFields(fields)
  {
    for i := 0 to |fields|
      invariant hash.written == old(hash.written) + EncodeFields(fields[..i])
    {
      assert fields[..i + 1] == fields[..i] + [fields[i]];
      EncodeFieldsEnd(fields[..i], fields[i]);
      hash.WriteCacheIdentityField(fields[i].name, fields[i].value);
    }
    assert fields[..|fields|] == fields;
  }

  method WriteVariables(hash: HashWriter, nameTag: Bytes, valueTag: Bytes, entries: seq<Entry>)
    modifies hash
    ensures hash.written == old(hash.written) + EncodeFields(VariableFields(nameTag, valueTag, entries))
  {
    for i := 0 to |entries|
      invariant hash.written == old(hash.written) + EncodeFields(VariableFields(nameTag, valueTag, entries[..i]))
    {
      VariableEncoded(nameTag, valueTag, entries, i);
      ghost var before := EncodeFields(VariableFields(nameTag, valueTag, entries[..i]));
      ghost var name, value := EncodeField(Field(nameTag, entries[i].name)),
                               EncodeField(Field(valueTag, entries[i].value));
      hash.WriteCacheIdentityField(nameTag, entries[i].name);
      hash.WriteCacheIdentityField(valueTag, entries[i].value);
      Collect(old(hash.written), before, name, value);
    }
    assert entries[..|entries|] == entries;
  }

  lemma Collect(a: Bytes, b: Bytes, c: Bytes, d: Bytes)
    ensures a + b + c + d == a + (b + c + d)
  {
  }

  lemma VariableEncoded(nameTag: Bytes, valueTag: Bytes, entries: seq<Entry>, i: nat)
    requires i < |entries|
    ensures EncodeFields(VariableFields(nameTag, valueTag, entries[..i + 1])) ==
            EncodeFields(VariableFields(nameTag, valueTag, entries[..i]))
            + EncodeField(Field(nameTag, entries[i].name)) + EncodeField(Field(valueTag, entries[i].value))
  {
    var name, value := Field(nameTag, entries[i].name), Field(valueTag, entries[i].value);
    var before := VariableFields(nameTag, valueTag, entries[..i]);
    assert entries[..i + 1][..i] == entries[..i];
    EncodeTwo(before, name, value);
  }

  lemma EncodeFieldsEnd(fields: seq<Field>, last: Field)
    ensures EncodeFields(fields + [last]) == EncodeFields(fields) + EncodeField(last)
  {
    assert Encodings(fields + [last]) == Encodings(fields) + [EncodeField(last)];
    ConcatEnd(Encodings(fields), EncodeField(last));
  }

  lemma EncodeTwo(before: seq<Field>, f: Field, g: Field)
    ensures EncodeFields(before + [f, g]) == EncodeFields(before) + EncodeField(f) + EncodeField(g)
  {
    assert before + [f, g] == before + [f] + [g];
    EncodeFieldsEnd(before + [f], g);
    EncodeFieldsEnd(before, f);
  }

  lemma EncodeFieldsBoth(a: seq<Field>, b: seq<Field>)
    ensures EncodeFields(a + b) == EncodeFields(a) + EncodeFields(b)
  {
    assert Encodings(a + b) == Encodings(a) + Encodings(b);
    ConcatBoth(Encodings(a), Encodings(b));
  }

  method WriteWorkerEnvironment(hash: HashWriter, entries: seq<Entry>)
    modifies hash
    ensures hash.written == old(hash.written) + EncodeFields(WorkerFields(entries))
  {
    WriteVariables(hash, Ascii("environment-name"), Ascii("environment-value"), entries);
  }

  method WritePlatformEnvironment(hash: HashWriter, entries: seq<Entry>)
    modifies hash
    ensures hash.written == old(hash.written) + EncodeFields(PlatformFields(entries))
  {
    WriteVariables(hash, Ascii("platform-environment-name"), Ascii("platform-environment-value"), entries);
  }

  /** The identity is the digest of the fields, in order. */
  method Open(normalize: Normalizer, digest: Digest, c: Configuration) returns (identity: Bytes)
    ensures identity == digest(EncodeFields(Fields(normalize, Current(), c)))
  {
    var hash := new HashWriter();
    WriteFields(hash, FixedFields(normalize, Current(), c));
    ghost var fixed := hash.written;
    WriteWorkerEnvironment(hash, c.workerEnvironment);
    WritePlatformEnvironment(hash, c.platformEnvironment);
    WriteFields(hash, LastFields(c));
    StreamOf(normalize, Current(), c, fixed);
    identity := digest(hash.written);
  }

  lemma StreamOf(normalize: Normalizer, v: Versions, c: Configuration, fixed: Bytes)
    requires fixed == [] + EncodeFields(FixedFields(normalize, v, c))
    ensures EncodeFields(Fields(normalize, v, c)) ==
            fixed + EncodeFields(WorkerFields(c.workerEnvironment))
            + EncodeFields(PlatformFields(c.platformEnvironment)) + EncodeFields(LastFields(c))
  {
    EncodeFour(fixed, FixedFields(normalize, v, c), WorkerFields(c.workerEnvironment),
               PlatformFields(c.platformEnvironment), LastFields(c));
  }

  lemma Regroup(start: Bytes, a: Bytes, b: Bytes, c: Bytes, d: Bytes)
    requires start == [] + a
    ensures a + (b + (c + d)) == start + b + c + d
  {
    assert start == a;
    assert a + (b + (c + d)) == a + b + c + d;
  }

  lemma EncodeFour(start: Bytes, a: seq<Field>, b: seq<Field>, c: seq<Field>, d: seq<Field>)
    requires start == [] + EncodeFields(a)
    ensures EncodeFields(a + (b + (c + d))) == start + EncodeFields(b) + EncodeFields(c) + EncodeFields(d)
  {
    Regroup(start, EncodeFields(a), EncodeFields(b), EncodeFields(c), EncodeFields(d));
    EncodeFieldsBoth(c, d);
    EncodeFieldsBoth(b, c + d);
    EncodeFieldsBoth(a, b + (c + d));
  }
}
