/** The identity of the source files that a cached schema was extracted from. */
module SourceIdentity {
  import opened Prelude
  import opened Ordering
  import opened Positions
  import opened EnvironmentFile
  import opened CacheIdentity

  datatype Source = Source(canonical: Bytes, content: Bytes)

  /** What is found at a path: `content` is what reading yields, `stable` that nothing changed meanwhile. */
  datatype Look = Unavailable | Regular(canonical: Bytes, size: nat, content: Bytes, stable: bool)

  // ---------------------------------------------------------------------------------------------
  // The stream
  // ---------------------------------------------------------------------------------------------

  function PathField(s: Source): Field {
    Named("source", s.canonical)
  }

  function SizeField(size: nat): Field {
    Named("source-size", Decimal(size))
  }

  /** The content is not prefixed: its length is in the field before it. */
  function EncodeSource(s: Source): Bytes {
    EncodeField(PathField(s)) + EncodeField(SizeField(|s.content|)) + s.content
  }

  function Parts(sources: seq<Source>): seq<Bytes> {
    seq(|sources|, i requires 0 <= i < |sources| => EncodeSource(sources[i]))
  }

  function SourceStream(sources: seq<Source>): Bytes {
    Concat(Parts(sources))
  }

  lemma SourceStreamFront(sources: seq<Source>)
    requires sources != []
    ensures SourceStream(sources) == EncodeSource(sources[0]) + SourceStream(sources[1..])
    ensures SourceStream(sources) != []
  {
    ConcatFront(Parts(sources));
    assert Parts(sources)[1..] == Parts(sources[1..]);
    EncodedIsNotEmpty(sources[0]);
  }

  lemma EncodedIsNotEmpty(s: Source)
    ensures EncodeSource(s) != []
  {
  }

  lemma SourceStreamAppends(sources: seq<Source>, s: Source)
    ensures SourceStream(sources + [s]) == SourceStream(sources) + EncodeSource(s)
  {
    assert Parts(sources + [s]) == Parts(sources) + [EncodeSource(s)];
    ConcatEnd(Parts(sources), EncodeSource(s));
  }

  predicate EncodableSource(s: Source) {
    Encodable(PathField(s)) && Encodable(SizeField(|s.content|))
  }

  predicate AllEncodableSources(sources: seq<Source>) {
    forall i :: 0 <= i < |sources| ==> EncodableSource(sources[i])
  }

  lemma SourceSplits(a: Source, b: Source, r: Bytes, t: Bytes)
    requires EncodableSource(a) && EncodableSource(b) && EncodeSource(a) + r == EncodeSource(b) + t
    ensures a == b && r == t
  {
    Regrouped(PathField(a), SizeField(|a.content|), a.content, r);
    Regrouped(PathField(b), SizeField(|b.content|), b.content, t);
    FieldSplits(PathField(a), PathField(b), EncodeField(SizeField(|a.content|)) + (a.content + r),
                EncodeField(SizeField(|b.content|)) + (b.content + t));
    FieldSplits(SizeField(|a.content|), SizeField(|b.content|), a.content + r, b.content + t);
    DecimalInjective(|a.content|, |b.content|);
    SplitAlike(a.content, b.content, r, t);
  }

  lemma Regrouped(f: Field, g: Field, content: Bytes, rest: Bytes)
    ensures EncodeField(f) + EncodeField(g) + content + rest == EncodeField(f) + (EncodeField(g) + (content + rest))
  {
  }

  lemma HeadsAgree(a: seq<Source>, b: seq<Source>)
    requires a != [] && b != [] && EncodableSource(a[0]) && EncodableSource(b[0])
    requires SourceStream(a) == SourceStream(b)
    ensures a[0] == b[0] && SourceStream(a[1..]) == SourceStream(b[1..])
  {
    SourceStreamFront(a);
    SourceStreamFront(b);
    SourceSplits(a[0], b[0], SourceStream(a[1..]), SourceStream(b[1..]));
  }

  lemma OnlyEmptyIsEmpty(sources: seq<Source>)
    ensures SourceStream(sources) == [] <==> sources == []
  {
    if sources != [] {
      SourceStreamFront(sources);
    }
  }

  /** The stream determines the paths in order, and the size and content of each. */
  lemma {:induction false} SourcesInjective(a: seq<Source>, b: seq<Source>)
    requires AllEncodableSources(a) && AllEncodableSources(b)
    requires SourceStream(a) == SourceStream(b)
    ensures a == b
    decreases |a|
  {
    OnlyEmptyIsEmpty(a);
    OnlyEmptyIsEmpty(b);
    if a != [] {
      HeadsAgree(a, b);
      SourcesInjective(a[1..], b[1..]);
      assert a == [a[0]] + a[1..] && b == [b[0]] + b[1..];
    }
  }

  // ---------------------------------------------------------------------------------------------
  // Reading the sources
  // ---------------------------------------------------------------------------------------------

  function Usable(look: Look): Option<Source> {
    if look.Regular? && look.stable
       && look.size <= |look.content| then Some(Source(look.canonical, look.content[..look.size])) else None
  }

  function Sources(look: Bytes -> Look, paths: seq<Bytes>): Option<seq<Source>> {
    if paths == [] then Some([])
    else
      match Sources(look, paths[..|paths| - 1])
      case None => None
      case Some(sources) =>
        var last := Usable(look(paths[|paths| - 1]));
        if last.None? then None else Some(sources + [last.value])
  }

  function TotalSize(sources: seq<Source>): nat {
    if sources == [] then 0 else TotalSize(sources[..|sources| - 1]) + |sources[|sources| - 1].content|
  }

  function Chars(s: Bytes): string {
    seq(|s|, i requires 0 <= i < |s| => s[i] as char)
  }

  predicate BytesLess(a: Bytes, b: Bytes) {
    Less(Chars(a), Chars(b))
  }

  lemma BytesOrder()
    ensures StrictOrder(BytesLess) && Total(BytesLess)
  {
    StringOrder();
    forall a: Bytes, b: Bytes ensures a == b || BytesLess(a, b) || BytesLess(b, a) {
      LessTotal(Chars(a), Chars(b));
      if Chars(a) == Chars(b) {
        assert |a| == |Chars(a)| == |Chars(b)| == |b|;
        assert forall i :: 0 <= i < |a| ==> Chars(a)[i] == Chars(b)[i] ==> a[i] == b[i];
      }
    }
  }

  /** Some when every source can be read and together they are within the bound. */
  function SourceIdentityOf(look: Bytes -> Look, digest: Digest, paths: seq<Bytes>): Option<Bytes> {
    match Sources(look, Sort(BytesLess, paths))
    case None => None
    case Some(sources) => if TotalSize(sources) <= MAX_SOURCE_BYTES then Some(digest(SourceStream(sources))) else None
  }

  /** The file is regular, was read to its size, and did not change meanwhile. */
  predicate WasRead(look: Look) {
    look.Regular? && look.stable && look.size <= |look.content|
  }

  function SizeSum(look: Bytes -> Look, paths: seq<Bytes>): nat {
    if paths == [] then 0
    else
      var last := look(paths[|paths| - 1]);
      SizeSum(look, paths[..|paths| - 1]) + if last.Regular? then last.size else 0
  }

  /** The sources are what was read at each path, in order. */
  lemma {:induction false} SourcesAreRead(look: Bytes -> Look, paths: seq<Bytes>)
    ensures Sources(look, paths).Some? <==> forall i :: 0 <= i < |paths| ==> WasRead(look(paths[i]))
    ensures match Sources(look, paths)
            case None => true
            case Some(sources) =>
              && |sources| == |paths| && TotalSize(sources) == SizeSum(look, paths)
              && forall i :: 0 <= i < |paths| ==>
                               && look(paths[i]).Regular? && look(paths[i]).size <= |look(paths[i]).content|
                               && sources[i].canonical == look(paths[i]).canonical
                               && sources[i].content == look(paths[i]).content[..look(paths[i]).size]
  {
    if paths != [] {
      var init, last := paths[..|paths| - 1], paths[|paths| - 1];
      SourcesAreRead(look, init);
      assert paths == init + [last];
      if Sources(look, init).Some? && WasRead(look(last)) {
        TotalStep(Sources(look, init).value, Usable(look(last)).value);
      }
    }
  }

  /** There is an identity exactly if every source could be read and together they are at most 32 MiB. */
  lemma IdentityExists(look: Bytes -> Look, digest: Digest, paths: seq<Bytes>)
    ensures SourceIdentityOf(look, digest, paths).Some? <==>
            (forall path :: path in paths ==> WasRead(look(path))) && SizeSum(look, Sort(BytesLess, paths)) <= 33554432
  {
    var sorted := Sort(BytesLess, paths);
    SourcesAreRead(look, sorted);
    SameElements(sorted, paths);
    forall path | path in paths ensures exists i :: 0 <= i < |sorted| && sorted[i] == path {
      assert path in sorted;
    }
    assert forall i :: 0 <= i < |sorted| ==> sorted[i] in paths;
  }

  /** The order in which the sources are listed does not matter. */
  lemma IdentityForgetsOrder(look: Bytes -> Look, digest: Digest, a: seq<Bytes>, b: seq<Bytes>)
    requires multiset(a) == multiset(b)
    ensures SourceIdentityOf(look, digest, a) == SourceIdentityOf(look, digest, b)
  {
    BytesOrder();
    SortForgetsOrder(BytesLess, a, b);
  }

  /** Hash so many bytes of a file, in reads of any size; fails when the file ends early. */
  method HashFile(hash: HashWriter, content: Bytes, size: nat) returns (ok: bool)
    modifies hash
    ensures ok <==> size <= |content|
    ensures ok ==> hash.written == old(hash.written) + content[..size]
  {
    var done, remaining := 0, size;
    while remaining > 0
      invariant done + remaining == size && done <= |content| && 0 <= remaining
      invariant hash.written == old(hash.written) + content[..done]
      decreases remaining
    {
      var limit := if remaining < READ_SIZE then remaining else READ_SIZE;
      if done == |content| {
        return false;
      }
      var count: nat :| 1 <= count <= limit && done + count <= |content|;
      hash.Write(content[done..done + count]);
      assert content[..done] + content[done..done + count] == content[..done + count];
      done, remaining := done + count, remaining - count;
    }
    return true;
  }

  lemma {:induction false} UnusableLasts(look: Bytes -> Look, paths: seq<Bytes>, i: nat)
    requires i <= |paths| && Sources(look, paths[..i]).None?
    ensures Sources(look, paths).None?
  {
    if i < |paths| {
      assert paths[..|paths| - 1][..i] == paths[..i];
      UnusableLasts(look, paths[..|paths| - 1], i);
    } else {
      assert paths[..i] == paths;
    }
  }

  lemma {:induction false} TotalGrows(look: Bytes -> Look, paths: seq<Bytes>, i: nat)
    requires i <= |paths| && Sources(look, paths).Some?
    ensures Sources(look, paths[..i]).Some?
            && TotalSize(Sources(look, paths[..i]).value) <= TotalSize(Sources(look, paths).value)
  {
    if i < |paths| {
      assert paths[..|paths| - 1][..i] == paths[..i];
      TotalGrows(look, paths[..|paths| - 1], i);
    } else {
      assert paths[..i] == paths;
    }
  }

  /** Write the path, the size and the content of one source. */
  method HashSource(hash: HashWriter, look: Look) returns (ok: bool)
    requires look.Regular?
    modifies hash
    ensures ok <==> Usable(look).Some?
    ensures ok ==> hash.written == old(hash.written) + EncodeSource(Usable(look).value)
  {
    hash.WriteCacheIdentityField(Ascii("source"), look.canonical);
    hash.WriteCacheIdentityField(Ascii("source-size"), Decimal(look.size));
    var read := HashFile(hash, look.content, look.size);
    return read && look.stable;
  }

  /** The stream of these sources has been written, and so much of the bound is left. */
  predicate Hashed(look: Bytes -> Look, paths: seq<Bytes>, written: Bytes, remaining: int) {
    && Sources(look, paths).Some? && written == SourceStream(Sources(look, paths).value)
    && 0 <= remaining == MAX_SOURCE_BYTES - TotalSize(Sources(look, paths).value)
  }

  lemma SourcesStep(look: Bytes -> Look, paths: seq<Bytes>, i: nat)
    requires i < |paths| && Sources(look, paths[..i]).Some?
    ensures Sources(look, paths[..i + 1]) ==
            if Usable(look(paths[i])).None? then None
            else Some(Sources(look, paths[..i]).value + [Usable(look(paths[i])).value])
  {
    assert paths[..i + 1][..i] == paths[..i];
  }

  lemma TotalStep(sources: seq<Source>, s: Source)
    ensures TotalSize(sources + [s]) == TotalSize(sources) + |s.content|
  {
  }

  /** A source that can be read is hashed if it fits. */
  lemma HashedStep(look: Bytes -> Look, paths: seq<Bytes>, i: nat, written: Bytes, remaining: int)
    requires i < |paths| && Hashed(look, paths[..i], written, remaining)
    requires Usable(look(paths[i])).Some? && look(paths[i]).size <= remaining
    ensures Hashed(look, paths[..i + 1], written + EncodeSource(Usable(look(paths[i])).value),
                   remaining - look(paths[i]).size)
  {
    var sources, s := Sources(look, paths[..i]).value, Usable(look(paths[i])).value;
    SourcesStep(look, paths, i);
    SourceStreamAppends(sources, s);
    TotalStep(sources, s);
  }

  /** Otherwise there is no identity. */
  lemma HashedStops(look: Bytes -> Look, paths: seq<Bytes>, i: nat, remaining: int)
    requires i < |paths| && Sources(look, paths[..i]).Some?
             && remaining == MAX_SOURCE_BYTES - TotalSize(Sources(look, paths[..i]).value)
    requires Usable(look(paths[i])).None? || look(paths[i]).size > remaining
    ensures Sources(look, paths).None? || TotalSize(Sources(look, paths).value) > MAX_SOURCE_BYTES
  {
    SourcesStep(look, paths, i);
    if Usable(look(paths[i])).None? {
      UnusableLasts(look, paths, i + 1);
    } else {
      TotalStep(Sources(look, paths[..i]).value, Usable(look(paths[i])).value);
      if Sources(look, paths).Some? {
        TotalGrows(look, paths, i + 1);
      }
    }
  }

  method SchemaSourceIdentity(look: Bytes -> Look, digest: Digest, paths: seq<Bytes>) returns (r: Option<Bytes>)
    ensures r == SourceIdentityOf(look, digest, paths)
  {
    var sorted := Sort(BytesLess, paths);
    var hash := new HashWriter();
    var remaining := MAX_SOURCE_BYTES;
    for i := 0 to |sorted|
      invariant Hashed(look, sorted[..i], hash.written, remaining)
    {
      var found := look(sorted[i]);
      if found.Unavailable? || found.size > remaining {
        HashedStops(look, sorted, i, remaining);
        return None;
      }
      ghost var written := hash.written;
      var ok := HashSource(hash, found);
      if !ok {
        HashedStops(look, sorted, i, remaining);
        return None;
      }
      HashedStep(look, sorted, i, written, remaining);
      remaining := remaining - found.size;
    }
    assert sorted[..|sorted|] == sorted;
    return Some(digest(hash.written));
  }
}
