/** The open documents and their edits. */
module Documents {
  import opened Prelude
  import opened Positions

  const MAX_DOCUMENT_SIZE := 4 * 1024 * 1024

  datatype Range = Range(start: Position, end: Position)

  /** Without a range, the text replaces the whole document. */
  datatype Change = Change(range: Option<Range>, text: Bytes)

  datatype Error =
    | MissingUri | NoChanges | NotOpen | StaleVersion | InvalidPosition | InvalidText | InvalidSource | ParseFailed
    | ChangedConcurrently

  predicate ValidSource(s: Bytes) {
    |s| <= MAX_DOCUMENT_SIZE && WellFormed(s)
  }

  // ---------------------------------------------------------------------------------------------
  // Edits
  // ---------------------------------------------------------------------------------------------

  /** The offset a position denotes, if any; there is never a second one. */
  ghost function Resolve(s: Bytes, p: Position): Option<nat> {
    if o: nat :| Denotes(s, p, o) then Some(o) else None
  }

  lemma ResolveIs(s: Bytes, p: Position, found: Option<nat>)
    requires forall o :: Denotes(s, p, o) <==> found == Some(o)
    ensures Resolve(s, p) == found
  {
    assert found.Some? ==> Denotes(s, p, found.value);
  }

  function Splice(s: Bytes, start: nat, end: nat, text: Bytes): Bytes
    requires start <= end <= |s|
  {
    s[..start] + text + s[end..]
  }

  ghost function Edited(s: Bytes, change: Change): Result<Bytes, Error> {
    match change.range
    case None => Ok(change.text)
    case Some(range) =>
      var start, end := Resolve(s, range.start), Resolve(s, range.end);
      if start.None? || end.None? || end.value < start.value then Err(InvalidPosition)
      else if !WellFormed(change.text) then Err(InvalidText)
      else
        var updated := Splice(s, start.value, end.value, change.text);
        if ValidSource(updated) then Ok(updated) else Err(InvalidSource)
  }

  /** The bytes from `start` to `end` became the text, and all others are as before. */
  predicate Replaces(before: Bytes, after: Bytes, start: nat, end: nat, text: Bytes) {
    && start <= end <= |before| && |after| == |before| - (end - start) + |text|
    && (forall i :: 0 <= i < start ==> after[i] == before[i])
    && (forall i :: 0 <= i < |text| ==> after[start + i] == text[i])
    && (forall i :: end <= i < |before| ==> after[i - end + start + |text|] == before[i])
  }

  /** The two positions denote these offsets, in this order. */
  predicate Spans(s: Bytes, range: Range, start: nat, end: nat) {
    Denotes(s, range.start, start) && Denotes(s, range.end, end) && start <= end
  }

  lemma SpansOnce(s: Bytes, range: Range, start: nat, end: nat)
    requires Spans(s, range, start, end)
    ensures Resolve(s, range.start) == Some(start) && Resolve(s, range.end) == Some(end)
  {
    DenotesOnce(s, range.start, start);
    DenotesOnce(s, range.end, end);
  }

  lemma DenotesOnce(s: Bytes, p: Position, o: nat)
    requires Denotes(s, p, o)
    ensures Resolve(s, p) == Some(o)
  {
    forall k: nat | Denotes(s, p, k) ensures k == o {
      if k < o {
        PlacesDiffer(s, k, o);
      } else if o < k {
        PlacesDiffer(s, o, k);
      }
    }
  }

  /** Replacing between two offsets that positions denote leaves well-formed text well-formed. */
  lemma SpliceIsWellFormed(s: Bytes, range: Range, start: nat, end: nat, text: Bytes)
    requires WellFormed(s) && WellFormed(text) && Spans(s, range, start, end)
    ensures WellFormed(Splice(s, start, end, text))
  {
    WellFormedRoundTrip(s, range.start, start);
    WellFormedRoundTrip(s, range.end, end);
    SplitsAtRuneStart(s, start);
    SplitsAtRuneStart(s, end);
    UnitsOfBoth(s[..start], text);
    UnitsOfBoth(s[..start] + text, s[end..]);
  }

  lemma SpliceReplaces(s: Bytes, start: nat, end: nat, text: Bytes)
    requires start <= end <= |s|
    ensures Replaces(s, Splice(s, start, end, text), start, end, text)
  {
  }

  lemma ReplacedParts(before: Bytes, after: Bytes, start: nat, end: nat, text: Bytes)
    requires Replaces(before, after, start, end, text)
    ensures after[..start] == before[..start] && after[start..start + |text|] == text
    ensures after[start + |text|..] == before[end..]
  {
    var rest := after[start + |text|..];
    assert |rest| == |before[end..]|;
    forall i | 0 <= i < |rest| ensures rest[i] == before[end..][i] {
      assert after[end + i - end + start + |text|] == before[end + i];
    }
  }

  /**
   A change whose range spans two offsets puts its text, if it is well-formed, in the place of the
   bytes between them, and is refused only if the document would exceed 4 MiB.
   */
  lemma ChangeTakesEffect(s: Bytes, change: Change, start: nat, end: nat)
    requires WellFormed(s) && change.range.Some? && Spans(s, change.range.value, start, end)
    ensures
      var edited := Edited(s, change);
      if !WellFormed(change.text) then edited == Err(InvalidText)
      else if |s| - (end - start) + |change.text| > 4194304 then edited == Err(InvalidSource)
      else edited.Ok? && Replaces(s, edited.value, start, end, change.text)
  {
    SpansOnce(s, change.range.value, start, end);
    SpliceReplaces(s, start, end, change.text);
    if WellFormed(change.text) {
      SpliceIsWellFormed(s, change.range.value, start, end, change.text);
    }
  }

  /** And one whose range spans none is refused. */
  lemma ChangeHasNoPlace(s: Bytes, change: Change)
    requires change.range.Some? && forall start: nat, end: nat :: !Spans(s, change.range.value, start, end)
    ensures Edited(s, change) == Err(InvalidPosition)
  {
    var start, end := Resolve(s, change.range.value.start), Resolve(s, change.range.value.end);
    assert start.Some? && end.Some? && start.value <= end.value ==>
        Spans(s, change.range.value, start.value, end.value);
  }

  /** This change makes the one text of the other. */
  ghost predicate Makes(before: Bytes, change: Change, after: Bytes) {
    match change.range
    case None => after == change.text
    case Some(range) =>
      exists start: nat, end: nat :: Spans(before, range, start, end)
                                     && Replaces(before, after, start, end, change.text)
  }

  /** These changes, one after the other, make the one text of the other. */
  ghost predicate MakeAll(before: Bytes, changes: seq<Change>, after: Bytes)
    decreases |changes|, 1
  {
    if changes == [] then before == after
    else exists between :: MakeVia(before, changes, between, after)
  }

  ghost predicate MakeVia(before: Bytes, changes: seq<Change>, between: Bytes, after: Bytes)
    requires changes != []
    decreases |changes|, 0
  {
    MakeAll(before, changes[..|changes| - 1], between) && Makes(between, changes[|changes| - 1], after)
  }

  lemma EditedMakes(s: Bytes, change: Change)
    requires Edited(s, change).Ok?
    ensures Makes(s, change, Edited(s, change).value)
  {
    if change.range.Some? {
      var start, end := Resolve(s, change.range.value.start), Resolve(s, change.range.value.end);
      assert Spans(s, change.range.value, start.value, end.value);
      SpliceReplaces(s, start.value, end.value, change.text);
    }
  }

  lemma {:induction false} AllEditedMakes(s: Bytes, changes: seq<Change>)
    requires AllEdited(s, changes).Ok?
    ensures MakeAll(s, changes, AllEdited(s, changes).value)
  {
    if changes != [] {
      var before := changes[..|changes| - 1];
      AllEditedMakes(s, before);
      EditedMakes(AllEdited(s, before).value, changes[|changes| - 1]);
      assert MakeVia(s, changes, AllEdited(s, before).value, AllEdited(s, changes).value);
    }
  }

  /** Typing: text inserted at a position is found there, and what was there comes after it. */
  lemma TypedTextIsThere(s: Bytes, p: Position, o: nat, text: Bytes)
    requires WellFormed(s) && WellFormed(text) && |s| + |text| <= 4194304 && Denotes(s, p, o)
    ensures
      var typed := AllEdited(s, [Change(Some(Range(p, p)), text)]);
      && typed.Ok? && |typed.value| == |s| + |text|
      && typed.value[..o] == s[..o] && typed.value[o..o + |text|] == text && typed.value[o + |text|..] == s[o..]
  {
    var change := Change(Some(Range(p, p)), text);
    assert [change][..0] == [] && AllEdited(s, [change]) == Edited(s, change);
    ChangeTakesEffect(s, change, o, o);
    ReplacedParts(s, Edited(s, change).value, o, o, text);
  }

  /** The changes applied from left to right, or the first error. */
  ghost function AllEdited(s: Bytes, changes: seq<Change>): Result<Bytes, Error> {
    if changes == [] then Ok(s)
    else
      match AllEdited(s, changes[..|changes| - 1])
      case Err(e) => Err(e)
      case Ok(t) => Edited(t, changes[|changes| - 1])
  }

  /** One more change after a result. */
  ghost function Then(r: Result<Bytes, Error>, change: Change): Result<Bytes, Error> {
    match r
    case Err(e) => Err(e)
    case Ok(t) => Edited(t, change)
  }

  lemma OneMore(s: Bytes, changes: seq<Change>, change: Change)
    ensures AllEdited(s, changes + [change]) == Then(AllEdited(s, changes), change)
  {
    assert (changes + [change])[..|changes|] == changes;
  }

  /** A batch is its first part followed by its second. */
  lemma {:induction false} BatchesCompose(s: Bytes, first: seq<Change>, second: seq<Change>)
    ensures AllEdited(s, first + second) ==
            match AllEdited(s, first)
            case Err(e) => Err(e)
            case Ok(t) => AllEdited(t, second)
  {
    if second == [] {
      assert first + second == first;
    } else {
      var init, last := second[..|second| - 1], second[|second| - 1];
      BatchesCompose(s, first, init);
      assert first + second == (first + init) + [last] && second == init + [last];
      OneMore(s, first + init, last);
      if AllEdited(s, first).Ok? {
        OneMore(AllEdited(s, first).value, init, last);
      }
    }
  }

  lemma ErrorLasts(s: Bytes, changes: seq<Change>, i: nat)
    requires i <= |changes| && AllEdited(s, changes[..i]).Err?
    ensures AllEdited(s, changes) == AllEdited(s, changes[..i])
  {
    BatchesCompose(s, changes[..i], changes[i..]);
    assert changes[..i] + changes[i..] == changes;
  }

  lemma EditStep(s: Bytes, changes: seq<Change>, i: nat)
    requires i < |changes| && AllEdited(s, changes[..i]).Ok?
    ensures AllEdited(s, changes[..i + 1]) == Edited(AllEdited(s, changes[..i]).value, changes[i])
  {
    assert changes[..i + 1][..i] == changes[..i];
  }

  /** A change of the whole text makes all changes before it irrelevant, as long as they could be applied. */
  lemma WholeTextForgets(s: Bytes, t: Bytes, before: seq<Change>, text: Bytes, after: seq<Change>)
    requires AllEdited(s, before).Ok?
    ensures AllEdited(s, before + [Change(None, text)] + after) == AllEdited(text, after)
  {
    var whole := [Change(None, text)];
    BatchesCompose(s, before + whole, after);
    BatchesCompose(s, before, whole);
    assert AllEdited(AllEdited(s, before).value, whole) == Ok(text) by {
      assert whole[..0] == [];
    }
  }

  // ---------------------------------------------------------------------------------------------
  // What the parser is told about an edit
  // ---------------------------------------------------------------------------------------------

  datatype Point = Point(row: nat, column: nat)

  datatype InputEdit = InputEdit(
    startByte: nat, oldEndByte: nat, newEndByte: nat, startPoint: Point, oldEndPoint: Point, newEndPoint: Point)

  /** The row, and the bytes since the last line feed. */
  function PointFor(s: Bytes, offset: nat): Point
    requires offset <= |s|
  {
    Point(LinesBefore(s, offset), offset - LineStart(s, offset))
  }

  /** Computed from the replacement alone. */
  function ReplacementEnd(start: Point, text: Bytes): Point {
    var newlines := LinesBefore(text, |text|);
    if newlines == 0 then Point(start.row, start.column + |text|)
    else Point(start.row + newlines, |text| - LineStart(text, |text|))
  }

  lemma {:induction false} ReplacementEndsThere(s: Bytes, start: nat, text: Bytes, n: nat)
    requires start + n <= |s| && n <= |text| && s[start..start + n] == text[..n]
    ensures PointFor(s, start + n) == ReplacementEnd(PointFor(s, start), text[..n])
  {
    if n > 0 {
      var longer := text[..n];
      var shorter := longer[..n - 1];
      assert s[start..start + n][..n - 1] == s[start..start + n - 1];
      assert shorter == text[..n - 1];
      ReplacementEndsThere(s, start, text, n - 1);
      SamePrefix(longer, shorter, n - 1);
      assert s[start + n - 1] == s[start..start + n][n - 1] == longer[n - 1];
    }
  }

  lemma {:induction false} SamePrefix(a: Bytes, b: Bytes, n: nat)
    requires n <= |a| && n <= |b| && a[..n] == b[..n]
    ensures LinesBefore(a, n) == LinesBefore(b, n) && LineStart(a, n) == LineStart(b, n)
  {
    if n > 0 {
      assert a[..n][..n - 1] == a[..n - 1] && b[..n][..n - 1] == b[..n - 1];
      assert a[n - 1] == a[..n][n - 1] == b[..n][n - 1] == b[n - 1];
      SamePrefix(a, b, n - 1);
    }
  }

  /** The edit tells truly how one text became the other. */
  predicate Tells(e: InputEdit, before: Bytes, after: Bytes) {
    && e.startByte <= e.oldEndByte <= |before| && e.startByte <= e.newEndByte <= |after|
    && after == before[..e.startByte] + after[e.startByte..e.newEndByte] + before[e.oldEndByte..]
    && e.startPoint == PointFor(before, e.startByte) == PointFor(after, e.startByte)
    && e.oldEndPoint == PointFor(before, e.oldEndByte)
    && e.newEndPoint == PointFor(after, e.newEndByte)
  }

  /** The edits tell, one after the other, how the first text became the last. */
  ghost predicate Lead(edits: seq<InputEdit>, before: Bytes, after: Bytes)
    decreases |edits|, 1
  {
    if edits == [] then before == after
    else exists between :: LeadVia(edits, before, between, after)
  }

  ghost predicate LeadVia(edits: seq<InputEdit>, before: Bytes, between: Bytes, after: Bytes)
    requires edits != []
    decreases |edits|, 0
  {
    Lead(edits[..|edits| - 1], before, between) && Tells(edits[|edits| - 1], between, after)
  }

  function EditFor(s: Bytes, start: nat, end: nat, text: Bytes): InputEdit
    requires start <= end <= |s|
  {
    InputEdit(start, end, start + |text|, PointFor(s, start), PointFor(s, end),
              ReplacementEnd(PointFor(s, start), text))
  }

  lemma EditTells(s: Bytes, start: nat, end: nat, text: Bytes)
    requires start <= end <= |s|
    ensures Tells(EditFor(s, start, end, text), s, Splice(s, start, end, text))
  {
    var after := Splice(s, start, end, text);
    assert after[..start] == s[..start];
    SamePrefix(s, after, start);
    assert after[start..start + |text|] == text == text[..|text|];
    ReplacementEndsThere(after, start, text, |text|);
  }

  lemma LeadStep(edits: seq<InputEdit>, e: InputEdit, before: Bytes, between: Bytes, after: Bytes)
    requires Lead(edits, before, between) && Tells(e, between, after)
    ensures Lead(edits + [e], before, after)
  {
    assert (edits + [e])[..|edits|] == edits;
    assert LeadVia(edits + [e], before, between, after);
  }

  // ---------------------------------------------------------------------------------------------
  // The store
  // ---------------------------------------------------------------------------------------------

  /** The parser: from scratch, or from an old tree and what changed since. */
  datatype Parser<!Tree> = Parser(
    parse: Bytes -> Option<Tree>,
    reparse: (Tree, seq<InputEdit>, Bytes) -> Option<Tree>,
    hasError: Tree -> bool)

  datatype Document<Tree> = Document(filePath: string, version: int, source: Bytes, tree: Tree)

  predicate IsAscii(s: Bytes) {
    forall i :: 0 <= i < |s| ==> s[i] < 0x80
  }

  /** The tree of the changed text: reparsed if that gives a tree without errors, or parsed again. */
  function TreeAfter<Tree>(parser: Parser<Tree>, was: Tree, incremental: bool, edits: seq<InputEdit>,
                           source: Bytes): Option<Tree> {
    var reparsed := if incremental then parser.reparse(was, edits, source) else None;
    if reparsed.Some? && !parser.hasError(reparsed.value) then reparsed else parser.parse(source)
  }

  predicate AllRanged(changes: seq<Change>) {
    forall i :: 0 <= i < |changes| ==> changes[i].range.Some?
  }

  /** The old tree has no error, its text is ASCII, and every change has a range. */
  ghost predicate Incremental<Tree>(parser: Parser<Tree>, was: Document<Tree>, changes: seq<Change>) {
    !parser.hasError(was.tree) && IsAscii(was.source) && AllRanged(changes)
  }

  /**
   The new tree. If the change is incremental, the old tree is reparsed with one edit for each
   change, which lead from the old text to the new; where that is not so, or gives no tree without
   errors, the new text is parsed from scratch.
   */
  ghost predicate TreeFollows<Tree(!new)>(parser: Parser<Tree>, was: Document<Tree>, changes: seq<Change>,
                                          now: Document<Tree>) {
    if Incremental(parser, was, changes) then
      exists edits ::
        && |edits| == |changes| && Lead(edits, was.source, now.source)
        && Reparsed(parser, was.tree, edits, now)
    else parser.parse(now.source) == Some(now.tree)
  }

  ghost predicate Reparsed<Tree>(parser: Parser<Tree>, was: Tree, edits: seq<InputEdit>, now: Document<Tree>) {
    var reparsed := parser.reparse(was, edits, now.source);
    if reparsed.Some? && !parser.hasError(reparsed.value) then reparsed == Some(now.tree)
    else parser.parse(now.source) == Some(now.tree)
  }

  /** The text that the changes ask for, or why they are refused. */
  ghost function ChangedText<Tree>(documents: map<string, Document<Tree>>, uri: string, version: int,
                                   changes: seq<Change>): Result<Bytes, Error> {
    if changes == [] then Err(NoChanges)
    else if uri !in documents then Err(NotOpen)
    else if version <= documents[uri].version then Err(StaleVersion)
    else
      match AllEdited(documents[uri].source, changes)
      case Err(e) => Err(e)
      case Ok(source) => if ValidSource(source) then Ok(source) else Err(InvalidSource)
  }

  class Store<Tree(!new)> {
    const parser: Parser<Tree>
    var documents: map<string, Document<Tree>>

    ghost predicate Valid()
      reads this
    {
      forall uri :: uri in documents ==>
                      uri != "" && ValidSource(documents[uri].source)
    }

    constructor (parser: Parser<Tree>)
      ensures Valid() && documents == map[] && this.parser == parser
    {
      this.parser := parser;
      documents := map[];
    }

    method Open(uri: string, filePath: string, version: int, text: Bytes) returns (r: Option<Error>)
      requires Valid()
      modifies this
      ensures Valid()
      ensures r == if uri == "" then Some(MissingUri) else if !ValidSource(text) then Some(InvalidSource)
                   else if parser.parse(text).None? then Some(ParseFailed) else None
      ensures documents == if r.Some? then old(documents)
                           else old(documents)[uri := Document(filePath, version, text, parser.parse(text).value)]
    {
      if uri == "" {
        return Some(MissingUri);
      }
      if !ValidSource(text) {
        return Some(InvalidSource);
      }
      var tree := parser.parse(text);
      if tree.None? {
        return Some(ParseFailed);
      }
      documents := documents[uri := Document(filePath, version, text, tree.value)];
      return None;
    }

    method Close(uri: string)
      requires Valid()
      modifies this
      ensures Valid() && documents == old(documents) - {uri}
    {
      documents := documents - {uri};
    }

    /** A save may bring the text; without it nothing changes. */
    method Save(uri: string, text: Option<Bytes>) returns (r: Option<Error>)
      requires Valid()
      modifies this
      ensures Valid()
      ensures uri !in old(documents) ==> r == Some(NotOpen)
      ensures uri in old(documents) && text.None? ==> r.None?
      ensures r.Some? || text.None? ==> documents == old(documents)
      ensures r.None? && text.Some? ==> IsSaved(old(documents), uri, old(documents)[uri].version, text.value)
    {
      if uri !in documents {
        return Some(NotOpen);
      }
      if text.None? {
        return None;
      }
      r := SaveText(uri, documents[uri].version, text.value);
    }

    /** Replace the text, if the document is still open at this version; its version stays. */
    method SaveText(uri: string, version: int, text: Bytes) returns (r: Option<Error>)
      requires Valid()
      modifies this
      ensures Valid()
      ensures r == if !ValidSource(text) then Some(InvalidSource)
                   else if parser.parse(text).None? then Some(ParseFailed)
                   else if uri !in old(documents)
                           || old(documents)[uri].version != version then Some(ChangedConcurrently)
                   else None
      ensures r.Some? ==> documents == old(documents)
      ensures r.None? ==> IsSaved(old(documents), uri, version, text)
    {
      if !ValidSource(text) {
        return Some(InvalidSource);
      }
      var tree := parser.parse(text);
      if tree.None? {
        return Some(ParseFailed);
      }
      if uri !in documents || documents[uri].version != version {
        return Some(ChangedConcurrently);
      }
      documents := documents[uri := documents[uri].(source := text, tree := tree.value)];
      return None;
    }

    ghost predicate IsSaved(before: map<string, Document<Tree>>, uri: string, version: int, text: Bytes)
      reads this
    {
      && uri in before && before[uri].version == version && parser.parse(text).Some?
      && documents == before[uri := Document(before[uri].filePath, version, text, parser.parse(text).value)]
    }

    /** Either all changes are applied, with a strictly larger version, or nothing happens. */
    method Change(uri: string, version: int, changes: seq<Change>) returns (r: Option<Error>)
      requires Valid()
      modifies this
      ensures Valid()
      ensures r.Some? ==> documents == old(documents)
      ensures match ChangedText(old(documents), uri, version, changes)
              case Err(e) => r == Some(e)
              case Ok(source) => r.None? || (r == Some(ParseFailed) && parser.parse(source).None?)
      ensures r.None? ==>
                && uri in old(documents) && uri in documents
                && var was, now := old(documents)[uri], documents[uri];
                && now.version == version > was.version && now.filePath == was.filePath
                && AllEdited(was.source, changes) == Ok(now.source) && MakeAll(was.source, changes, now.source)
                && TreeFollows(parser, was, changes, now)
                && documents == old(documents)[uri := now]
    {
      if changes == [] {
        return Some(NoChanges);
      }
      if uri !in documents {
        return Some(NotOpen);
      }
      var current := documents[uri];
      if version <= current.version {
        return Some(StaleVersion);
      }
      var edited, incremental, edits := ApplyChanges(current.source, changes, !parser.hasError(current.tree)
                                                                              && IsAscii(current.source));
      if edited.Err? {
        return Some(edited.error);
      }
      var source := edited.value;
      if !ValidSource(source) {
        return Some(InvalidSource);
      }
      var tree := TreeAfter(parser, current.tree, incremental, edits, source);
      if tree.None? {
        return Some(ParseFailed);
      }
      documents := documents[uri := Document(current.filePath, version, source, tree.value)];
      return None;
    }
  }

  /** Apply one change, and describe it if it has a range. */
  method ApplyChange(s: Bytes, change: Change) returns (r: Result<Bytes, Error>, edit: Option<InputEdit>)
    ensures r == Edited(s, change)
    ensures r.Ok? ==> Makes(s, change, r.value)
    ensures r.Ok? && change.range.Some? ==>
              && edit.Some? && Tells(edit.value, s, r.value)
              && Spans(s, change.range.value, edit.value.startByte, edit.value.oldEndByte)
              && r.value[edit.value.startByte..edit.value.newEndByte] == change.text
  {
    if change.range.None? {
      return Ok(change.text), None;
    }
    var start := ByteOffset(s, change.range.value.start);
    ResolveIs(s, change.range.value.start, start);
    if start.None? {
      return Err(InvalidPosition), None;
    }
    var end := ByteOffset(s, change.range.value.end);
    ResolveIs(s, change.range.value.end, end);
    if end.None? || end.value < start.value {
      return Err(InvalidPosition), None;
    }
    assert Denotes(s, change.range.value.end, end.value);
    if !WellFormed(change.text) {
      return Err(InvalidText), None;
    }
    var updated := Splice(s, start.value, end.value, change.text);
    if !ValidSource(updated) {
      return Err(InvalidSource), None;
    }
    EditTells(s, start.value, end.value, change.text);
    EditedMakes(s, change);
    return Ok(updated), Some(EditFor(s, start.value, end.value, change.text));
  }

  /** Edits are reported as long as every change has a range, and then they lead to the current text. */
  ghost predicate Reports(reportable: bool, changes: seq<Change>, original: Bytes, source: Bytes, incremental: bool,
                          edits: seq<InputEdit>) {
    && incremental == (reportable && AllRanged(changes))
    && (incremental ==> Lead(edits, original, source) && |edits| == |changes|)
  }

  lemma ReportsStep(reportable: bool, changes: seq<Change>, i: nat, original: Bytes, source: Bytes, incremental: bool,
                    edits: seq<InputEdit>,
                    updated: Bytes, edit: Option<InputEdit>)
    requires i < |changes| && Reports(reportable, changes[..i], original, source, incremental, edits)
    requires changes[i].range.Some? ==> edit.Some? && Tells(edit.value, source, updated)
    ensures changes[i].range.None? ==> Reports(reportable, changes[..i + 1], original, updated, false, [])
    ensures changes[i].range.Some? && !incremental ==>
              Reports(reportable, changes[..i + 1], original, updated, false, edits)
    ensures changes[i].range.Some? && incremental ==>
              Reports(reportable, changes[..i + 1], original, updated, true, edits + [edit.value])
  {
    RangedStep(changes, i);
    if changes[i].range.Some? && incremental {
      LeadStep(edits, edit.value, original, source, updated);
    }
  }

  lemma RangedStep(changes: seq<Change>, i: nat)
    requires i < |changes|
    ensures AllRanged(changes[..i + 1]) == (AllRanged(changes[..i]) && changes[i].range.Some?)
  {
    var more := changes[..i + 1];
    assert more[i] == changes[i] && forall k :: 0 <= k < i ==> more[k] == changes[..i][k];
  }

  /** Apply the changes in order and collect the edits to report. */
  method ApplyChanges(original: Bytes, changes: seq<Change>, reportable: bool)
    returns (r: Result<Bytes, Error>, incremental: bool, edits: seq<InputEdit>)
    ensures r == AllEdited(original, changes)
    ensures r.Ok? ==> MakeAll(original, changes, r.value)
    ensures r.Ok? ==> Reports(reportable, changes, original, r.value, incremental, edits)
  {
    var source := original;
    incremental, edits := reportable, [];
    for i := 0 to |changes|
      invariant AllEdited(original, changes[..i]) == Ok(source)
      invariant Reports(reportable, changes[..i], original, source, incremental, edits)
    {
      EditStep(original, changes, i);
      var edit;
      r, edit := ApplyChange(source, changes[i]);
      if r.Err? {
        ErrorLasts(original, changes, i + 1);
        return;
      }
      ReportsStep(reportable, changes, i, original, source, incremental, edits, r.value, edit);
      if changes[i].range.None? {
        incremental, edits := false, [];
      } else if incremental {
        edits := edits + [edit.value];
      }
      source := r.value;
    }
    assert changes[..|changes|] == changes;
    AllEditedMakes(original, changes);
    r := Ok(source);
  }
}
