/** Writing an environment and reading it back; what every accepted environment satisfies. */
module EnvironmentTheorems {
  import opened Prelude
  import opened Positions
  import opened EnvironmentFile

  // ---------------------------------------------------------------------------------------------
  // Writing
  // ---------------------------------------------------------------------------------------------

  function EscapeByte(b: byte): Bytes {
    if b == BACKSLASH || b == DOUBLE then [BACKSLASH, b]
    else if b == LF then [BACKSLASH, 110]
    else if b == CR then [BACKSLASH, 114]
    else if b == TAB then [BACKSLASH, 116]
    else [b]
  }

  function Escape(value: Bytes): Bytes {
    if value == [] then [] else EscapeByte(value[0]) + Escape(value[1..])
  }

  /** One escaped, double-quoted assignment. */
  function Line(e: Entry): Bytes {
    e.name + [EQUALS, DOUBLE] + Escape(e.value) + [DOUBLE, LF]
  }

  function Written(entries: seq<Entry>): Bytes {
    if entries == [] then [] else Line(entries[0]) + Written(entries[1..])
  }

  // ---------------------------------------------------------------------------------------------
  // Reading back
  // ---------------------------------------------------------------------------------------------

  lemma {:induction false} QuotedEscaped(value: Bytes, rest: Bytes)
    ensures Quoted(Escape(value) + [DOUBLE, LF] + rest, DOUBLE) == Ok(Parsed(value, rest))
  {
    var closing := [DOUBLE, LF] + rest;
    Associate(Escape(value), [DOUBLE, LF], rest);
    if value == [] {
      assert closing[1..] == [LF] + rest && ([LF] + rest)[1..] == rest;
      assert AfterQuote(closing[1..]) == Ok(rest);
      assert Escape(value) + closing == closing;
    } else {
      var b, tail := value[0], value[1..];
      QuotedEscaped(tail, rest);
      Associate(Escape(tail), [DOUBLE, LF], rest);
      Associate(EscapeByte(b), Escape(tail), closing);
      EscapedByteIsRead(b, Escape(tail) + closing);
      assert value == [b] + tail;
    }
  }

  lemma EscapedByteIsRead(b: byte, t: Bytes)
    ensures Quoted(EscapeByte(b) + t, DOUBLE) == Prepend([b], Quoted(t, DOUBLE))
  {
    var e := EscapeByte(b);
    assert (e + t)[|e|..] == t;
  }

  lemma NotExported(name: Bytes, s: Bytes)
    requires NameSyntax(name) && |name| < |s| && s[..|name|] == name && s[|name|] == EQUALS
    ensures !HasExport(s)
  {
    if Export() <= s && |s| > 6 {
      assert forall i :: 0 <= i < 6 ==> s[i] == Export()[i] && Export()[i] != EQUALS;
      assert |name| > 6 ==> s[6] == s[..|name|][6] == name[6];
    }
  }

  lemma KeyIsName(name: Bytes, s: Bytes)
    requires NameSyntax(name) && |name| < |s| && s[..|name|] == name && s[|name|] == EQUALS
    ensures KeyLength(s) == |name|
  {
    assert forall i :: 0 <= i < |name| ==> s[i] == name[i] && ContinuesKey(s[i]);
  }

  lemma LineHasKey(name: Bytes, rest: Bytes)
    requires NameSyntax(name)
    ensures AfterExport(name + [EQUALS] + rest) == name + [EQUALS] + rest
    ensures KeyAndEquals(name + [EQUALS] + rest) == Ok(Parsed(name, rest))
  {
    var s := name + [EQUALS] + rest;
    assert s[..|name|] == name && s[|name|..] == [EQUALS] + rest && s[0] == name[0];
    NotExported(name, s);
    KeyIsName(name, s);
    assert AfterSpace([EQUALS] + rest) == [EQUALS] + rest;
    assert ([EQUALS] + rest)[1..] == rest;
  }

  lemma LineIsAssignment(e: Entry, rest: Bytes)
    requires NameSyntax(e.name)
    ensures Assignment(Line(e) + rest) == Ok(Parsed(e, rest))
  {
    var quoted := Escape(e.value) + [DOUBLE, LF] + rest;
    var v := [DOUBLE] + quoted;
    assert Line(e) + rest == e.name + [EQUALS] + v;
    LineHasKey(e.name, v);
    QuotedEscaped(e.value, rest);
    assert v[1..] == quoted;
    assert Value(v, false) == Ok(Parsed(e.value, rest));
  }

  lemma NotRefused(normalize: Normalizer, entries: seq<Entry>, k: nat)
    requires k < |entries| && ValidEntries(normalize, entries)
    ensures Refusal(normalize, entries[..k], entries[k]).None?
  {
  }

  lemma LineIsRead(normalize: Normalizer, e: Entry, rest: Bytes, earlier: seq<Entry>)
    requires Refusal(normalize, earlier, e).None?
    ensures Entries(normalize, Line(e) + rest, earlier) == Entries(normalize, rest, earlier + [e])
  {
    var s := Line(e) + rest;
    assert s[0] == e.name[0];
    assert AfterSpace(s) == s;
    LineIsAssignment(e, rest);
  }

  lemma WrittenStep(entries: seq<Entry>, k: nat)
    requires k < |entries|
    ensures Written(entries[k..]) == Line(entries[k]) + Written(entries[k + 1..])
    ensures entries[..k + 1] == entries[..k] + [entries[k]]
  {
    assert entries[k..][1..] == entries[k + 1..];
  }

  lemma {:induction false} EntriesWritten(normalize: Normalizer, entries: seq<Entry>, k: nat)
    requires k <= |entries| && ValidEntries(normalize, entries)
    ensures Entries(normalize, Written(entries[k..]), entries[..k]) == Ok(entries)
    decreases |entries| - k
  {
    if k == |entries| {
      assert entries[..k] == entries;
    } else {
      WrittenStep(entries, k);
      NotRefused(normalize, entries, k);
      LineIsRead(normalize, entries[k], Written(entries[k + 1..]), entries[..k]);
      EntriesWritten(normalize, entries, k + 1);
    }
  }

  // ---------------------------------------------------------------------------------------------
  // What is written is well-formed text
  // ---------------------------------------------------------------------------------------------

  lemma {:induction false} AsciiIsWellFormed(s: Bytes)
    requires forall i :: 0 <= i < |s| ==> s[i] < 0x80
    ensures WellFormed(s)
  {
    if s != [] {
      AsciiIsWellFormed(s[1..]);
    }
  }

  lemma EscapeFront(b: byte, rest: Bytes)
    ensures Escape([b] + rest) == EscapeByte(b) + Escape(rest)
  {
    assert ([b] + rest)[1..] == rest;
  }

  lemma {:induction false} EscapeOfBoth(a: Bytes, b: Bytes)
    ensures Escape(a + b) == Escape(a) + Escape(b)
  {
    if a == [] {
      assert a + b == b;
    } else {
      var first, rest := a[0], a[1..];
      assert a == [first] + rest;
      EscapeOfBoth(rest, b);
      Associate([first], rest, b);
      EscapeFront(first, rest + b);
      EscapeFront(first, rest);
      Associate(EscapeByte(first), Escape(rest), Escape(b));
    }
  }

  lemma {:induction false} HighBytesStay(s: Bytes)
    requires forall i :: 0 <= i < |s| ==> s[i] >= 0x80
    ensures Escape(s) == s
  {
    if s != [] {
      HighBytesStay(s[1..]);
    }
  }

  lemma RuneEscaped(s: Bytes)
    requires Decode(s).Some?
    ensures WellFormed(Escape(s[..Decode(s).value.size]))
  {
    var rune := s[..Decode(s).value.size];
    if |rune| == 1 {
      assert Escape(rune) == EscapeByte(s[0]);
      AsciiIsWellFormed(EscapeByte(s[0]));
    } else {
      HighBytesStay(rune);
      DecodeLocal(s, |rune|);
      assert rune[|rune|..] == [];
    }
  }

  lemma EscapeSplits(value: Bytes, size: nat)
    requires size <= |value|
    ensures Escape(value) == Escape(value[..size]) + Escape(value[size..])
  {
    assert value == value[..size] + value[size..];
    EscapeOfBoth(value[..size], value[size..]);
  }

  lemma {:induction false} EscapedIsWellFormed(value: Bytes)
    requires WellFormed(value)
    ensures WellFormed(Escape(value))
    decreases |value|
  {
    if value != [] {
      var size := Decode(value).value.size;
      EscapedIsWellFormed(value[size..]);
      RuneEscaped(value);
      EscapeSplits(value, size);
      BothWellFormed(Escape(value[..size]), Escape(value[size..]));
    }
  }

  lemma BothWellFormed(a: Bytes, b: Bytes)
    requires WellFormed(a) && WellFormed(b)
    ensures WellFormed(a + b)
  {
    UnitsOfBoth(a, b);
  }

  lemma {:induction false} EscapedHasNoNul(value: Bytes)
    requires NUL !in value
    ensures NUL !in Escape(value) && |Escape(value)| <= 2 * |value|
  {
    if value != [] {
      EscapedHasNoNul(value[1..]);
      assert NUL !in EscapeByte(value[0]);
    }
  }

  lemma LineIsText(e: Entry)
    requires ValidName(e.name) && ValidValue(e.value)
    ensures WellFormed(Line(e)) && NUL !in Line(e)
    ensures |Line(e)| <= 2 * (|e.name| + 1 + |e.value| + 1)
  {
    var opening, closing, value := [EQUALS, DOUBLE], [DOUBLE, LF], Escape(e.value);
    AsciiIsWellFormed(e.name);
    AsciiIsWellFormed(opening);
    AsciiIsWellFormed(closing);
    EscapedIsWellFormed(e.value);
    EscapedHasNoNul(e.value);
    UnitsOfBoth(e.name, opening);
    UnitsOfBoth(e.name + opening, value);
    UnitsOfBoth(e.name + opening + value, closing);
    assert forall i :: 0 <= i < |e.name| ==> e.name[i] != NUL;
  }

  lemma {:induction false} TotalOfRest(entries: seq<Entry>)
    requires entries != []
    ensures TotalBytes(entries) == TotalBytes(entries[1..]) + |entries[0].name| + 1 + |entries[0].value| + 1
  {
    var n := |entries| - 1;
    if n > 0 {
      TotalOfRest(entries[..n]);
      assert entries[..n][1..] == entries[1..][..n - 1];
    }
  }

  lemma {:induction false} WrittenIsText(entries: seq<Entry>)
    requires forall i :: 0 <= i < |entries| ==> ValidName(entries[i].name) && ValidValue(entries[i].value)
    ensures WellFormed(Written(entries)) && NUL !in Written(entries)
    ensures |Written(entries)| <= 2 * TotalBytes(entries)
  {
    if entries != [] {
      WrittenIsText(entries[1..]);
      LineIsText(entries[0]);
      UnitsOfBoth(Line(entries[0]), Written(entries[1..]));
      TotalOfRest(entries);
    }
  }

  /** Reading inverts writing, for all entries within the bounds; the file is within its bound as well. */
  lemma ReadWritten(normalize: Normalizer, entries: seq<Entry>)
    requires ValidEntries(normalize, entries) && TotalBytes(entries) <= 30000
    ensures Meaning(normalize, Written(entries)) == Ok(entries)
    ensures |Written(entries)| <= 262144
  {
    WrittenIsText(entries);
    EntriesWritten(normalize, entries, 0);
    assert entries[0..] == entries && entries[..0] == [];
    assert entries != [] ==> Written(entries)[0] == entries[0].name[0];
  }

  // ---------------------------------------------------------------------------------------------
  // What is read is valid
  // ---------------------------------------------------------------------------------------------

  lemma AcceptedStaysValid(normalize: Normalizer, entries: seq<Entry>, e: Entry)
    requires ValidEntries(normalize, entries) && Refusal(normalize, entries, e).None?
    ensures ValidEntries(normalize, entries + [e])
  {
  }

  lemma {:induction false} ReadIsValid(normalize: Normalizer, s: Bytes, earlier: seq<Entry>)
    requires ValidEntries(normalize, earlier) && Entries(normalize, s, earlier).Ok?
    ensures ValidEntries(normalize, Entries(normalize, s, earlier).value)
            && earlier <= Entries(normalize, s, earlier).value
    decreases |s|
  {
    if s != [] {
      var p := Advance(normalize, s, earlier).value;
      if p.value != earlier {
        AcceptedStaysValid(normalize, earlier, Item(s).value.value.value);
      }
      ReadIsValid(normalize, p.rest, p.value);
    }
  }

  /**
   Names that are accepted are valid, unreserved and unique, and the bounds hold; so writing them
   back reads the same.
   */
  lemma AcceptedIsWritable(normalize: Normalizer, payload: Bytes)
    requires Meaning(normalize, payload).Ok?
    ensures
      var entries := Meaning(normalize, payload).value;
      && ValidEntries(normalize, entries) && TotalBytes(entries) <= 30000
      && Meaning(normalize, Written(entries)) == Ok(entries)
  {
    ReadIsValid(normalize, AfterBom(payload), []);
    ReadWritten(normalize, Meaning(normalize, payload).value);
  }

  // ---------------------------------------------------------------------------------------------
  // Other ways to write the same
  // ---------------------------------------------------------------------------------------------

  /** A value that needs no quotes. */
  predicate Plain(value: Bytes) {
    && value != [] && !IsSpace(value[0]) && !IsSpace(value[|value| - 1])
    && value[0] != DOUBLE && value[0] != SINGLE && value[0] != HASH
    && (forall i :: 0 <= i < |value| ==> value[i] != LF && value[i] != CR)
    && forall i :: 0 < i < |value| && value[i] == HASH ==> !IsSpace(value[i - 1])
  }

  predicate NoLineEnd(s: Bytes) {
    forall i :: 0 <= i < |s| ==> s[i] != LF && s[i] != CR
  }

  /** A "#" after a space, where `spaced` says whether there is one before the text. */
  predicate StartsComment(s: Bytes, i: nat, spaced: bool)
    requires i < |s|
  {
    s[i] == HASH && if i == 0 then spaced else IsSpace(s[i - 1])
  }

  /** Blanks and tabs only. */
  predicate AllSpaces(s: Bytes) {
    forall i :: 0 <= i < |s| ==> s[i] == 32 || s[i] == 9
  }

  /** How a line may end: with LF, with CR LF, or with the file. */
  predicate EndsLine(end: Bytes, rest: Bytes) {
    end == [LF] || end == [CR, LF] || (end == [] && rest == [])
  }

  lemma LineEndIsRead(end: Bytes, rest: Bytes)
    requires EndsLine(end, rest)
    ensures AtLineEnd(end + rest) && AfterLineEnd(end + rest) == Ok(rest)
  {
    assert end != [] ==> (end + rest)[|end|..] == rest && (end + rest)[0] == end[0];
    assert |end| == 2 ==> (end + rest)[1] == LF;
    assert end == [] ==> end + rest == rest;
  }

  /** A CR that no LF follows is refused where a line may end. */
  lemma BareReturnIsRefused(rest: Bytes)
    requires rest == [] || rest[0] != LF
    ensures AtLineEnd([CR] + rest) && AfterLineEnd([CR] + rest) == Err(BareCarriageReturn)
  {
  }

  lemma {:induction false} UnquotedStops(s: Bytes, spaced: bool, n: nat)
    requires n <= |s| && NoLineEnd(s[..n])
    requires forall i :: 0 <= i < n ==> !StartsComment(s, i, spaced)
    requires AtLineEnd(s[n..]) || StartsComment(s, n, spaced)
    ensures UnquotedLength(s, spaced) == n
  {
    if n > 0 {
      var rest := s[1..];
      assert s[0] == s[..n][0] && !StartsComment(s, 0, spaced);
      assert rest[..n - 1] == s[..n][1..] && rest[n - 1..] == s[n..];
      forall i | 0 <= i < |rest| ensures StartsComment(rest, i, IsSpace(s[0])) == StartsComment(s, i + 1, spaced) {
      }
      UnquotedStops(rest, IsSpace(s[0]), n - 1);
    } else {
      assert s[0..] == s;
    }
  }

  lemma {:induction false} CommentEnds(s: Bytes, rest: Bytes)
    requires NoLineEnd(s) && AtLineEnd(rest)
    ensures AfterComment(s + rest) == rest
  {
    if s == [] {
      assert s + rest == rest;
    } else {
      CommentEnds(s[1..], rest);
      assert (s + rest)[1..] == s[1..] + rest;
    }
  }

  lemma {:induction false} SpacesAreSkipped(spaces: Bytes, rest: Bytes)
    requires AllSpaces(spaces) && (rest == [] || !IsSpace(rest[0]))
    ensures AfterSpace(spaces + rest) == rest
  {
    if spaces == [] {
      assert spaces + rest == rest;
    } else {
      SpacesAreSkipped(spaces[1..], rest);
      assert (spaces + rest)[1..] == spaces[1..] + rest;
    }
  }

  lemma {:induction false} TrimmedEnd(value: Bytes, spaces: Bytes)
    requires value != [] && !IsSpace(value[|value| - 1]) && AllSpaces(spaces)
    ensures TrimEnd(value + spaces) == value
  {
    if spaces == [] {
      assert value + spaces == value;
    } else {
      TrimmedEnd(value, spaces[..|spaces| - 1]);
      assert (value + spaces)[..|value + spaces| - 1] == value + spaces[..|spaces| - 1];
    }
  }

  /** A plain value is read as it stands, with or without spaces and a comment after it, however the line ends. */
  lemma PlainIsRead(value: Bytes, spaces: Bytes, comment: Option<Bytes>, end: Bytes, rest: Bytes, spaced: bool)
    requires Plain(value) && AllSpaces(spaces) && EndsLine(end, rest)
    requires comment.Some? ==> spaces != [] && NoLineEnd(comment.value)
    ensures Value(value + spaces + (if comment.Some? then [HASH] + comment.value else []) + (end + rest),
                  spaced) == Ok(Parsed(value, rest))
  {
    var tail := if comment.Some? then [HASH] + comment.value else [];
    LineEndIsRead(end, rest);
    CommentEnds(tail, end + rest);
    Associate(value + spaces, tail, end + rest);
    if tail == [] {
      assert tail + (end + rest) == end + rest;
    }
    PlainEnds(value, spaces, tail + (end + rest), spaced);
  }

  lemma PlainEnds(value: Bytes, spaces: Bytes, tail: Bytes, spaced: bool)
    requires Plain(value) && AllSpaces(spaces)
    requires AtLineEnd(tail) || (tail[0] == HASH && spaces != [])
    ensures Value(value + spaces + tail, spaced) ==
            match AfterLineEnd(AfterComment(tail))
            case Err(e) => Err(e)
            case Ok(rest) => Ok(Parsed(value, rest))
  {
    var text := value + spaces;
    var s := text + tail;
    assert s[..|text|] == text && s[|text|..] == tail && s[0] == value[0];
    PlainStops(value, spaces, s, spaced);
    assert AfterSpace(text) == text;
    TrimmedEnd(value, spaces);
  }

  lemma PlainStops(value: Bytes, spaces: Bytes, s: Bytes, spaced: bool)
    requires Plain(value) && AllSpaces(spaces)
    requires |value| + |spaces| <= |s| && s[..|value| + |spaces|] == value + spaces
    requires AtLineEnd(s[|value| + |spaces|..]) || (s[|value| + |spaces|] == HASH && spaces != [])
    ensures UnquotedLength(s, spaced) == |value| + |spaces|
  {
    var n := |value| + |spaces|;
    assert forall i :: 0 <= i < n ==> s[i] == (value + spaces)[i];
    assert forall i :: 0 <= i < |value| ==> s[i] == value[i];
    assert forall i :: |value| <= i < n ==> s[i] == spaces[i - |value|];
    forall i | 0 <= i < n ensures !StartsComment(s, i, spaced) {
      assert i < |value| ==> s[i] == value[i] && (i > 0 ==> s[i - 1] == value[i - 1]);
    }
    UnquotedStops(s, spaced, n);
  }

  /** Between single quotes everything but the quote and a CR stands for itself, line feeds included. */
  lemma {:induction false} SingleQuotedIsRead(value: Bytes, rest: Bytes)
    requires forall i :: 0 <= i < |value| ==> value[i] != SINGLE && value[i] != CR
    ensures Quoted(value + [SINGLE, LF] + rest, SINGLE) == Ok(Parsed(value, rest))
  {
    var s := value + [SINGLE, LF] + rest;
    if value == [] {
      assert s[1..] == [LF] + rest;
      assert ([LF] + rest)[1..] == rest;
      assert AfterQuote(s[1..]) == Ok(rest);
    } else {
      SingleQuotedIsRead(value[1..], rest);
      assert s[1..] == value[1..] + [SINGLE, LF] + rest;
      assert value == [value[0]] + value[1..];
      assert s[0] == value[0];
    }
  }

  /** An exported assignment means what the assignment means. */
  lemma ExportIsIgnored(name: Bytes, rest: Bytes)
    requires NameSyntax(name)
    ensures Assignment(Export() + [SPACE] + name + [EQUALS] + rest) == Assignment(name + [EQUALS] + rest)
  {
    var plain := name + [EQUALS] + rest;
    var s := Export() + [SPACE] + name + [EQUALS] + rest;
    assert s == Export() + ([SPACE] + plain);
    assert s[..6] == Export() && s[6] == SPACE && s[6..] == [SPACE] + plain;
    assert ([SPACE] + plain)[1..] == plain && plain[0] == name[0];
    assert AfterSpace(s[6..]) == plain;
    assert AfterExport(s) == plain;
    LineHasKey(name, rest);
  }

  /** Letters, digits and underscores, and no digit first. */
  predicate IsVariable(name: Bytes) {
    && name != [] && !(48 <= name[0] <= 57)
    && forall b :: b in name ==> 65 <= b <= 90 || 97 <= b <= 122 || 48 <= b <= 57 || b == 95
  }

  lemma VariableIsName(name: Bytes)
    ensures IsVariable(name) <==> NameSyntax(name)
  {
    if IsVariable(name) {
      assert forall i :: 0 <= i < |name| ==> name[i] in name;
    }
  }

  /** Spaces may stand around the equals sign, except after a name that is just "export". */
  lemma SpacedKey(name: Bytes, before: Bytes, after: Bytes, rest: Bytes)
    requires NameSyntax(name) && AllSpaces(before) && AllSpaces(after) && (rest == [] || !IsSpace(rest[0]))
    requires name == Export() ==> before == []
    ensures
      var s := name + (before + ([EQUALS] + (after + rest)));
      && s[0] == name[0] && AfterExport(s) == s && KeyAndEquals(s) == Ok(Parsed(name, after + rest))
      && AfterSpace(after + rest) == rest
  {
    var t := before + ([EQUALS] + (after + rest));
    var s := name + t;
    assert s[..|name|] == name && s[|name|..] == t && t != [] && !ContinuesKey(t[0]);
    assert forall i :: 0 <= i < |name| ==> s[i] == name[i] && ContinuesKey(s[i]);
    SpacesAreSkipped(before, [EQUALS] + (after + rest));
    SpacesAreSkipped(after, rest);
    assert ([EQUALS] + (after + rest))[1..] == after + rest;
    NotThePrefix(name, t);
  }

  lemma NotThePrefix(name: Bytes, t: Bytes)
    requires NameSyntax(name) && t != [] && !ContinuesKey(t[0]) && (name == Export() ==> t[0] == EQUALS)
    ensures !HasExport(name + t)
  {
    var s := name + t;
    assert s[|name|] == t[0];
    if Export() <= s && |s| > 6 {
      assert forall i :: 0 <= i < 6 ==> s[i] == Export()[i] && ContinuesKey(Export()[i]);
      assert |name| > 6 ==> s[6] == name[6];
      assert |name| == 6 ==> name == s[..6] == Export() && s[6] == t[0];
    }
  }

  lemma PlainAssignment(name: Bytes, before: Bytes, after: Bytes, value: Bytes, spaces: Bytes, comment: Option<Bytes>,
                        end: Bytes, rest: Bytes)
    requires NameSyntax(name) && AllSpaces(before) && AllSpaces(after) && AllSpaces(spaces)
    requires name == Export() ==> before == []
    requires Plain(value) && EndsLine(end, rest) && (comment.Some? ==> spaces != [] && NoLineEnd(comment.value))
    ensures
      var text := value + spaces + (if comment.Some? then [HASH] + comment.value else []) + (end + rest);
      var line := name + (before + ([EQUALS] + (after + text)));
      line[0] == name[0] && Assignment(line) == Ok(Parsed(Entry(name, value), rest))
  {
    var text := value + spaces + (if comment.Some? then [HASH] + comment.value else []) + (end + rest);
    assert text[0] == value[0];
    SpacedKey(name, before, after, text);
    PlainIsRead(value, spaces, comment, end, rest, after + text != [] && IsSpace((after + text)[0]));
  }

  lemma IndentedAssignment(normalize: Normalizer, indent: Bytes, line: Bytes, e: Entry, rest: Bytes,
                           earlier: seq<Entry>)
    requires AllSpaces(indent) && line != [] && StartsKey(line[0]) && Assignment(line) == Ok(Parsed(e, rest))
    requires Refusal(normalize, earlier, e).None?
    ensures Entries(normalize, indent + line, earlier) == Entries(normalize, rest, earlier + [e])
  {
    SpacesAreSkipped(indent, line);
  }

  /** A plain assignment, with spaces wherever they may stand and a comment or not. */
  lemma PlainLineIsRead(normalize: Normalizer, indent: Bytes, name: Bytes, before: Bytes, after: Bytes, value: Bytes,
                        spaces: Bytes, comment: Option<Bytes>, end: Bytes, rest: Bytes, earlier: seq<Entry>)
    requires IsVariable(name) && AllSpaces(indent) && AllSpaces(before) && AllSpaces(after) && AllSpaces(spaces)
    requires name == Export() ==> before == []
    requires Plain(value) && EndsLine(end, rest) && (comment.Some? ==> spaces != [] && NoLineEnd(comment.value))
    requires Refusal(normalize, earlier, Entry(name, value)).None?
    ensures
      var text := value + spaces + (if comment.Some? then [HASH] + comment.value else []) + (end + rest);
      Entries(normalize, indent + (name + (before + ([EQUALS] + (after + text)))), earlier)
      == Entries(normalize, rest, earlier + [Entry(name, value)])
  {
    var text := value + spaces + (if comment.Some? then [HASH] + comment.value else []) + (end + rest);
    VariableIsName(name);
    PlainAssignment(name, before, after, value, spaces, comment, end, rest);
    IndentedAssignment(normalize, indent, name + (before + ([EQUALS] + (after + text))), Entry(name, value), rest,
                       earlier);
  }

  /** A name that is just "export", and a space: what follows must be the real name. */
  lemma ExportAlone(rest: Bytes)
    ensures Assignment(Export() + ([SPACE, EQUALS] + rest)) == Err(InvalidName)
  {
    var s := Export() + ([SPACE, EQUALS] + rest);
    assert s[..6] == Export() && s[6] == SPACE && s[6..] == [SPACE, EQUALS] + rest;
    assert AfterSpace(s[6..]) == [EQUALS] + rest by {
      assert s[6..][1..] == [EQUALS] + rest;
    }
  }

  /** Between quotes a CR LF is read as an LF. */
  lemma QuotedLineEnd(t: Bytes, quote: byte)
    requires quote == SINGLE || quote == DOUBLE
    ensures Quoted([CR, LF] + t, quote) == Quoted([LF] + t, quote)
  {
    assert ([CR, LF] + t)[2..] == t && ([LF] + t)[1..] == t;
    assert ([CR, LF] + t)[0] == CR && ([CR, LF] + t)[1] == LF;
  }

  // ---------------------------------------------------------------------------------------------
  // Lines that say nothing, and lines that are refused
  // ---------------------------------------------------------------------------------------------

  /** A blank line, or one with a comment only, is skipped. */
  lemma SilentLine(normalize: Normalizer, spaces: Bytes, comment: Option<Bytes>, end: Bytes, rest: Bytes,
                   earlier: seq<Entry>)
    requires AllSpaces(spaces) && EndsLine(end, rest)
    requires comment.Some? ==> NoLineEnd(comment.value)
    requires spaces + (if comment.Some? then [HASH] + comment.value else []) + (end + rest) != []
    ensures Entries(normalize, spaces + (if comment.Some? then [HASH] + comment.value else []) + (end + rest), earlier)
         == Entries(normalize, rest, earlier)
  {
    var text := if comment.Some? then [HASH] + comment.value else [];
    Associate(spaces, text, end + rest);
    LineEndIsRead(end, rest);
    CommentEnds(text, end + rest);
    if text == [] {
      assert text + (end + rest) == end + rest;
    }
    SpacesAreSkipped(spaces, text + (end + rest));
  }

  /** After the closing quote only spaces and a comment may follow. */
  lemma TrailingTextIsRefused(value: Bytes, spaces: Bytes, rest: Bytes)
    requires AllSpaces(spaces)
    requires rest != [] && !IsSpace(rest[0]) && rest[0] != HASH && rest[0] != LF && rest[0] != CR
    ensures Quoted(Escape(value) + ([DOUBLE] + (spaces + rest)), DOUBLE) == Err(TrailingText)
  {
    SpacesAreSkipped(spaces, rest);
    QuotedFails(value, [DOUBLE] + (spaces + rest), TrailingText);
  }

  /** A quoted value must be closed, and an escape must be one of five. */
  lemma UnclosedIsRefused(value: Bytes, b: byte, rest: Bytes)
    requires b != BACKSLASH && b != DOUBLE && b != 110 && b != 114 && b != 116
    ensures Quoted(Escape(value), DOUBLE) == Err(Unterminated)
    ensures Quoted(Escape(value) + [BACKSLASH], DOUBLE) == Err(UnterminatedEscape)
    ensures Quoted(Escape(value) + ([BACKSLASH, b] + rest), DOUBLE) == Err(InvalidEscape)
  {
    QuotedFails(value, [], Unterminated);
    assert Escape(value) + [] == Escape(value);
    QuotedFails(value, [BACKSLASH], UnterminatedEscape);
    QuotedFails(value, [BACKSLASH, b] + rest, InvalidEscape);
  }

  lemma {:induction false} QuotedFails(value: Bytes, tail: Bytes, code: Code)
    requires Quoted(tail, DOUBLE) == Err(code)
    ensures Quoted(Escape(value) + tail, DOUBLE) == Err(code)
  {
    if value == [] {
      assert Escape(value) + tail == tail;
    } else {
      QuotedFails(value[1..], tail, code);
      Associate(EscapeByte(value[0]), Escape(value[1..]), tail);
      EscapedByteIsRead(value[0], Escape(value[1..]) + tail);
    }
  }

  /** The same letter, whatever its case, or the same byte. */
  predicate SameLetter(a: byte, b: byte) {
    a == b || (65 <= a <= 90 && b == a + 32) || (65 <= b <= 90 && a == b + 32)
  }

  predicate SameName(a: Bytes, b: Bytes) {
    |a| == |b| && forall i :: 0 <= i < |a| ==> SameLetter(a[i], b[i])
  }

  lemma LowerIsSameName(name: Bytes, text: string)
    requires forall i :: 0 <= i < |text| ==> text[i] as int < 128 && !('A' <= text[i] <= 'Z')
    ensures Lower(name) == Ascii(text) <==> SameName(name, Ascii(text))
  {
    if Lower(name) == Ascii(text) {
      assert |name| == |Lower(name)| == |Ascii(text)|;
      forall i | 0 <= i < |name| ensures SameLetter(name[i], Ascii(text)[i]) {
        assert Lower(name)[i] == Ascii(text)[i];
      }
    }
    if SameName(name, Ascii(text)) {
      forall i | 0 <= i < |name| ensures Lower(name)[i] == Ascii(text)[i] {
        assert SameLetter(name[i], Ascii(text)[i]);
      }
    }
  }

  /** Names of the worker's own and of what it relies on are reserved, whatever their case. */
  lemma ReservedMeans(name: Bytes)
    ensures Reserved(name) <==>
            || (|name| >= 12 && SameName(name[..12], Ascii("pogo_worker_")))
            || SameName(name, Ascii("pythondontwritebytecode"))
            || SameName(name, Ascii("pythonunbuffered"))
            || SameName(name, Ascii("pythonutf8"))
            || SameName(name, Ascii("tmpdir"))
            || SameName(name, Ascii("tmp"))
            || SameName(name, Ascii("temp"))
            || SameName(name, Ascii("systemroot"))
  {
    LowerIsSameName(name, "pythondontwritebytecode");
    LowerIsSameName(name, "pythonunbuffered");
    LowerIsSameName(name, "pythonutf8");
    LowerIsSameName(name, "tmpdir");
    LowerIsSameName(name, "tmp");
    LowerIsSameName(name, "temp");
    LowerIsSameName(name, "systemroot");
    var prefix := Ascii("pogo_worker_");
    if |name| >= 12 {
      LowerIsSameName(name[..12], "pogo_worker_");
      assert Lower(name[..12]) == Lower(name)[..12];
    }
    assert prefix <= Lower(name) <==> |name| >= 12 && Lower(name)[..12] == prefix;
  }

  lemma ValueIsValid(value: Bytes)
    ensures ValidValue(value) <==> WellFormed(value) && 0 !in value && |value| <= 16384
  {
    if WellFormed(value) {
      UnitsBounded(value);
    }
  }

  /**
   A written line is refused exactly if the entries with it are not valid, and for the first reason
   of these: its name is too long, or reserved; its value is not text, or too long; its name has been
   given before; there are 256 entries already.
   */
  lemma LineIsJudged(normalize: Normalizer, e: Entry, rest: Bytes, earlier: seq<Entry>)
    requires IsVariable(e.name) && ValidEntries(normalize, earlier)
    ensures
      var r := Entries(normalize, Line(e) + rest, earlier);
      if ValidEntries(normalize, earlier + [e]) then r == Entries(normalize, rest, earlier + [e])
      else if |e.name| > 256 then r == Err(InvalidName)
      else if Reserved(e.name) then r == Err(ReservedName)
      else if !WellFormed(e.value) || 0 in e.value || |e.value| > 16384 then r == Err(InvalidValue)
      else if exists i :: 0 <= i < |earlier| && normalize(earlier[i].name) == normalize(e.name) then r == Err(Duplicate)
      else |earlier| == 256 && r == Err(TooMany)
  {
    VariableIsName(e.name);
    ValueIsValid(e.value);
    RefusedOrValid(normalize, earlier, e);
    LineIsRefused(normalize, e, rest, earlier);
    if Refusal(normalize, earlier, e).None? {
      LineIsRead(normalize, e, rest, earlier);
    }
  }

  lemma LineIsRefused(normalize: Normalizer, e: Entry, rest: Bytes, earlier: seq<Entry>)
    requires NameSyntax(e.name)
    ensures match Refusal(normalize, earlier, e)
            case None => true
            case Some(code) => Entries(normalize, Line(e) + rest, earlier) == Err(code)
  {
    var s := Line(e) + rest;
    assert s[0] == e.name[0];
    assert AfterSpace(s) == s;
    LineIsAssignment(e, rest);
  }

  lemma RefusedOrValid(normalize: Normalizer, earlier: seq<Entry>, e: Entry)
    requires ValidEntries(normalize, earlier)
    ensures Refusal(normalize, earlier, e).None? <==> ValidEntries(normalize, earlier + [e])
  {
    var all := earlier + [e];
    if Refusal(normalize, earlier, e).None? {
      AcceptedStaysValid(normalize, earlier, e);
    }
    if ValidEntries(normalize, all) {
      assert all[..|earlier|] == earlier && all[|earlier|] == e;
      NotRefused(normalize, all, |earlier|);
    }
  }

  // ---------------------------------------------------------------------------------------------
  // Quoted lines, empty values and the whole file
  // ---------------------------------------------------------------------------------------------

  /** After a closing quote, spaces and a comment are skipped to the end of the line. */
  lemma AfterQuoteIsRead(spaces: Bytes, comment: Option<Bytes>, end: Bytes, rest: Bytes)
    requires AllSpaces(spaces) && EndsLine(end, rest) && (comment.Some? ==> NoLineEnd(comment.value))
    ensures AfterQuote(spaces + ((if comment.Some? then [HASH] + comment.value else []) + (end + rest))) == Ok(rest)
  {
    var text := if comment.Some? then [HASH] + comment.value else [];
    LineEndIsRead(end, rest);
    CommentEnds(text, end + rest);
    if text == [] {
      assert text + (end + rest) == end + rest;
    }
    SpacesAreSkipped(spaces, text + (end + rest));
  }

  lemma {:induction false} QuotedCloses(value: Bytes, tail: Bytes, rest: Bytes)
    requires AfterQuote(tail) == Ok(rest)
    ensures Quoted(Escape(value) + ([DOUBLE] + tail), DOUBLE) == Ok(Parsed(value, rest))
  {
    if value == [] {
      assert Escape(value) + ([DOUBLE] + tail) == [DOUBLE] + tail && ([DOUBLE] + tail)[1..] == tail;
    } else {
      QuotedCloses(value[1..], tail, rest);
      Associate(EscapeByte(value[0]), Escape(value[1..]), [DOUBLE] + tail);
      EscapedByteIsRead(value[0], Escape(value[1..]) + ([DOUBLE] + tail));
      assert value == [value[0]] + value[1..];
    }
  }

  /** A quoted value is read back with spaces and a comment after it, however the line ends. */
  lemma QuotedLineIsRead(value: Bytes, spaces: Bytes, comment: Option<Bytes>, end: Bytes, rest: Bytes)
    requires AllSpaces(spaces) && EndsLine(end, rest) && (comment.Some? ==> NoLineEnd(comment.value))
    ensures
      var tail := spaces + ((if comment.Some? then [HASH] + comment.value else []) + (end + rest));
      Quoted(Escape(value) + ([DOUBLE] + tail), DOUBLE) == Ok(Parsed(value, rest))
  {
    var tail := spaces + ((if comment.Some? then [HASH] + comment.value else []) + (end + rest));
    AfterQuoteIsRead(spaces, comment, end, rest);
    QuotedCloses(value, tail, rest);
  }

  /** Nothing after the equals sign is an empty value; so is a comment, but only after a space. */
  lemma EmptyIsRead(name: Bytes, before: Bytes, after: Bytes, comment: Option<Bytes>, end: Bytes, rest: Bytes)
    requires IsVariable(name) && AllSpaces(before) && AllSpaces(after) && EndsLine(end, rest)
    requires name == Export() ==> before == []
    requires comment.Some? ==> after != [] && NoLineEnd(comment.value)
    ensures
      var text := (if comment.Some? then [HASH] + comment.value else []) + (end + rest);
      Assignment(name + (before + ([EQUALS] + (after + text)))) == Ok(Parsed(Entry(name, []), rest))
  {
    var text := (if comment.Some? then [HASH] + comment.value else []) + (end + rest);
    VariableIsName(name);
    LineEndIsRead(end, rest);
    if comment.Some? {
      CommentEnds([HASH] + comment.value, end + rest);
    } else {
      assert text == end + rest;
    }
    SpacedKey(name, before, after, text);
    assert text[0..] == text && text[..0] == [];
    assert after != [] ==> (after + text)[0] == after[0];
  }

  /** A "#" that follows the equals sign at once is the value. */
  lemma HashIsValue(name: Bytes, before: Bytes, end: Bytes, rest: Bytes)
    requires IsVariable(name) && AllSpaces(before) && EndsLine(end, rest) && (name == Export() ==> before == [])
    ensures Assignment(name + (before + ([EQUALS] + ([HASH] + (end + rest))))) == Ok(Parsed(Entry(name, [HASH]), rest))
  {
    var text := [HASH] + (end + rest);
    VariableIsName(name);
    LineEndIsRead(end, rest);
    SpacedKey(name, before, [], text);
    assert text[1..] == end + rest && text[..1] == [HASH];
    UnquotedStops(text, false, 1);
    CommentEnds([], end + rest);
    assert [] + (end + rest) == end + rest && [] + text == text;
  }

  /** The file must be text without NUL, and may begin with a byte order mark. */
  lemma FileIsText(normalize: Normalizer, payload: Bytes)
    ensures !WellFormed(payload) ==> Meaning(normalize, payload) == Err(InvalidEncoding)
    ensures WellFormed(payload) && 0 in payload ==> Meaning(normalize, payload) == Err(ContainsNul)
    ensures WellFormed(payload) && !(Bom() <= payload) ==>
              Meaning(normalize, [0xEF, 0xBB, 0xBF] + payload) == Meaning(normalize, payload)
  {
    var marked := [0xEF, 0xBB, 0xBF] + payload;
    assert marked[3..] == payload;
    assert Decode(marked).value.size == 3;
  }
}
