/** The parser that walks the environment file with an offset and a line number. */
module EnvironmentParser {
  import opened Prelude
  import opened Positions
  import opened EnvironmentFile

  /** What is wrong, and on which line if it is tied to one. */
  datatype Problem = Problem(code: Code, line: Option<nat>)

  lemma RestStep(payload: Bytes, offset: nat)
    requires offset < |payload|
    ensures payload[offset..][0] == payload[offset] && payload[offset..][1..] == payload[offset + 1..]
  {
  }

  lemma PrependNothing(r: Result<Parsed<Bytes>, Code>)
    ensures Prepend([], r) == r
  {
    assert r.Ok? ==> [] + r.value.value == r.value.value;
  }

  lemma PrependTwice(a: Bytes, b: Bytes, r: Result<Parsed<Bytes>, Code>)
    ensures Prepend(a, Prepend(b, r)) == Prepend(a + b, r)
  {
    assert r.Ok? ==> a + (b + r.value.value) == a + b + r.value.value;
  }

  /** One step through a quoted value. */
  lemma QuotedStep(s: Bytes, quote: byte, b: byte, rest: Bytes, value: Bytes)
    requires Quoted(s, quote) == Prepend([b], Quoted(rest, quote))
    ensures Prepend(value, Quoted(s, quote)) == Prepend(value + [b], Quoted(rest, quote))
  {
    PrependTwice(value, [b], Quoted(rest, quote));
  }

  lemma QuoteCloses(s: Bytes, quote: byte, value: Bytes)
    requires s != [] && s[0] == quote
    ensures Prepend(value, Quoted(s, quote)) ==
            match AfterQuote(s[1..])
            case Err(e) => Err(e)
            case Ok(rest) => Ok(Parsed(value, rest))
  {
    assert value + [] == value;
  }

  /** An item that parses, and the attempt to add its entry; a refusal is none of a line end. */
  lemma AdvanceIs(normalize: Normalizer, s: Bytes, earlier: seq<Entry>, item: Parsed<Option<Entry>>,
                  more: Result<seq<Entry>, Code>)
    requires Item(s) == Ok(item) && more == Added(normalize, earlier, item.value)
    ensures Advance(normalize, s, earlier) == if more.Ok? then Ok(Parsed(more.value, item.rest)) else Err(more.error)
    ensures more.Err? ==> more.error != BareCarriageReturn
  {
  }

  class WorkerEnvironmentParser {
    const payload: Bytes
    const normalize: Normalizer
    var offset: nat
    var line: nat

    /** The line number is one plus the line ends consumed. */
    ghost predicate Valid()
      reads this
    {
      offset <= |payload| && line == 1 + LinesBefore(payload, offset)
    }

    function Rest(): Bytes
      requires offset <= |payload|
      reads this
    {
      payload[offset..]
    }

    constructor (payload: Bytes, normalize: Normalizer)
      ensures Valid() && this.payload == payload && this.normalize == normalize && offset == 0
    {
      this.payload, this.normalize := payload, normalize;
      offset, line := 0, 1;
    }

    predicate AtEnd()
      requires offset <= |payload|
      reads this
    {
      offset == |payload| || payload[offset] == LF || payload[offset] == CR
    }

    method SkipHorizontalSpace()
      requires Valid()
      modifies this
      ensures Valid() && line == old(line) && Rest() == AfterSpace(old(Rest()))
    {
      while offset < |payload| && IsSpace(payload[offset])
        invariant Valid() && line == old(line) && AfterSpace(Rest()) == AfterSpace(old(Rest()))
      {
        RestStep(payload, offset);
        offset := offset + 1;
      }
    }

    method SkipComment()
      requires Valid()
      modifies this
      ensures Valid() && line == old(line) && Rest() == AfterComment(old(Rest()))
    {
      while !AtEnd()
        invariant Valid() && line == old(line) && AfterComment(Rest()) == AfterComment(old(Rest()))
        decreases |payload| - offset
      {
        RestStep(payload, offset);
        offset := offset + 1;
      }
    }

    method ConsumeLineEnd() returns (failed: Option<Problem>)
      requires Valid()
      modifies this
      ensures Valid()
      ensures match AfterLineEnd(old(Rest()))
              case Ok(rest) => failed.None? && Rest() == rest && offset >= old(offset)
              case Err(code) => failed == Some(Problem(code, Some(line))) && offset == old(offset) && line == old(line)
    {
      if offset == |payload| {
        return None;
      }
      RestStep(payload, offset);
      if payload[offset] == CR {
        if offset + 1 == |payload| || payload[offset + 1] != LF {
          return Some(Problem(BareCarriageReturn, Some(line)));
        }
        RestStep(payload, offset + 1);
        offset := offset + 1;
      } else if payload[offset] != LF {
        return Some(Problem(MissingLineEnd, Some(line)));
      }
      offset := offset + 1;
      line := line + 1;
      return None;
    }

    /** The line a problem with the entry is reported on. */
    function LineFor(code: Code, startLine: nat): nat
      reads this
    {
      if code == BareCarriageReturn then line else startLine
    }

    /** What the closing quote may be followed by. */
    method FinishQuoted(startLine: nat) returns (failed: Option<Problem>)
      requires Valid()
      modifies this
      ensures Valid() && offset >= old(offset)
      ensures match AfterQuote(old(Rest()))
              case Ok(rest) => failed.None? && Rest() == rest
              case Err(code) => failed == Some(Problem(code, Some(LineFor(code, startLine))))
    {
      SkipHorizontalSpace();
      if offset < |payload| && payload[offset] == HASH {
        SkipComment();
      }
      if !AtEnd() {
        return Some(Problem(TrailingText, Some(startLine)));
      }
      failed := ConsumeLineEnd();
    }

    /** Step over the closing quote and what may follow it. */
    method CloseQuoted(quote: byte, value: Bytes, startLine: nat) returns (r: Result<Bytes, Problem>)
      requires Valid() && quote in {SINGLE, DOUBLE} && offset < |payload| && payload[offset] == quote
      modifies this
      ensures Valid() && offset >= old(offset)
      ensures match Prepend(value, Quoted(old(Rest()), quote))
              case Ok(p) => r == Ok(p.value) && Rest() == p.rest
              case Err(code) => r == Err(Problem(code, Some(LineFor(code, startLine))))
    {
      RestStep(payload, offset);
      QuoteCloses(Rest(), quote, value);
      offset := offset + 1;
      var failed := FinishQuoted(startLine);
      r := if failed.Some? then Err(failed.value) else Ok(value);
    }

    method ParseQuoted(quote: byte, startLine: nat) returns (r: Result<Bytes, Problem>)
      requires Valid() && quote in {SINGLE, DOUBLE}
      modifies this
      ensures Valid() && offset >= old(offset)
      ensures match Quoted(old(Rest()), quote)
              case Ok(p) => r == Ok(p.value) && Rest() == p.rest
              case Err(code) => r == Err(Problem(code, Some(LineFor(code, startLine))))
    {
      var value: Bytes := [];
      ghost var whole := Quoted(Rest(), quote);
      PrependNothing(whole);
      while offset < |payload|
        invariant Valid() && offset >= old(offset)
        invariant whole == Prepend(value, Quoted(Rest(), quote))
        decreases |payload| - offset
      {
        ghost var s := Rest();
        RestStep(payload, offset);
        if payload[offset] == quote {
          r := CloseQuoted(quote, value, startLine);
          return;
        }
        var next, problem := ParseQuotedByte(quote, startLine);
        if problem.Some? {
          return Err(problem.value);
        }
        QuotedStep(s, quote, next, Rest(), value);
        value := value + [next];
      }
      return Err(Problem(Unterminated, Some(startLine)));
    }

    /** One byte of a quoted value: a line end, an escape or the byte itself. */
    method ParseQuotedByte(quote: byte, startLine: nat) returns (next: byte, problem: Option<Problem>)
      requires Valid() && quote in {SINGLE, DOUBLE} && offset < |payload| && payload[offset] != quote
      modifies this
      ensures Valid() && offset >= old(offset)
      ensures problem.None? ==> offset > old(offset)
                                && Quoted(old(Rest()), quote) == Prepend([next], Quoted(Rest(), quote))
      ensures problem.Some? ==>
                && problem.value.line == Some(LineFor(problem.value.code, startLine))
                && Quoted(old(Rest()), quote) == Err(problem.value.code)
    {
      RestStep(payload, offset);
      next := payload[offset];
      if AtEnd() {
        problem := ConsumeLineEnd();
        return LF, problem;
      }
      offset := offset + 1;
      if quote != DOUBLE || next != BACKSLASH {
        return next, None;
      }
      if offset == |payload| {
        return next, Some(Problem(UnterminatedEscape, Some(startLine)));
      }
      RestStep(payload, offset);
      var escaped := Unescape(payload[offset]);
      if escaped.None? {
        return next, Some(Problem(InvalidEscape, Some(startLine)));
      }
      offset := offset + 1;
      return escaped.value, None;
    }

    /** Advance to the end of an unquoted value. */
    method ScanUnquoted(spaced: bool)
      requires Valid()
      modifies this
      ensures Valid() && line == old(line) && offset == old(offset) + UnquotedLength(old(Rest()), spaced)
    {
      var blank := spaced;
      while !AtEnd() && !(payload[offset] == HASH && blank)
        invariant Valid() && line == old(line) && old(offset) <= offset
        invariant old(offset) + UnquotedLength(old(Rest()), spaced) == offset + UnquotedLength(Rest(), blank)
        decreases |payload| - offset
      {
        RestStep(payload, offset);
        blank := IsSpace(payload[offset]);
        offset := offset + 1;
      }
    }

    method ParseUnquoted(spaced: bool) returns (r: Result<Bytes, Problem>)
      requires Valid()
      modifies this
      ensures Valid() && offset >= old(offset)
      ensures
        var s := old(Rest());
        var n := UnquotedLength(s, spaced);
        match AfterLineEnd(AfterComment(s[n..]))
        case Ok(rest) => r == Ok(TrimEnd(AfterSpace(s[..n]))) && Rest() == rest
        case Err(code) => r == Err(Problem(code, Some(line)))
    {
      var start := offset;
      ghost var s := Rest();
      ScanUnquoted(spaced);
      assert payload[start..offset] == s[..offset - start];
      assert Rest() == s[offset - start..];
      var value := TrimEnd(AfterSpace(payload[start..offset]));
      SkipComment();
      var failed := ConsumeLineEnd();
      return if failed.Some? then Err(failed.value) else Ok(value);
    }

    method ParseValue(startLine: nat, spaced: bool) returns (r: Result<Bytes, Problem>)
      requires Valid()
      modifies this
      ensures Valid() && offset >= old(offset)
      ensures match Value(old(Rest()), spaced)
              case Ok(p) => r == Ok(p.value) && Rest() == p.rest
              case Err(code) => r == Err(Problem(code, Some(LineFor(code, startLine))))
    {
      if AtEnd() {
        var failed := ConsumeLineEnd();
        return if failed.Some? then Err(failed.value) else Ok([]);
      }
      RestStep(payload, offset);
      var quote := payload[offset];
      if quote == SINGLE || quote == DOUBLE {
        offset := offset + 1;
        r := ParseQuoted(quote, startLine);
      } else {
        r := ParseUnquoted(spaced);
      }
    }

    method SkipKey()
      requires Valid()
      modifies this
      ensures Valid() && line == old(line) && offset == old(offset) + KeyLength(old(Rest()))
    {
      while offset < |payload| && ContinuesKey(payload[offset])
        invariant Valid() && line == old(line) && old(offset) <= offset
        invariant offset + KeyLength(Rest()) == old(offset) + KeyLength(old(Rest()))
      {
        RestStep(payload, offset);
        offset := offset + 1;
      }
    }

    method SkipExport()
      requires Valid()
      modifies this
      ensures Valid() && line == old(line)
      ensures Rest() == AfterExport(old(Rest()))
    {
      if HasExport(Rest()) {
        ghost var s := Rest();
        assert forall i :: 0 <= i < 6 ==> payload[offset + i] == Export()[i] && payload[offset + i] != LF;
        LinesGrow(payload, offset, offset + 6);
        offset := offset + |Export()|;
        assert Rest() == s[6..];
        SkipHorizontalSpace();
      }
    }

    method SkipEquals() returns (found: bool)
      requires Valid()
      modifies this
      ensures Valid() && offset >= old(offset) && line == old(line)
      ensures found == AfterEquals(old(Rest())).Some?
      ensures found ==> Rest() == AfterEquals(old(Rest())).value
    {
      SkipHorizontalSpace();
      if offset == |payload| || payload[offset] != EQUALS {
        return false;
      }
      RestStep(payload, offset);
      offset := offset + 1;
      return true;
    }

    method ParseKey() returns (r: Result<Bytes, Problem>)
      requires Valid()
      modifies this
      ensures Valid() && offset >= old(offset) && line == old(line)
      ensures match KeyAndEquals(old(Rest()))
              case Ok(p) => r == Ok(p.value) && Rest() == p.rest
              case Err(code) => r == Err(Problem(code, Some(line)))
    {
      if offset == |payload| || !StartsKey(payload[offset]) {
        return Err(Problem(InvalidName, Some(line)));
      }
      var nameStart := offset;
      ghost var s := Rest();
      SkipKey();
      var name := payload[nameStart..offset];
      assert name == s[..KeyLength(s)] && Rest() == s[KeyLength(s)..];
      var found := SkipEquals();
      return if found then Ok(name) else Err(Problem(MissingEquals, Some(line)));
    }

    method ParseAssignment() returns (r: Result<Entry, Problem>)
      requires Valid()
      modifies this
      ensures Valid() && offset >= old(offset)
      ensures match Assignment(old(Rest()))
              case Ok(p) => r == Ok(Entry(p.value.name, p.value.value)) && Rest() == p.rest
              case Err(code) => r == Err(Problem(code, Some(LineFor(code, old(line)))))
    {
      var startLine := line;
      SkipExport();
      var name := ParseKey();
      if name.Err? {
        return Err(name.error);
      }
      var spaced := offset < |payload| && IsSpace(payload[offset]);
      SkipHorizontalSpace();
      var value := ParseValue(startLine, spaced);
      return if value.Ok? then Ok(Entry(name.value, value.value)) else Err(value.error);
    }

    /** Skip a blank line or a comment, or parse an assignment. */
    method ParseItem() returns (r: Result<Option<Entry>, Problem>)
      requires Valid()
      modifies this
      ensures Valid() && offset >= old(offset)
      ensures match Item(old(Rest()))
              case Ok(p) => r == Ok(p.value) && Rest() == p.rest
              case Err(code) => r == Err(Problem(code, Some(LineFor(code, old(line)))))
    {
      SkipHorizontalSpace();
      if AtEnd() || payload[offset] == HASH {
        SkipComment();
        var failed := ConsumeLineEnd();
        return if failed.Some? then Err(failed.value) else Ok(None);
      }
      var e := ParseAssignment();
      return if e.Ok? then Ok(Some(e.value)) else Err(e.error);
    }

    /** Whether the entry may be added, in the order in which the checks are made. */
    method Check(e: Entry, seen: set<Bytes>, ghost earlier: seq<Entry>, count: nat) returns (code: Option<Code>)
      requires count == |earlier| && seen == SeenNames(normalize, earlier)
      ensures code == Refusal(normalize, earlier, e)
    {
      if !NameSyntax(e.name) || |e.name| > MAX_KEY_SIZE {
        return Some(InvalidName);
      }
      if Reserved(e.name) {
        return Some(ReservedName);
      }
      if !ValidValue(e.value) {
        return Some(InvalidValue);
      }
      if normalize(e.name) in seen {
        return Some(Duplicate);
      }
      return if count + 1 > MAX_COUNT then Some(TooMany) else None;
    }

    /** Add the entry of an item, if it has one and is not refused. */
    method Add(item: Option<Entry>, entries: seq<Entry>, seen: set<Bytes>)
      returns (r: Result<seq<Entry>, Code>, names: set<Bytes>)
      requires seen == SeenNames(normalize, entries)
      ensures r == Added(normalize, entries, item)
      ensures r.Ok? ==> names == SeenNames(normalize, r.value)
    {
      if item.None? {
        return Ok(entries), seen;
      }
      var e := item.value;
      var refusal := Check(e, seen, entries, |entries|);
      if refusal.Some? {
        return Err(refusal.value), seen;
      }
      SeenStep(normalize, entries, e);
      return Ok(entries + [e]), seen + {normalize(e.name)};
    }

    /** Parse one item and add its entry, if it has one. */
    method ParseNext(entries: seq<Entry>, seen: set<Bytes>) returns (r: Result<seq<Entry>, Problem>, names: set<Bytes>)
      requires Valid() && offset < |payload| && seen == SeenNames(normalize, entries)
      modifies this
      ensures Valid() && offset >= old(offset)
      ensures match Advance(normalize, old(Rest()), entries)
              case Ok(p) => r == Ok(p.value) && Rest() == p.rest
              case Err(code) => r == Err(Problem(code, Some(LineFor(code, old(line)))))
      ensures r.Ok? ==> names == SeenNames(normalize, r.value)
    {
      var startLine := line;
      ghost var s := Rest();
      var item := ParseItem();
      if item.Err? {
        return Err(item.error), seen;
      }
      var more;
      more, names := Add(item.value, entries, seen);
      AdvanceIs(normalize, s, entries, Parsed(item.value, Rest()), more);
      r := if more.Ok? then Ok(more.value) else Err(Problem(more.error, Some(startLine)));
    }

    /** All entries, or the first problem, on the line where the refused item starts or its carriage return is. */
    method Parse() returns (r: Result<seq<Entry>, Problem>)
      requires Valid() && offset == 0
      modifies this
      ensures Valid()
      ensures Reports(payload, ReadingOf(normalize, payload, []), line, r)
      ensures r.Ok? ==> offset == |payload|
    {
      var entries: seq<Entry> := [];
      var seen: set<Bytes> := {};
      ghost var reading := ReadingOf(normalize, payload, []);
      assert payload[0..] == payload;
      while offset < |payload|
        invariant Valid() && seen == SeenNames(normalize, entries)
        invariant reading == ReadingOf(normalize, Rest(), entries)
        decreases |payload| - offset
      {
        ghost var start, startLine, rest := offset, line, Rest();
        ReadingStep(normalize, rest, entries);
        var next, names := ParseNext(entries, seen);
        if next.Err? {
          StopsHere(payload, start, startLine, reading, line);
          return Err(next.error);
        }
        entries, seen := next.value, names;
      }
      if TotalBytes(entries) > MAX_UNITS {
        return Err(Problem(TooLarge, None));
      }
      return Ok(entries);
    }
  }

  /**
   The entries read, or the problem for which reading stopped: on the line where the refused rest of
   the file starts, or where the parser has come to.
   */
  ghost predicate Reports(payload: Bytes, reading: Reading, line: nat, r: Result<seq<Entry>, Problem>) {
    match reading
    case Stopped(code, rest) =>
      && |rest| <= |payload|
      && var start := 1 + LinesBefore(payload, |payload| - |rest|);
      r == Err(Problem(code, Some(if code == BareCarriageReturn then line else start)))
    case Finished(entries) => r == if TotalBytes(entries) > MAX_UNITS then Err(Problem(TooLarge, None)) else Ok(entries)
  }

  /** Reading to the end, or to the item that is refused. */
  datatype Reading = Finished(entries: seq<Entry>) | Stopped(code: Code, rest: Bytes)

  ghost function ReadingOf(normalize: Normalizer, s: Bytes, earlier: seq<Entry>): Reading {
    match Entries(normalize, s, earlier)
    case Ok(entries) => Finished(entries)
    case Err(code) => Stopped(code, RefusedAt(normalize, s, earlier))
  }

  lemma StopsHere(payload: Bytes, start: nat, startLine: nat, reading: Reading, line: nat)
    requires start < |payload| && startLine == 1 + LinesBefore(payload, start)
    requires reading.Stopped? && reading.rest == payload[start..]
    ensures Reports(payload, reading, line,
                    Err(Problem(reading.code, Some(if reading.code == BareCarriageReturn then line else startLine))))
  {
    assert |payload[start..]| == |payload| - start;
  }

  lemma ReadingStep(normalize: Normalizer, s: Bytes, earlier: seq<Entry>)
    requires s != []
    ensures
      var next := Advance(normalize, s, earlier);
      ReadingOf(normalize, s, earlier) ==
      if next.Ok? then ReadingOf(normalize, next.value.rest, next.value.value) else Stopped(next.error, s)
  {
  }

  lemma SeenStep(normalize: Normalizer, entries: seq<Entry>, e: Entry)
    ensures SeenNames(normalize, entries + [e]) == SeenNames(normalize, entries) + {normalize(e.name)}
  {
  }

  function SeenNames(normalize: Normalizer, entries: seq<Entry>): set<Bytes> {
    set e | e in entries :: normalize(e.name)
  }

  method ParseWorkerEnvironment(payload: Bytes, normalize: Normalizer) returns (r: Result<seq<Entry>, Problem>)
    ensures match Meaning(normalize, payload)
            case Ok(entries) => r == Ok(entries)
            case Err(code) => r.Err? && r.error.code == code
  {
    if !WellFormed(payload) {
      return Err(Problem(InvalidEncoding, None));
    }
    if NUL in payload {
      return Err(Problem(ContainsNul, None));
    }
    var parser := new WorkerEnvironmentParser(AfterBom(payload), normalize);
    r := parser.Parse();
  }
}
