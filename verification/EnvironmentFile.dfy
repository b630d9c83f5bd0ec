/** The environment file of the worker: its grammar, its parser, and a way to write it. */
module EnvironmentFile {
  import opened Prelude
  import opened Positions

  const MAX_COUNT := 256
  const MAX_KEY_SIZE := 256
  const MAX_VALUE_SIZE := 16 * 1024
  const MAX_UNITS := 30000
  const MAX_FILE_SIZE := 256 * 1024

  const NUL: byte := 0
  const TAB: byte := 9
  const SPACE: byte := 32
  const DOUBLE: byte := 34 // '"'
  const HASH: byte := 35 // '#'
  const SINGLE: byte := 39 // '\''
  const EQUALS: byte := 61 // '='
  const BACKSLASH: byte := 92 // '\\'
  const UNDERSCORE: byte := 95 // '_'

  datatype Entry = Entry(name: Bytes, value: Bytes)

  datatype Code =
    | InvalidEncoding | ContainsNul
    | InvalidName | ReservedName | MissingEquals | InvalidValue | Duplicate | TooMany | TooLarge
    | BareCarriageReturn | MissingLineEnd | TrailingText | Unterminated | UnterminatedEscape | InvalidEscape

  /** How names are compared: as they are, or without regard to case where the system does so. */
  type Normalizer = Bytes -> Bytes

  // ---------------------------------------------------------------------------------------------
  // Names and values
  // ---------------------------------------------------------------------------------------------

  predicate IsSpace(b: byte) {
    b == SPACE || b == TAB
  }

  predicate StartsKey(b: byte) {
    b == UNDERSCORE || 65 <= b <= 90 || 97 <= b <= 122
  }

  predicate ContinuesKey(b: byte) {
    StartsKey(b) || 48 <= b <= 57
  }

  predicate NameSyntax(name: Bytes) {
    name != [] && StartsKey(name[0]) && forall i :: 0 < i < |name| ==> ContinuesKey(name[i])
  }

  /** The bytes of ASCII text. */
  function Ascii(text: string): Bytes {
    seq(|text|, i requires 0 <= i < |text| => (text[i] as int % 128) as byte)
  }

  function Lower(name: Bytes): Bytes {
    seq(|name|, i requires 0 <= i < |name| => if 65 <= name[i] <= 90 then name[i] + 32 else name[i])
  }

  predicate Reserved(name: Bytes) {
    var lower := Lower(name);
    || Ascii("pogo_worker_") <= lower
    || lower in {Ascii("pythondontwritebytecode"), Ascii("pythonunbuffered"), Ascii("pythonutf8"), Ascii("tmpdir"),
                 Ascii("tmp"), Ascii("temp"), Ascii("systemroot")}
  }

  predicate ValidName(name: Bytes) {
    NameSyntax(name) && |name| <= MAX_KEY_SIZE && !Reserved(name)
  }

  /** The size bound also bounds the UTF-16 units, which are never more than the bytes. */
  predicate ValidValue(value: Bytes) {
    WellFormed(value) && NUL !in value && |value| <= MAX_VALUE_SIZE && Units(value).value <= MAX_VALUE_SIZE
  }

  function TotalBytes(entries: seq<Entry>): nat {
    if entries == [] then 1
    else
      var e := entries[|entries| - 1];
      TotalBytes(entries[..|entries| - 1]) + |e.name| + 1 + |e.value| + 1
  }

  /** No two entries have the same name. */
  predicate NamesDistinct(normalize: Normalizer, entries: seq<Entry>) {
    forall i, j :: 0 <= i < j < |entries| ==> normalize(entries[i].name) != normalize(entries[j].name)
  }

  predicate ValidEntries(normalize: Normalizer, entries: seq<Entry>) {
    && (forall i :: 0 <= i < |entries| ==> ValidName(entries[i].name) && ValidValue(entries[i].value))
    && NamesDistinct(normalize, entries)
    && |entries| <= MAX_COUNT
  }

  // ---------------------------------------------------------------------------------------------
  // The grammar, on what is left of the file
  // ---------------------------------------------------------------------------------------------

  function AfterSpace(s: Bytes): (r: Bytes)
    ensures |r| <= |s| && (r == [] || !IsSpace(r[0]))
  {
    if s != [] && IsSpace(s[0]) then AfterSpace(s[1..]) else s
  }

  predicate AtLineEnd(s: Bytes) {
    s == [] || s[0] == LF || s[0] == CR
  }

  function AfterComment(s: Bytes): (r: Bytes)
    ensures |r| <= |s| && AtLineEnd(r)
  {
    if AtLineEnd(s) then s else AfterComment(s[1..])
  }

  /** A line ends with LF or CR LF, or with the file. */
  function AfterLineEnd(s: Bytes): (r: Result<Bytes, Code>)
    ensures r.Ok? ==> |r.value| <= |s| && (s != [] ==> |r.value| < |s|)
  {
    if s == [] then Ok(s)
    else if s[0] == CR then (if |s| < 2 || s[1] != LF then Err(BareCarriageReturn) else Ok(s[2..]))
    else if s[0] == LF then Ok(s[1..])
    else Err(MissingLineEnd)
  }

  function Unescape(b: byte): Option<byte> {
    if b == BACKSLASH || b == DOUBLE then Some(b)
    else if b == 110 then Some(LF)
    else if b == 114 then Some(CR)
    else if b == 116 then Some(TAB)
    else None
  }

  datatype Parsed<T> = Parsed(value: T, rest: Bytes)

  function Prepend(bytes: Bytes, r: Result<Parsed<Bytes>, Code>): Result<Parsed<Bytes>, Code> {
    match r
    case Err(e) => Err(e)
    case Ok(p) => Ok(Parsed(bytes + p.value, p.rest))
  }

  /** After the closing quote: space, a comment, the end of the line. */
  function AfterQuote(s: Bytes): (r: Result<Bytes, Code>)
    ensures r.Ok? ==> |r.value| <= |s|
  {
    var t := AfterSpace(s);
    var u := if t != [] && t[0] == HASH then AfterComment(t) else t;
    if AtLineEnd(u) then AfterLineEnd(u) else Err(TrailingText)
  }

  /** A quoted value may span lines; only double quotes allow escapes. */
  function Quoted(s: Bytes, quote: byte): (r: Result<Parsed<Bytes>, Code>)
    ensures r.Ok? ==> |r.value.rest| <= |s|
    decreases |s|
  {
    if s == [] then Err(Unterminated)
    else if s[0] == quote then
      match AfterQuote(s[1..])
      case Err(e) => Err(e)
      case Ok(rest) => Ok(Parsed([], rest))
    else if AtLineEnd(s) then
      match AfterLineEnd(s)
      case Err(e) => Err(e)
      case Ok(rest) => Prepend([LF], Quoted(rest, quote))
    else if quote == DOUBLE && s[0] == BACKSLASH then
      if |s| < 2 then Err(UnterminatedEscape)
      else
        match Unescape(s[1])
        case None => Err(InvalidEscape)
        case Some(b) => Prepend([b], Quoted(s[2..], quote))
    else Prepend([s[0]], Quoted(s[1..], quote))
  }

  /** An unquoted value ends at the line end, or at a "#" after a space. */
  function UnquotedLength(s: Bytes, spaced: bool): (n: nat)
    ensures n <= |s| && LF !in s[..n]
  {
    if AtLineEnd(s) || (s[0] == HASH && spaced) then 0
    else
      var n := UnquotedLength(s[1..], IsSpace(s[0]));
      assert s[..n + 1] == [s[0]] + s[1..][..n];
      n + 1
  }

  function TrimEnd(s: Bytes): Bytes {
    if s != [] && IsSpace(s[|s| - 1]) then TrimEnd(s[..|s| - 1]) else s
  }

  function Value(s: Bytes, spaced: bool): (r: Result<Parsed<Bytes>, Code>)
    ensures r.Ok? ==> |r.value.rest| <= |s|
  {
    if AtLineEnd(s) then
      match AfterLineEnd(s)
      case Err(e) => Err(e)
      case Ok(rest) => Ok(Parsed([], rest))
    else if s[0] == SINGLE || s[0] == DOUBLE then Quoted(s[1..], s[0])
    else
      var n := UnquotedLength(s, spaced);
      match AfterLineEnd(AfterComment(s[n..]))
      case Err(e) => Err(e)
      case Ok(rest) => Ok(Parsed(TrimEnd(AfterSpace(s[..n])), rest))
  }

  function KeyLength(s: Bytes): (n: nat)
    ensures n <= |s| && (forall i :: 0 <= i < n ==> ContinuesKey(s[i])) && (n == |s| || !ContinuesKey(s[n]))
  {
    if s == [] || !ContinuesKey(s[0]) then 0 else 1 + KeyLength(s[1..])
  }

  function Export(): Bytes {
    Ascii("export")
  }

  predicate HasExport(s: Bytes) {
    Export() <= s && |s| > |Export()| && IsSpace(s[|Export()|])
  }

  function AfterEquals(s: Bytes): (r: Option<Bytes>)
    ensures r.Some? ==> |r.value| < |s|
  {
    var t := AfterSpace(s);
    if t == [] || t[0] != EQUALS then None else Some(t[1..])
  }

  /** A name and "=". */
  function KeyAndEquals(s: Bytes): (r: Result<Parsed<Bytes>, Code>)
    ensures r.Ok? ==> |r.value.rest| < |s|
    ensures r.Err? ==> r.error in {InvalidName, MissingEquals}
  {
    if s == [] || !StartsKey(s[0]) then Err(InvalidName)
    else
      var n := KeyLength(s);
      match AfterEquals(s[n..])
      case None => Err(MissingEquals)
      case Some(rest) => Ok(Parsed(s[..n], rest))
  }

  function AfterExport(s: Bytes): (r: Bytes)
    ensures |r| <= |s|
  {
    if HasExport(s) then AfterSpace(s[|Export()|..]) else s
  }

  function Assignment(s: Bytes): (r: Result<Parsed<Entry>, Code>)
    ensures r.Ok? ==> |r.value.rest| < |s|
  {
    match KeyAndEquals(AfterExport(s))
    case Err(e) => Err(e)
    case Ok(name) =>
      match Value(AfterSpace(name.rest), name.rest != [] && IsSpace(name.rest[0]))
      case Err(e) => Err(e)
      case Ok(p) => Ok(Parsed(Entry(name.value, p.value), p.rest))
  }

  /** A blank line or a comment, or an assignment. */
  function Item(s: Bytes): (r: Result<Parsed<Option<Entry>>, Code>)
    ensures r.Ok? && s != [] ==> |r.value.rest| < |s|
  {
    var t := AfterSpace(s);
    if AtLineEnd(t) || t[0] == HASH then
      match AfterLineEnd(AfterComment(t))
      case Err(e) => Err(e)
      case Ok(rest) => Ok(Parsed(None, rest))
    else
      match Assignment(t)
      case Err(e) => Err(e)
      case Ok(p) => Ok(Parsed(Some(p.value), p.rest))
  }

  /** Whether the entry may follow the earlier ones. */
  function Refusal(normalize: Normalizer, earlier: seq<Entry>, e: Entry): Option<Code> {
    if !NameSyntax(e.name) || |e.name| > MAX_KEY_SIZE then Some(InvalidName)
    else if Reserved(e.name) then Some(ReservedName)
    else if !ValidValue(e.value) then Some(InvalidValue)
    else if exists i :: 0 <= i < |earlier| && normalize(earlier[i].name) == normalize(e.name) then Some(Duplicate)
    else if |earlier| + 1 > MAX_COUNT then Some(TooMany)
    else None
  }

  /** The entries with one more, unless it is refused. */
  function Accepted(normalize: Normalizer, earlier: seq<Entry>, e: Entry): Result<seq<Entry>, Code> {
    match Refusal(normalize, earlier, e)
    case Some(code) => Err(code)
    case None => Ok(earlier + [e])
  }

  function Added(normalize: Normalizer, earlier: seq<Entry>, item: Option<Entry>): Result<seq<Entry>, Code> {
    if item.None? then Ok(earlier) else Accepted(normalize, earlier, item.value)
  }

  /** The entries after one more item, and what is left. */
  function Advance(normalize: Normalizer, s: Bytes, earlier: seq<Entry>): (r: Result<Parsed<seq<Entry>>, Code>)
    ensures r.Ok? && s != [] ==> |r.value.rest| < |s|
  {
    match Item(s)
    case Err(e) => Err(e)
    case Ok(p) =>
      match Added(normalize, earlier, p.value)
      case Err(e) => Err(e)
      case Ok(entries) => Ok(Parsed(entries, p.rest))
  }

  /** The entries to the end of the file, after the earlier ones. */
  function Entries(normalize: Normalizer, s: Bytes, earlier: seq<Entry>): Result<seq<Entry>, Code>
    decreases |s|
  {
    if s == [] then Ok(earlier)
    else
      match Advance(normalize, s, earlier)
      case Err(e) => Err(e)
      case Ok(p) => Entries(normalize, p.rest, p.value)
  }

  /** What is left of the file at the item that is refused. */
  function RefusedAt(normalize: Normalizer, s: Bytes, earlier: seq<Entry>): (r: Bytes)
    requires Entries(normalize, s, earlier).Err?
    ensures |r| <= |s|
    decreases |s|
  {
    match Advance(normalize, s, earlier)
    case Err(_) => s
    case Ok(p) => RefusedAt(normalize, p.rest, p.value)
  }

  function Bom(): Bytes {
    [0xEF, 0xBB, 0xBF]
  }

  function AfterBom(payload: Bytes): Bytes {
    if Bom() <= payload then payload[3..] else payload
  }

  /** What the file says. */
  function Meaning(normalize: Normalizer, payload: Bytes): Result<seq<Entry>, Code> {
    if !WellFormed(payload) then Err(InvalidEncoding)
    else if NUL in payload then Err(ContainsNul)
    else
      match Entries(normalize, AfterBom(payload), [])
      case Err(e) => Err(e)
      case Ok(entries) => if TotalBytes(entries) > MAX_UNITS then Err(TooLarge) else Ok(entries)
  }
}
