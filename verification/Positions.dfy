/** Byte offsets in UTF-8 text and positions in UTF-16 units, as editors send them. */
module Positions {
  import opened Prelude

  type Bytes = seq<byte>

  const LF: byte := 10
  const CR: byte := 13

  /** `character` counts UTF-16 units from the start of the line. */
  datatype Position = Position(line: nat, character: nat)

  // ---------------------------------------------------------------------------------------------
  // UTF-8, section 4 of RFC 3629
  // ---------------------------------------------------------------------------------------------

  datatype Rune = Rune(scalar: nat, size: nat) {
    /** A scalar beyond the basic plane takes a surrogate pair: section 2.1 of RFC 2781. */
    function Width(): nat {
      if scalar > 0xFFFF then 2 else 1
    }
  }

  predicate IsScalar(v: nat) {
    v < 0xD800 || 0xE000 <= v <= 0x10FFFF
  }

  predicate Tail(b: byte) {
    0x80 <= b <= 0xBF
  }

  predicate RuneStart(b: byte) {
    !Tail(b)
  }

  function Low(b: byte): nat
    requires Tail(b)
  {
    b as nat - 0x80
  }

  /** The second byte is narrower after some lead bytes, which leaves out surrogates and overlong forms. */
  predicate Second(lead: byte, b: byte) {
    (if lead == 0xE0 then 0xA0 else if lead == 0xF0 then 0x90 else 0x80) <= b
 <= (if lead == 0xED then 0x9F else if lead == 0xF4 then 0x8F else 0xBF)
  }

  /** The rune at the start of the bytes, unless they do not begin with a well-formed one. */
  function Decode(s: Bytes): (r: Option<Rune>)
    ensures r.Some? ==> 1 <= r.value.size <= 4 && r.value.size <= |s| && RuneStart(s[0])
    ensures r.Some? ==> forall i :: 1 <= i < r.value.size ==> Tail(s[i])
  {
    if s == [] then None
    else if s[0] < 0x80 then Some(Rune(s[0] as nat, 1))
    else if 0xC2 <= s[0] <= 0xDF then
      if |s| >= 2 && Tail(s[1]) then Some(Rune((s[0] as nat - 0xC0) * 0x40 + Low(s[1]), 2)) else None
    else if 0xE0 <= s[0] <= 0xEF then
      if |s| >= 3 && Second(s[0], s[1]) && Tail(s[2])
      then Some(Rune(((s[0] as nat - 0xE0) * 0x40 + Low(s[1])) * 0x40 + Low(s[2]), 3))
      else None
    else if 0xF0 <= s[0] <= 0xF4 then
      if |s| >= 4 && Second(s[0], s[1]) && Tail(s[2]) && Tail(s[3])
      then Some(Rune((((s[0] as nat - 0xF0) * 0x40 + Low(s[1])) * 0x40 + Low(s[2])) * 0x40 + Low(s[3]), 4))
      else None
    else None
  }

  /** The tail byte that holds the last six bits. */
  function TailOf(v: nat): byte {
    (0x80 + v % 0x40) as byte
  }

  function Encode(v: nat): Bytes
    requires IsScalar(v)
  {
    if v < 0x80 then [v as byte]
    else if v < 0x800 then [(0xC0 + v / 0x40) as byte, TailOf(v)]
    else if v < 0x10000 then [(0xE0 + v / 0x40 / 0x40) as byte, TailOf(v / 0x40), TailOf(v)]
    else [(0xF0 + v / 0x40 / 0x40 / 0x40) as byte, TailOf(v / 0x40 / 0x40), TailOf(v / 0x40), TailOf(v)]
  }

  lemma Digits(v: nat)
    ensures v / 0x40 * 0x40 + Low(TailOf(v)) == v
  {
  }

  /** Decoding inverts encoding, whatever follows. */
  lemma DecodeEncoded(v: nat, rest: Bytes)
    requires IsScalar(v)
    ensures Decode(Encode(v) + rest) == Some(Rune(v, |Encode(v)|))
  {
    Digits(v);
    Digits(v / 0x40);
    Digits(v / 0x40 / 0x40);
    var s, e := Encode(v) + rest, Encode(v);
    assert forall i :: 0 <= i < |e| ==> s[i] == e[i];
  }

  lemma Undigits(q: nat, b: byte)
    requires Tail(b)
    ensures (q * 0x40 + Low(b)) / 0x40 == q && TailOf(q * 0x40 + Low(b)) == b
  {
  }

  /** Only encoded scalars decode: surrogates, overlong forms and truncated runes do not. */
  lemma DecodedIsEncoded(s: Bytes)
    requires Decode(s).Some?
    ensures IsScalar(Decode(s).value.scalar) && s[..Decode(s).value.size] == Encode(Decode(s).value.scalar)
  {
    match Decode(s).value.size
    case 1 =>
    case 2 => Undigits(s[0] as nat - 0xC0, s[1]);
    case 3 => DecodedThree(s);
    case _ => DecodedFour(s);
  }

  lemma DecodedThree(s: Bytes)
    requires Decode(s).Some? && Decode(s).value.size == 3
    ensures IsScalar(Decode(s).value.scalar) && s[..3] == Encode(Decode(s).value.scalar)
  {
    var lead := s[0] as nat - 0xE0;
    Undigits(lead, s[1]);
    Undigits(lead * 0x40 + Low(s[1]), s[2]);
  }

  lemma DecodedFour(s: Bytes)
    requires Decode(s).Some? && Decode(s).value.size == 4
    ensures IsScalar(Decode(s).value.scalar) && s[..4] == Encode(Decode(s).value.scalar)
  {
    var lead := s[0] as nat - 0xF0;
    Undigits(lead, s[1]);
    Undigits(lead * 0x40 + Low(s[1]), s[2]);
    Undigits((lead * 0x40 + Low(s[1])) * 0x40 + Low(s[2]), s[3]);
  }

  /** A rune takes two units exactly when it has four bytes. */
  lemma WidthBySize(s: Bytes)
    requires Decode(s).Some?
    ensures Decode(s).value.Width() == if Decode(s).value.size == 4 then 2 else 1
  {
    DecodedIsEncoded(s);
  }

  /** Decoding looks no further than the rune. */
  lemma DecodeLocal(s: Bytes, n: nat)
    requires n <= |s|
    ensures Decode(s[..n]).Some? ==> Decode(s) == Decode(s[..n])
    ensures Decode(s).Some? && Decode(s).value.size <= n ==> Decode(s[..n]) == Decode(s)
  {
  }

  /** The UTF-16 units of well-formed text. */
  function Units(s: Bytes): Option<nat> {
    if s == [] then Some(0)
    else
      match Decode(s)
      case None => None
      case Some(r) => if Units(s[r.size..]).None? then None else Some(r.Width() + Units(s[r.size..]).value)
  }

  predicate WellFormed(s: Bytes) {
    Units(s).Some?
  }

  lemma DecodeBoth(a: Bytes, b: Bytes)
    requires Decode(a).Some?
    ensures Decode(a + b) == Decode(a)
  {
    assert (a + b)[..|a|] == a;
    DecodeLocal(a + b, |a|);
  }

  lemma {:induction false} UnitsOfBoth(a: Bytes, b: Bytes)
    requires Units(a).Some?
    ensures Units(a + b) == if Units(b).None? then None else Some(Units(a).value + Units(b).value)
    decreases |a|
  {
    if a == [] {
      assert a + b == b;
    } else {
      var size := Decode(a).value.size;
      DecodeBoth(a, b);
      assert (a + b)[size..] == a[size..] + b;
      UnitsOfBoth(a[size..], b);
    }
  }

  lemma SomeUnits(s: Bytes)
    requires s != [] && Units(s).Some?
    ensures Units(s).value >= Decode(s).value.Width() > 0
  {
  }

  lemma {:induction false} UnitsBounded(s: Bytes)
    requires Units(s).Some?
    ensures Units(s).value <= |s|
    decreases |s|
  {
    if s != [] {
      UnitsBounded(s[Decode(s).value.size..]);
      WidthBySize(s);
    }
  }

  /** A rune start splits well-formed text into two well-formed parts. */
  lemma {:induction false} SplitsAtRuneStart(s: Bytes, o: nat)
    requires WellFormed(s) && o <= |s| && (o == |s| || RuneStart(s[o]))
    ensures WellFormed(s[..o]) && WellFormed(s[o..])
    decreases |s|
  {
    if o == 0 {
      assert s[o..] == s;
    } else if o == |s| {
      assert s[..o] == s;
    } else {
      var size := Decode(s).value.size;
      var rest := s[size..];
      assert forall k :: 0 < k < size ==> Tail(s[k]);
      assert o < |s| ==> rest[o - size] == s[o];
      SplitsAtRuneStart(rest, o - size);
      DecodeLocal(s, o);
      assert s[..o][size..] == rest[..o - size];
      assert s[o..] == rest[o - size..];
    }
  }

  // ---------------------------------------------------------------------------------------------
  // Lines
  // ---------------------------------------------------------------------------------------------

  /** The line feeds before the offset. */
  function LinesBefore(s: Bytes, o: nat): nat
    requires o <= |s|
  {
    if o == 0 then 0 else LinesBefore(s, o - 1) + if s[o - 1] == LF then 1 else 0
  }

  /** Where the offset's line starts. */
  function LineStart(s: Bytes, o: nat): (start: nat)
    requires o <= |s|
    ensures start <= o && (start == 0 || s[start - 1] == LF) && forall i :: start <= i < o ==> s[i] != LF
  {
    if o == 0 || s[o - 1] == LF then o else LineStart(s, o - 1)
  }

  lemma {:induction false} LinesGrow(s: Bytes, a: nat, b: nat)
    requires a <= b <= |s|
    ensures LinesBefore(s, a) <= LinesBefore(s, b) <= LinesBefore(s, a) + (b - a)
    ensures LinesBefore(s, a) == LinesBefore(s, b) <==> forall i :: a <= i < b ==> s[i] != LF
  {
    if a < b {
      LinesGrow(s, a, b - 1);
    }
  }

  lemma SameLineSameStart(s: Bytes, a: nat, b: nat)
    requires a <= b <= |s| && LinesBefore(s, a) == LinesBefore(s, b)
    ensures LineStart(s, a) == LineStart(s, b)
  {
    LinesGrow(s, a, b);
    assert forall i :: a <= i < b ==> s[i] != LF;
  }

  /** Between the two bytes of a CR LF pair. */
  predicate SplitsLineEnd(s: Bytes, o: nat) {
    0 < o < |s| && s[o - 1] == CR && s[o] == LF
  }

  // ---------------------------------------------------------------------------------------------
  // Positions
  // ---------------------------------------------------------------------------------------------

  /** Line feeds before the offset, and units since the last of them. */
  function PlaceOf(s: Bytes, o: nat): Option<Position>
    requires o <= |s|
  {
    match Units(s[LineStart(s, o)..o])
    case None => None
    case Some(units) => Some(Position(LinesBefore(s, o), units))
  }

  /** The offset that the position denotes. */
  predicate Denotes(s: Bytes, p: Position, o: int) {
    0 <= o <= |s| && PlaceOf(s, o) == Some(p) && !SplitsLineEnd(s, o)
  }

  /** The position reported for the offset. */
  function PositionOf(s: Bytes, o: int): Option<Position> {
    if o < 0 || o > |s| || (o < |s| && !RuneStart(s[o])) then None else PlaceOf(s, o)
  }

  /** Different offsets have different places. */
  lemma PlacesDiffer(s: Bytes, a: nat, b: nat)
    requires a < b <= |s| && PlaceOf(s, a).Some?
    ensures PlaceOf(s, a) != PlaceOf(s, b)
  {
    if LinesBefore(s, a) == LinesBefore(s, b) && PlaceOf(s, b).Some? {
      SameLineSameStart(s, a, b);
      var start := LineStart(s, a);
      assert s[start..b] == s[start..a] + s[a..b];
      UnitsOfBoth(s[start..a], s[a..b]);
      SomeUnits(s[a..b]);
    }
  }

  lemma PositionsInRange(s: Bytes, o: nat)
    requires o <= |s| && PlaceOf(s, o).Some?
    ensures PlaceOf(s, o).value.line <= |s| && PlaceOf(s, o).value.character <= |s|
  {
    LinesGrow(s, 0, o);
    UnitsBounded(s[LineStart(s, o)..o]);
  }

  method PositionAt(s: Bytes, offset: int) returns (r: Option<Position>)
    ensures r == PositionOf(s, offset)
  {
    if offset < 0 || offset > |s| || (offset < |s| && !RuneStart(s[offset])) {
      return None;
    }
    var line, start := 0, 0;
    for i := 0 to offset
      invariant line == LinesBefore(s, i) && start == LineStart(s, i)
    {
      if s[i] == LF {
        line, start := line + 1, i + 1;
      }
    }
    var character := CountUnits(s, start, offset);
    return if character.None? then None else Some(Position(line, character.value));
  }

  /** The units between two offsets. */
  method CountUnits(s: Bytes, start: nat, end: nat) returns (r: Option<nat>)
    requires start <= end <= |s|
    ensures r == Units(s[start..end])
  {
    var character, i := 0, start;
    assert s[start..start] == [];
    while i < end
      invariant start <= i <= end && Units(s[start..i]) == Some(character)
    {
      var rune := Decode(s[i..end]);
      if rune.None? {
        UndecodableUnits(s, start, i, end);
        return None;
      }
      UnitsStep(s, start, i, end);
      character := character + rune.value.Width();
      i := i + rune.value.size;
    }
    return Some(character);
  }

  lemma UndecodableUnits(s: Bytes, start: nat, i: nat, end: nat)
    requires start <= i < end <= |s| && Units(s[start..i]).Some? && Decode(s[i..end]).None?
    ensures Units(s[start..end]).None?
  {
    UnitsBetween(s, start, i, end);
  }

  lemma RuneUnits(s: Bytes, size: nat)
    requires Decode(s).Some? && Decode(s).value.size == size
    ensures Units(s[..size]) == Some(Decode(s).value.Width())
  {
    DecodeLocal(s, size);
    assert s[..size][size..] == [];
  }

  lemma UnitsStep(s: Bytes, start: nat, i: nat, end: nat)
    requires start <= i < end <= |s| && Units(s[start..i]).Some? && Decode(s[i..end]).Some?
    ensures
      var rune := Decode(s[i..end]).value;
      i + rune.size <= end && Units(s[start..i + rune.size]) == Some(Units(s[start..i]).value + rune.Width())
  {
    var size := Decode(s[i..end]).value.size;
    RuneUnits(s[i..end], size);
    assert s[i..end][..size] == s[i..i + size];
    UnitsBetween(s, start, i, i + size);
  }

  /** The bounds of a line, without its line end. */
  predicate IsLine(s: Bytes, line: nat, start: nat, end: nat) {
    && start <= end <= |s| && LinesBefore(s, end) == line && LineStart(s, end) == start
    && !SplitsLineEnd(s, end)
    && (end == |s| || s[end] == LF || SplitsLineEnd(s, end + 1))
  }

  method LineBounds(s: Bytes, target: nat) returns (r: Option<(nat, nat)>)
    ensures r.Some? ==> IsLine(s, target, r.value.0, r.value.1)
    ensures r.None? ==> LinesBefore(s, |s|) < target
  {
    var line, start := 0, 0;
    for i := 0 to |s|
      invariant line == LinesBefore(s, i) <= target && start == LineStart(s, i)
    {
      if s[i] != LF {
        continue;
      }
      if line == target {
        var end := i;
        if end > start && s[end - 1] == CR {
          end := end - 1;
        }
        return Some((start, end));
      }
      line, start := line + 1, i + 1;
    }
    if line == target {
      return Some((start, |s|));
    }
    return None;
  }

  /** The offsets on a line are those within its bounds, and one inside its line end. */
  lemma OnLine(s: Bytes, line: nat, start: nat, end: nat, o: nat)
    requires IsLine(s, line, start, end) && o <= |s|
    ensures LinesBefore(s, o) == line && !SplitsLineEnd(s, o) <==> start <= o <= end
    ensures start <= o <= end ==> LineStart(s, o) == start
  {
    if start <= o <= end {
      LinesGrow(s, o, end);
      SameLineSameStart(s, o, end);
    } else if o < start {
      LinesGrow(s, o, start);
      LinesGrow(s, start, end);
    } else {
      LinesGrow(s, end, o);
    }
  }

  lemma UnitsBetween(s: Bytes, start: nat, i: nat, o: nat)
    requires start <= i <= o <= |s| && Units(s[start..i]).Some?
    ensures Units(s[start..o]) == if Units(s[i..o]).None? then None
                                  else Some(Units(s[start..i]).value + Units(s[i..o]).value)
  {
    var a, b := s[start..i], s[i..o];
    assert s[start..o] == a + b;
    UnitsOfBoth(a, b);
  }

  lemma FirstRune(s: Bytes, i: nat, o: nat, end: nat)
    requires i < o <= end <= |s| && Units(s[i..o]).Some?
    ensures Decode(s[i..end]).Some? && Decode(s[i..end]).value.Width() <= Units(s[i..o]).value
  {
    SomeUnits(s[i..o]);
    assert s[i..end][..o - i] == s[i..o];
    DecodeLocal(s[i..end], o - i);
  }

  /** An offset with more units lies further on, past the next rune. */
  lemma NothingBeyond(s: Bytes, start: nat, i: nat, end: nat, units: nat, o: nat)
    requires start <= i < end <= |s| && Units(s[start..i]).Some? && Units(s[start..i]).value < units
    requires start <= o <= end && Units(s[start..o]) == Some(units)
    ensures i < o && Decode(s[i..end]).Some? && Units(s[start..i]).value + Decode(s[i..end]).value.Width() <= units
  {
    if o <= i {
      UnitsBetween(s, start, o, i);
    } else {
      UnitsBetween(s, start, i, o);
      FirstRune(s, i, o, end);
    }
  }

  method ByteOffset(s: Bytes, p: Position) returns (r: Option<nat>)
    ensures forall o :: Denotes(s, p, o) <==> r == Some(o)
  {
    var bounds := LineBounds(s, p.line);
    if bounds.None? {
      forall o | 0 <= o <= |s| ensures LinesBefore(s, o) != p.line {
        LinesGrow(s, o, |s|);
      }
      return None;
    }
    var (start, end) := bounds.value;
    r := OffsetInLine(s, start, end, p.character);
    forall o ensures Denotes(s, p, o) == HasUnits(s, start, end, p.character, o) {
      if 0 <= o <= |s| {
        OnLine(s, p.line, start, end, o);
      }
    }
  }

  /** The offset has so many units before it in the line. */
  predicate HasUnits(s: Bytes, start: nat, end: nat, units: nat, o: int)
    requires start <= end <= |s|
  {
    start <= o <= end && Units(s[start..o]) == Some(units)
  }

  /** The offset within the line that has so many units before it. */
  method OffsetInLine(s: Bytes, start: nat, end: nat, character: nat) returns (r: Option<nat>)
    requires start <= end <= |s|
    ensures forall o :: HasUnits(s, start, end, character, o) <==> r == Some(o)
  {
    var units, i := 0, start;
    assert s[start..start] == [];
    while i < end
      invariant start <= i <= end && Units(s[start..i]) == Some(units) && units <= character
    {
      if units == character {
        break;
      }
      var rune := Decode(s[i..end]);
      if rune.None? || units + rune.value.Width() > character {
        NoOffset(s, start, i, end, character);
        return None;
      }
      UnitsStep(s, start, i, end);
      units := units + rune.value.Width();
      i := i + rune.value.size;
    }
    OnlyOffset(s, start, i, end, character);
    return if units == character then Some(i) else None;
  }

  /** If the next rune cannot be decoded or is too wide, no offset has so many units. */
  lemma NoOffset(s: Bytes, start: nat, i: nat, end: nat, character: nat)
    requires start <= i < end <= |s| && Units(s[start..i]).Some? && Units(s[start..i]).value < character
    requires Decode(s[i..end]).None? || Units(s[start..i]).value + Decode(s[i..end]).value.Width() > character
    ensures forall o :: !HasUnits(s, start, end, character, o)
  {
    forall o | HasUnits(s, start, end, character, o) ensures false {
      NothingBeyond(s, start, i, end, character, o);
    }
  }

  /** Where the units are reached, or the line ends, there is no other offset with so many. */
  lemma OnlyOffset(s: Bytes, start: nat, i: nat, end: nat, character: nat)
    requires start <= i <= end <= |s| && Units(s[start..i]).Some?
    requires Units(s[start..i]).value == character || (i == end && Units(s[start..i]).value < character)
    ensures forall o :: HasUnits(s, start, end, character, o) <==> o == i && Units(s[start..i]) == Some(character)
  {
    forall o | HasUnits(s, start, end, character, o) && o != i ensures false {
      UnitsDiffer(s, start, i, end, o);
    }
  }

  lemma UnitsDiffer(s: Bytes, start: nat, i: nat, end: nat, o: nat)
    requires start <= i <= end <= |s| && start <= o <= end && o != i && Units(s[start..i]).Some?
             && Units(s[start..o]).Some?
    ensures if o < i then Units(s[start..o]).value < Units(s[start..i]).value
            else Units(s[start..i]).value < Units(s[start..o]).value
  {
    var a, b := if o < i then o else i, if o < i then i else o;
    UnitsBetween(s, start, a, b);
    SomeUnits(s[a..b]);
  }

  // ---------------------------------------------------------------------------------------------
  // Round trips
  // ---------------------------------------------------------------------------------------------

  /**
   An offset that has a position is found again from it, except inside a CR LF pair, where the
   position is rejected.
   */
  lemma OffsetRoundTrip(s: Bytes, o: int, p: Position, found: Option<nat>)
    requires PositionOf(s, o) == Some(p)
    requires forall k :: Denotes(s, p, k) <==> found == Some(k)
    ensures found == if 0 < o < |s| && s[o - 1] == 13 && s[o] == 10 then None else Some(o)
  {
    if found.Some? {
      assert Denotes(s, p, found.value);
      if found.value < o {
        PlacesDiffer(s, found.value, o);
      } else if o < found.value {
        PlacesDiffer(s, o, found.value);
      }
    }
    assert !SplitsLineEnd(s, o) ==> Denotes(s, p, o);
  }

  /** A position that has an offset is reported for it again, if and only if the offset is at a rune start. */
  lemma PositionRoundTrip(s: Bytes, p: Position, o: nat)
    requires Denotes(s, p, o)
    ensures PositionOf(s, o) == Some(p) <==> o == |s| || RuneStart(s[o])
  {
  }

  /** It can fail: a stray tail byte has an offset for the first position, but no position for that offset. */
  lemma StrayTail()
    ensures Denotes([0x80], Position(0, 0), 0) && PositionOf([0x80], 0).None? && !WellFormed([0x80])
  {
    assert [0x80 as byte][0..0] == [];
  }

  /** In well-formed text every offset that a position denotes is a rune boundary. */
  lemma WellFormedRoundTrip(s: Bytes, p: Position, o: nat)
    requires WellFormed(s) && Denotes(s, p, o)
    ensures PositionOf(s, o) == Some(p)
  {
    if o < |s| {
      var start := LineStart(s, o);
      StartsAreWellFormed(s, start);
      assert s[start..] == s[start..o] + s[o..];
      UnitsOfBoth(s[start..o], s[o..]);
      assert Decode(s[o..]).Some?;
    }
  }

  lemma StartsAreWellFormed(s: Bytes, start: nat)
    requires WellFormed(s) && start <= |s| && (start == 0 || s[start - 1] == LF)
    ensures WellFormed(s[start..])
  {
    if start == 0 {
      assert s[start..] == s;
    } else {
      SplitsAtRuneStart(s, start - 1);
      assert s[start - 1..][1..] == s[start..];
    }
  }

  /** In well-formed text every rune boundary has a position. */
  lemma BoundariesHavePositions(s: Bytes, o: nat)
    requires WellFormed(s) && o <= |s| && (o == |s| || RuneStart(s[o]))
    ensures PositionOf(s, o).Some?
  {
    SplitsAtRuneStart(s, o);
    var start := LineStart(s, o);
    StartsAreWellFormed(s[..o], start);
    assert s[..o][start..] == s[start..o];
  }
}
