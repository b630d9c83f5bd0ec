/** The mask told by the tokens of the text: comments, strings, triple-quoted strings and code. */
module CodeMaskTheorems {
  import opened Prelude
  import opened CodeMask

  // ---------------------------------------------------------------------------------------------
  // Text made of tokens
  // ---------------------------------------------------------------------------------------------

  datatype Token =
    | Plain(b: byte)
    | Remark(text: Bytes) // a comment without its line end
    | Text(quote: byte, body: Bytes)
    | LongText(quote: byte, body: Bytes) // triple quoted

  predicate IsDelimiter(b: byte) {
    b == 34 || b == 39
  }

  /** A backslash takes the next byte with it; no other quote of its kind is inside. */
  predicate IsBody(body: Bytes, quote: byte) {
    body == []
    || (body[0] == 92 && |body| >= 2 && IsBody(body[2..], quote))
    || (body[0] != 92 && body[0] != quote && IsBody(body[1..], quote))
  }

  /** No three quotes of its kind in a row are inside, nor is one at the end; backslashes do not matter. */
  predicate IsLongBody(body: Bytes, quote: byte) {
    && (body == [] || body[|body| - 1] != quote)
    && forall i :: 0 <= i && i + 2 < |body| ==> !(body[i] == body[i + 1] == body[i + 2] == quote)
  }

  predicate IsToken(t: Token) {
    match t
    case Plain(b) => b != 35 && !IsDelimiter(b)
    case Remark(text) => 10 !in text
    case Text(quote, body) => IsDelimiter(quote) && IsBody(body, quote)
    case LongText(quote, body) => IsDelimiter(quote) && IsLongBody(body, quote)
  }

  function Rendered(t: Token): (s: Bytes)
    ensures s != []
  {
    match t
    case Plain(b) => [b]
    case Remark(text) => [35] + text
    case Text(quote, body) => [quote] + body + [quote]
    case LongText(quote, body) => [quote, quote, quote] + body + [quote, quote, quote]
  }

  /** A comment is followed by its line end, an empty string not by a quote of its kind. */
  predicate MayFollow(t: Token, next: byte) {
    match t
    case Remark(_) => next == 10
    case Text(quote, body) => body == [] ==> next != quote
    case _ => true
  }

  predicate Fits(tokens: seq<Token>) {
    && (forall i :: 0 <= i < |tokens| ==> IsToken(tokens[i]))
    && forall i :: 0 <= i < |tokens| - 1 ==> MayFollow(tokens[i], Rendered(tokens[i + 1])[0])
  }

  function RenderedAll(tokens: seq<Token>): Bytes {
    if tokens == [] then [] else Rendered(tokens[0]) + RenderedAll(tokens[1..])
  }

  /** Exactly the plain bytes are code. */
  function Flagged(t: Token): seq<bool> {
    seq(|Rendered(t)|, i => t.Plain?)
  }

  function FlaggedAll(tokens: seq<Token>): seq<bool> {
    if tokens == [] then [] else Flagged(tokens[0]) + FlaggedAll(tokens[1..])
  }

  // ---------------------------------------------------------------------------------------------
  // Lexing from a state
  // ---------------------------------------------------------------------------------------------

  /** The lexer after some bytes. */
  function Through(x: Lexer, s: Bytes): Lexer
    decreases |s|
  {
    if s == [] then x else Through(After(x, s[0]), s[1..])
  }

  predicate CodeAt(x: Lexer, b: byte) {
    (x.ReadsCode(b) && b != HASH && !IsQuote(b)) || (x.Comment? && b == LF)
  }

  function Flags(x: Lexer, s: Bytes): (flags: seq<bool>)
    ensures |flags| == |s|
    decreases |s|
  {
    if s == [] then [] else [CodeAt(x, s[0])] + Flags(After(x, s[0]), s[1..])
  }

  /** Reading some bytes and then some more. */
  lemma {:induction false} Continued(x: Lexer, s: Bytes, t: Bytes)
    ensures Through(x, s + t) == Through(Through(x, s), t)
    ensures Flags(x, s + t) == Flags(x, s) + Flags(Through(x, s), t)
    decreases |s|
  {
    if s == [] {
      assert s + t == t;
    } else {
      var y := After(x, s[0]);
      Continued(y, s[1..], t);
      assert (s + t)[0] == s[0] && (s + t)[1..] == s[1..] + t;
      Associate([CodeAt(x, s[0])], Flags(y, s[1..]), Flags(Through(y, s[1..]), t));
    }
  }

  lemma One(x: Lexer, b: byte)
    ensures Through(x, [b]) == After(x, b) && Flags(x, [b]) == [CodeAt(x, b)]
  {
    assert [b][1..] == [];
  }

  lemma {:induction false} ThroughIsBefore(s: Bytes, i: nat)
    requires i <= |s|
    ensures Before(s, i) == Through(Code, s[..i])
  {
    if i > 0 {
      ThroughIsBefore(s, i - 1);
      assert s[..i] == s[..i - 1] + [s[i - 1]];
      Continued(Code, s[..i - 1], [s[i - 1]]);
      One(Before(s, i - 1), s[i - 1]);
    }
  }

  lemma FlagsAreCode(s: Bytes, i: nat)
    requires i < |s|
    ensures Flags(Code, s)[i] == IsCode(s, i)
  {
    ThroughIsBefore(s, i);
    assert s == s[..i] + s[i..];
    Continued(Code, s[..i], s[i..]);
  }

  function Dark(n: nat): seq<bool> {
    seq(n, i => false)
  }

  // ---------------------------------------------------------------------------------------------
  // Each token
  // ---------------------------------------------------------------------------------------------

  lemma {:induction false} RemarkIsDark(text: Bytes)
    requires LF !in text
    ensures Through(Comment, text) == Comment && Flags(Comment, text) == Dark(|text|)
  {
    if text != [] {
      RemarkIsDark(text[1..]);
      assert text[0] in text;
    }
  }

  lemma {:induction false} BodyIsDark(body: Bytes, quote: byte)
    requires IsQuote(quote) && IsBody(body, quote)
    ensures Through(Quoted(quote, false), body) == Quoted(quote, false)
    ensures Flags(Quoted(quote, false), body) == Dark(|body|)
    decreases |body|
  {
    if body != [] {
      if body[0] == BACKSLASH {
        BodyIsDark(body[2..], quote);
        assert body[1..][1..] == body[2..];
      } else {
        BodyIsDark(body[1..], quote);
      }
    }
  }

  /** What is read just inside the opening quote is read as inside the string. */
  lemma OpenedBody(body: Bytes, quote: byte)
    requires IsQuote(quote) && IsBody(body, quote) && body != []
    ensures Through(Opened(quote), body) == Quoted(quote, false) && Flags(Opened(quote), body) == Dark(|body|)
  {
    BodyIsDark(body, quote);
    assert After(Opened(quote), body[0]) == After(Quoted(quote, false), body[0]);
  }

  /** The quotes at the end of a triple-quoted text, three at most being possible. */
  function Run(body: Bytes, quote: byte): nat {
    if body == [] || body[|body| - 1] != quote then 0 else Run(body[..|body| - 1], quote) + 1
  }

  lemma {:induction false} LongBodyIsDark(body: Bytes, quote: byte)
    requires IsQuote(quote)
    requires forall i :: 0 <= i && i + 2 < |body| ==> !(body[i] == body[i + 1] == body[i + 2] == quote)
    ensures Run(body, quote) <= 2 && Through(Triple(quote, 0), body) == Triple(quote, Run(body, quote))
    ensures Flags(Triple(quote, 0), body) == Dark(|body|)
  {
    if body != [] {
      var n := |body| - 1;
      LongBodyIsDark(body[..n], quote);
      assert body == body[..n] + [body[n]];
      Continued(Triple(quote, 0), body[..n], [body[n]]);
      One(Triple(quote, Run(body[..n], quote)), body[n]);
      if Run(body[..n], quote) == 2 {
        assert body[..n][n - 1] == body[n - 1] && body[..n][..n - 1][n - 2] == body[n - 2];
      }
    }
  }

  predicate Ready(x: Lexer, t: Token) {
    x.Code? || (x.OpenedTwice? && Rendered(t)[0] != x.quote) || (x.Comment? && t == Plain(LF))
  }

  /** Where a token leaves the lexer. */
  function End(t: Token): Lexer {
    match t
    case Remark(_) => Comment
    case Text(quote, body) => if body == [] then OpenedTwice(quote) else Code
    case _ => Code
  }

  lemma OpeningIsDark(x: Lexer, t: Token)
    requires IsToken(t) && Ready(x, t) && !t.Plain?
    ensures After(x, Rendered(t)[0]) == (if t.Remark? then Comment else Opened(t.quote)) && !CodeAt(x, Rendered(t)[0])
  {
  }

  lemma TextIsFlagged(x: Lexer, t: Token)
    requires IsToken(t) && Ready(x, t) && t.Text?
    ensures Flags(x, Rendered(t)) == Flagged(t) && Through(x, Rendered(t)) == End(t)
  {
    OpeningIsDark(x, t);
    var quote, body := t.quote, t.body;
    assert Rendered(t)[1..] == body + [quote];
    Continued(Opened(quote), body, [quote]);
    One(Through(Opened(quote), body), quote);
    if body != [] {
      OpenedBody(body, quote);
    }
  }

  lemma ThreeQuotes(x: Lexer, quote: byte)
    requires IsQuote(quote) && (x == Triple(quote, 0) || (x.Code? || (x.OpenedTwice? && x.quote != quote)))
    ensures Through(x, [quote, quote, quote]) == if x.Triple? then Code else Triple(quote, 0)
    ensures Flags(x, [quote, quote, quote]) == Dark(3)
  {
    var q := [quote];
    assert [quote, quote, quote] == q + (q + q);
    Continued(x, q, q + q);
    One(x, quote);
    Continued(After(x, quote), q, q);
    One(After(x, quote), quote);
    One(After(After(x, quote), quote), quote);
  }

  lemma LongTextIsFlagged(x: Lexer, t: Token)
    requires IsToken(t) && Ready(x, t) && t.LongText?
    ensures Flags(x, Rendered(t)) == Flagged(t) && Through(x, Rendered(t)) == End(t)
  {
    var quote, body := t.quote, t.body;
    var quotes := [quote, quote, quote];
    assert Rendered(t) == quotes + (body + quotes);
    Continued(x, quotes, body + quotes);
    ThreeQuotes(x, quote);
    Continued(Triple(quote, 0), body, quotes);
    LongBodyIsDark(body, quote);
    ThreeQuotes(Triple(quote, 0), quote);
  }

  lemma TokenIsFlagged(x: Lexer, t: Token)
    requires IsToken(t) && Ready(x, t)
    ensures Flags(x, Rendered(t)) == Flagged(t) && Through(x, Rendered(t)) == End(t)
  {
    match t
    case Plain(b) => One(x, b);
    case Remark(text) =>
      OpeningIsDark(x, t);
      Continued(x, [HASH], text);
      One(x, HASH);
      RemarkIsDark(text);
    case Text(_, _) => TextIsFlagged(x, t);
    case LongText(_, _) => LongTextIsFlagged(x, t);
  }

  lemma {:induction false} TokensAreFlagged(x: Lexer, tokens: seq<Token>)
    requires Fits(tokens) && (tokens != [] ==> Ready(x, tokens[0]))
    ensures Flags(x, RenderedAll(tokens)) == FlaggedAll(tokens)
    decreases |tokens|
  {
    if tokens != [] {
      var rest := tokens[1..];
      TokenIsFlagged(x, tokens[0]);
      if rest != [] {
        assert MayFollow(tokens[0], Rendered(tokens[1])[0]);
      }
      assert forall i :: 0 <= i < |rest| ==> rest[i] == tokens[i + 1];
      TokensAreFlagged(End(tokens[0]), rest);
      Continued(x, Rendered(tokens[0]), RenderedAll(rest));
    }
  }

  // ---------------------------------------------------------------------------------------------
  // Every text is made of tokens
  // ---------------------------------------------------------------------------------------------

  /** The body of a string up to its closing quote; `more` closes a string that is not closed. */
  lemma {:induction false} StringSplits(s: Bytes, quote: byte) returns (body: Bytes, rest: Bytes, more: Bytes)
    requires IsQuote(quote)
    ensures IsBody(body, quote) && body + [quote] + rest == s + more && (more == [] || rest == [])
    ensures |rest| <= |s|
    decreases |s|
  {
    if s == [] {
      body, rest, more := [], [], [quote];
    } else if s[0] == quote {
      body, rest, more := [], s[1..], [];
    } else if s == [BACKSLASH] {
      body, rest, more := [BACKSLASH, LF], [], [LF, quote];
      assert body[2..] == [];
    } else {
      var n := if s[0] == BACKSLASH then 2 else 1;
      body, rest, more := StringSplits(s[n..], quote);
      assert s == s[..n] + s[n..] && (s[..n] + body)[n..] == body;
      assert s + more == s[..n] + (s[n..] + more);
      body := s[..n] + body;
      assert body + [quote] + rest == s[..n] + (body[n..] + [quote] + rest);
    }
  }

  lemma {:induction false} LongStringSplits(s: Bytes, quote: byte) returns (body: Bytes, rest: Bytes, more: Bytes)
    requires IsQuote(quote)
    ensures IsLongBody(body, quote) && body + [quote, quote, quote] + rest == s + more && (more == [] || rest == [])
    ensures |rest| <= |s|
    decreases |s|
  {
    var quotes := [quote, quote, quote];
    if quotes <= s {
      body, rest, more := [], s[3..], [];
    } else if s <= quotes {
      body, rest, more := [], [], quotes[|s|..];
    } else {
      body, rest, more := LongStringSplits(s[1..], quote);
      LongBodyGrows(s, quote, body, rest, more);
      body := [s[0]] + body;
    }
  }

  lemma LongBodyGrows(s: Bytes, quote: byte, body: Bytes, rest: Bytes, more: Bytes)
    requires s != [] && !([quote, quote, quote] <= s) && !(s <= [quote, quote, quote])
    requires IsLongBody(body, quote) && body + [quote, quote, quote] + rest == s[1..] + more
             && (more == [] || rest == [])
    ensures IsLongBody([s[0]] + body, quote) && [s[0]] + body + [quote, quote, quote] + rest == s + more
  {
    var quotes := [quote, quote, quote];
    var all := s + more;
    assert all == [s[0]] + (s[1..] + more);
    assert all == [s[0]] + body + quotes + rest;
    var longer := [s[0]] + body;
    assert forall i :: 0 <= i < |longer| ==> longer[i] == all[i];
    assert !(all[0] == all[1] == all[2] == quote) by {
      if |s| >= 3 {
        assert s[..3] == all[..3];
      } else if |s| == 2 {
        assert s == [s[0], s[1]] && all[1] == s[1];
      }
    }
    assert body == [] ==> all[1] == quote && all[2] == quote;
  }

  lemma {:induction false} LineSplits(s: Bytes) returns (text: Bytes, rest: Bytes)
    ensures s == text + rest && LF !in text && (rest != [] ==> rest[0] == LF)
    decreases |s|
  {
    if s == [] || s[0] == LF {
      text, rest := [], s;
    } else {
      text, rest := LineSplits(s[1..]);
      text := [s[0]] + text;
    }
  }

  /** This token is first in the text; `more` finishes a token that the text cuts short. */
  predicate IsFirst(t: Token, s: Bytes, rest: Bytes, more: Bytes) {
    && IsToken(t) && Rendered(t) + rest == s + more && (more == [] || rest == []) && |rest| < |s|
    && (rest != [] ==> MayFollow(t, rest[0]))
  }

  lemma FirstLongText(s: Bytes, quote: byte) returns (t: Token, rest: Bytes, more: Bytes)
    requires IsQuote(quote) && [quote, quote, quote] <= s
    ensures IsFirst(t, s, rest, more)
  {
    var quotes := [quote, quote, quote];
    var body;
    body, rest, more := LongStringSplits(s[3..], quote);
    t := LongText(quote, body);
    assert s == quotes + s[3..];
    Associate(quotes, body + quotes, rest);
    Associate(quotes, s[3..], more);
    assert Rendered(t) == quotes + (body + quotes);
  }

  lemma FirstText(s: Bytes, quote: byte) returns (t: Token, rest: Bytes, more: Bytes)
    requires IsQuote(quote) && s != [] && s[0] == quote && !([quote, quote, quote] <= s)
    ensures IsFirst(t, s, rest, more)
  {
    var tail := s[1..];
    var body;
    body, rest, more := StringSplits(tail, quote);
    t := Text(quote, body);
    assert s == [quote] + tail;
    Associate([quote], body + [quote], rest);
    Associate([quote], tail, more);
    assert Rendered(t) == [quote] + (body + [quote]);
    if body == [] && more == [] {
      assert s + [] == s && Rendered(t) + rest == [quote, quote] + rest;
      assert rest != [] ==> s[..3] == [quote, quote, rest[0]];
    }
  }

  lemma FirstToken(s: Bytes) returns (t: Token, rest: Bytes, more: Bytes)
    requires s != []
    ensures IsFirst(t, s, rest, more)
  {
    var b, tail := s[0], s[1..];
    assert s == [b] + tail && s + [] == s;
    if b == HASH {
      var text;
      text, rest := LineSplits(tail);
      t, more := Remark(text), [];
      Associate([b], text, rest);
    } else if !IsQuote(b) {
      t, rest, more := Plain(b), tail, [];
    } else if [b, b, b] <= s {
      t, rest, more := FirstLongText(s, b);
    } else {
      t, rest, more := FirstText(s, b);
    }
  }

  /** A token in front of tokens it may stand before. */
  lemma FitsInFront(t: Token, tokens: seq<Token>)
    requires IsToken(t) && Fits(tokens) && (tokens != [] ==> MayFollow(t, RenderedAll(tokens)[0]))
    ensures Fits([t] + tokens) && RenderedAll([t] + tokens) == Rendered(t) + RenderedAll(tokens)
  {
    var all := [t] + tokens;
    assert all[1..] == tokens;
    assert tokens != [] ==> RenderedAll(tokens)[0] == Rendered(tokens[0])[0];
    forall i | 0 <= i < |all| - 1 ensures MayFollow(all[i], Rendered(all[i + 1])[0]) {
      assert i > 0 ==> all[i] == tokens[i - 1] && all[i + 1] == tokens[i];
    }
  }

  lemma {:induction false} EveryTextIsTokens(s: Bytes) returns (tokens: seq<Token>, more: Bytes)
    ensures Fits(tokens) && RenderedAll(tokens) == s + more && (s == [] ==> tokens == [])
    decreases |s|
  {
    if s == [] {
      tokens, more := [], [];
    } else {
      var t, rest, cut := FirstToken(s);
      if rest == [] {
        tokens, more := [t], cut;
        FitsInFront(t, []);
        assert [t] + [] == [t] && Rendered(t) + [] == Rendered(t) + rest;
      } else {
        tokens, more := EveryTextIsTokens(rest);
        assert tokens != [] ==> RenderedAll(tokens)[0] == rest[0];
        FitsInFront(t, tokens);
        Associate(Rendered(t), rest, more);
        assert s + cut == s;
        tokens := [t] + tokens;
      }
    }
  }

  /**
   Every text is made of comments, strings, triple-quoted strings and single bytes, the last of them
   possibly cut short, and exactly the single bytes are code.
   */
  lemma CodeIsOutsideTokens(s: Bytes) returns (tokens: seq<Token>, more: Bytes)
    ensures Fits(tokens) && RenderedAll(tokens) == s + more
    ensures |FlaggedAll(tokens)| == |s| + |more| && forall i :: 0 <= i < |s| ==> IsCode(s, i) == FlaggedAll(tokens)[i]
  {
    tokens, more := EveryTextIsTokens(s);
    TokensAreFlagged(Code, tokens);
    forall i | 0 <= i < |s| ensures IsCode(s, i) == FlaggedAll(tokens)[i] {
      FlagsAreCode(s + more, i);
      assert (s + more)[..i] == s[..i];
      BeforeIsLocal(s, s + more, i);
    }
  }

  /** And a text given by its tokens is read as these. */
  lemma TokensAreMasked(tokens: seq<Token>, i: nat)
    requires Fits(tokens) && i < |RenderedAll(tokens)|
    ensures |FlaggedAll(tokens)| == |RenderedAll(tokens)| && IsCode(RenderedAll(tokens), i) == FlaggedAll(tokens)[i]
  {
    TokensAreFlagged(Code, tokens);
    FlagsAreCode(RenderedAll(tokens), i);
  }

  // ---------------------------------------------------------------------------------------------
  // Calls as they are written
  // ---------------------------------------------------------------------------------------------

  predicate IsBlank(b: byte) {
    b in {9, 10, 13, 32}
  }

  /** A letter, a digit or an underscore. */
  predicate IsWord(b: byte) {
    65 <= b <= 90 || 97 <= b <= 122 || 48 <= b <= 57 || b == 95
  }

  /** A name with what stands before it, and blanks and a parenthesis after it. */
  function CallText(before: Bytes, name: Bytes, blanks: Bytes, rest: Bytes): Bytes {
    before + name + blanks + [40] + rest
  }

  /** The name is of code, and what stands before it does not belong to it. */
  predicate IsWrittenName(before: Bytes, name: Bytes, blanks: Bytes, rest: Bytes) {
    var s := CallText(before, name, blanks, rest);
    && name != [] && (forall b :: b in name ==> IsWord(b)) && (forall b :: b in blanks ==> IsBlank(b))
    && (before == [] || !IsWord(before[|before| - 1]))
    && forall i :: |before| <= i < |before| + |name| ==> IsCode(s, i)
  }

  lemma WrittenNameIsRead(before: Bytes, name: Bytes, blanks: Bytes, rest: Bytes)
    requires IsWrittenName(before, name, blanks, rest)
    ensures IsName(CallText(before, name, blanks, rest), |before| + |name| + |blanks|, |before|, |before| + |name|)
  {
    var s := CallText(before, name, blanks, rest);
    var start := |before|;
    var end := start + |name|;
    assert forall i :: start <= i < end ==> s[i] == name[i - start] && s[i] in name;
    assert forall i :: end <= i < end + |blanks| ==> s[i] == blanks[i - end] && s[i] in blanks;
    assert start > 0 ==> s[start - 1] == before[start - 1];
  }

  /** A method call is found as it is written, wherever its receiver is, unless it has none. */
  lemma WrittenMethodCall(receiver: Receiver, before: Bytes, name: Bytes, blanks: Bytes, rest: Bytes, call: MethodCall)
    requires before != [] && before[|before| - 1] == 46 && IsWrittenName(before, name, blanks, rest)
    ensures
      var s := CallText(before, name, blanks, rest);
      var opening := |before| + |name| + |blanks|;
      var (from, to) := receiver(s, |before| - 1);
      IsMethodCall(s, receiver, opening, call) <==>
      from != to && call == MethodCall(|before|, |before| + |name|, from, to, opening + 1)
  {
    var s := CallText(before, name, blanks, rest);
    var opening := |before| + |name| + |blanks|;
    WrittenNameIsRead(before, name, blanks, rest);
    assert s[|before| - 1] == before[|before| - 1];
    if IsMethodCall(s, receiver, opening, call) {
      NameIsUnique(s, opening, call.nameStart, call.nameEnd, |before|, |before| + |name|);
    }
  }

  /** And so is a function call. */
  lemma WrittenFunctionCall(before: Bytes, name: Bytes, blanks: Bytes, rest: Bytes, call: FunctionCall)
    requires IsWrittenName(before, name, blanks, rest)
    ensures
      var s := CallText(before, name, blanks, rest);
      var opening := |before| + |name| + |blanks|;
      IsFunctionCall(s, opening, call) <==>
      (before == [] || before[|before| - 1] != 46)
      && call == FunctionCall(|before|, |before| + |name|, opening, opening + 1)
  {
    var s := CallText(before, name, blanks, rest);
    var opening := |before| + |name| + |blanks|;
    WrittenNameIsRead(before, name, blanks, rest);
    assert before != [] ==> s[|before| - 1] == before[|before| - 1];
    if IsFunctionCall(s, opening, call) {
      NameIsUnique(s, opening, call.nameStart, call.nameEnd, |before|, |before| + |name|);
    }
  }

  /** A parenthesis after something else, or after a comment or a string, calls nothing. */
  lemma NothingIsCalled(s: Bytes, receiver: Receiver, opening: nat, end: nat)
    requires end <= opening <= |s| && (forall i :: end <= i < opening ==> IsBlank(s[i]))
    requires end == 0 || (!IsBlank(s[end - 1]) && (!IsWord(s[end - 1]) || !IsCode(s, end - 1)))
    ensures forall call :: !IsMethodCall(s, receiver, opening, call)
    ensures forall call :: !IsFunctionCall(s, opening, call)
  {
    assert IsName(s, opening, end, end);
    forall start, stop | IsName(s, opening, start, stop) ensures start == stop {
      NameIsUnique(s, opening, start, stop, end, end);
    }
  }
}
