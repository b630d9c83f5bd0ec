/** Which bytes of Python source are code, and the calls that enclose an offset. */
module CodeMask {
  import opened Prelude

  type Bytes = seq<byte>

  const LF: byte := 10
  const DOUBLE: byte := 34 // '"'
  const HASH: byte := 35 // '#'
  const SINGLE: byte := 39 // '\''
  const OPEN: byte := 40 // '('
  const CLOSE: byte := 41 // ')'
  const DOT: byte := 46 // '.'
  const BACKSLASH: byte := 92 // '\\'

  predicate IsQuote(b: byte) {
    b == SINGLE || b == DOUBLE
  }

  // ---------------------------------------------------------------------------------------------
  // Lexing one byte at a time
  // ---------------------------------------------------------------------------------------------

  /**
   Where the lexer stands, without looking ahead. After one opening quote the string may turn out
   to be triple quoted; after two, it is triple quoted or was empty. In a triple-quoted string,
   `run` counts the quotes just seen.
   */
  datatype Lexer =
    | Code
    | Comment
    | Opened(quote: byte)
    | OpenedTwice(quote: byte)
    | Quoted(quote: byte, escaped: bool)
    | Triple(quote: byte, run: nat)
  {
    /** A byte met here is read as code. */
    predicate ReadsCode(b: byte) {
      Code? || (OpenedTwice? && b != quote)
    }
  }

  function FromCode(b: byte): Lexer {
    if b == HASH then Comment else if IsQuote(b) then Opened(b) else Code
  }

  function InString(quote: byte, b: byte): Lexer {
    if b == BACKSLASH then Quoted(quote, true) else Quoted(quote, false)
  }

  function After(x: Lexer, b: byte): Lexer {
    match x
    case Code => FromCode(b)
    case Comment => if b == LF then Code else Comment
    case Opened(quote) => if b == quote then OpenedTwice(quote) else InString(quote, b)
    case OpenedTwice(quote) => if b == quote then Triple(quote, 0) else FromCode(b)
    case Quoted(quote, escaped) => if escaped then Quoted(quote, false) else if b == quote then Code
    else InString(quote, b)
    case Triple(quote, run) => if b != quote then Triple(quote, 0) else if run == 2 then Code
    else Triple(quote, run + 1)
  }

  /** The lexer before the byte at `i`: it depends on nothing further on. */
  function Before(s: Bytes, i: nat): Lexer
    requires i <= |s|
  {
    if i == 0 then Code else After(Before(s, i - 1), s[i - 1])
  }

  /** The byte is code: outside comments and strings, or the end of a comment's line. */
  predicate IsCode(s: Bytes, i: nat)
    requires i < |s|
  {
    var x := Before(s, i);
    || (x.ReadsCode(s[i]) && s[i] != HASH && !IsQuote(s[i]))
    || (x.Comment? && s[i] == LF)
  }

  /** What comes later does not matter. */
  lemma {:induction false} BeforeIsLocal(s: Bytes, t: Bytes, i: nat)
    requires i <= |s| && i <= |t| && s[..i] == t[..i]
    ensures Before(s, i) == Before(t, i)
  {
    if i > 0 {
      assert s[..i][..i - 1] == s[..i - 1] && t[..i][..i - 1] == t[..i - 1];
      assert s[i - 1] == s[..i][i - 1] == t[..i][i - 1] == t[i - 1];
      BeforeIsLocal(s, t, i - 1);
    }
  }

  // ---------------------------------------------------------------------------------------------
  // The mask, with two bytes of lookahead
  // ---------------------------------------------------------------------------------------------

  /** The three bytes from `i` on are this quote, and lie before the end. */
  predicate ThreeAt(s: Bytes, i: nat, end: nat, quote: byte) {
    i + 2 < end <= |s| && s[i] == quote && s[i + 1] == quote && s[i + 2] == quote
  }

  predicate TwoAt(s: Bytes, i: nat, end: nat, quote: byte) {
    i + 1 < end <= |s| && s[i] == quote && s[i + 1] == quote
  }

  /** How the flags of the scan stand for the lexer. */
  predicate Agrees(s: Bytes, i: nat, end: nat, quote: byte, triple: bool, escaped: bool, comment: bool)
    requires i <= end <= |s|
  {
    var x := Before(s, i);
    if comment then x == Comment
    else if quote == 0 then
      x == Code || (x.OpenedTwice? && !(i < end && s[i] == x.quote))
    else if triple then
      && x.Triple? && x.quote == quote && IsQuote(quote) && x.run <= 2
      && (x.run == 1 ==> !TwoAt(s, i, end, quote))
      && (x.run == 2 ==> !(i < end && s[i] == quote))
    else
      IsQuote(quote) && (x == Quoted(quote, escaped) || (!escaped && x == Opened(quote) && !TwoAt(s, i, end, quote)))
  }

  predicate Masks(code: seq<bool>, s: Bytes, n: nat) {
    n <= |code| && n <= |s| && forall k :: 0 <= k < n ==> code[k] == IsCode(s, k)
  }

  lemma Lexed(s: Bytes, i: nat)
    requires i + 3 <= |s|
    ensures Before(s, i + 1) == After(Before(s, i), s[i])
    ensures Before(s, i + 2) == After(After(Before(s, i), s[i]), s[i + 1])
    ensures Before(s, i + 3) == After(After(After(Before(s, i), s[i]), s[i + 1]), s[i + 2])
  {
    assert Before(s, i + 2) == After(Before(s, i + 1), s[i + 1]);
    assert Before(s, i + 3) == After(Before(s, i + 2), s[i + 2]);
  }

  method PythonCodeMask(s: Bytes, limit: nat) returns (code: array<bool>)
    ensures fresh(code) && code.Length == if limit > |s| then |s| else limit
    ensures Masks(code[..], s, code.Length)
  {
    var end := if limit > |s| then |s| else limit;
    code := new bool[end](_ => false);
    var quote: byte, triple, escaped, comment := 0, false, false, false;
    var i := 0;
    while i < end
      invariant i <= end && (comment ==> quote == 0) && (escaped ==> quote != 0 && !triple) && (triple ==> quote != 0)
      invariant Agrees(s, i, end, quote, triple, escaped, comment)
      invariant forall k :: 0 <= k < i ==> code[k] == IsCode(s, k)
      invariant forall k :: i <= k < end ==> !code[k]
    {
      var value := s[i];
      if comment {
        if value == LF {
          comment := false;
          code[i] := true;
        }
      } else if quote != 0 {
        if triple {
          if ThreeAt(s, i, end, quote) {
            Lexed(s, i);
            quote, triple := 0, false;
            i := i + 2;
          }
        } else if escaped {
          escaped := false;
        } else if value == BACKSLASH {
          escaped := true;
        } else if value == quote {
          quote := 0;
        }
      } else if value == HASH {
        comment := true;
      } else if IsQuote(value) {
        quote := value;
        if ThreeAt(s, i, end, value) {
          Lexed(s, i);
          triple := true;
          i := i + 2;
        }
      } else {
        code[i] := true;
      }
      i := i + 1;
    }
  }

  /** The mask of a prefix of the text is a prefix of the mask, although the scan looks two bytes ahead. */
  lemma MaskIsPrefixStable(s: Bytes, n: nat, shorter: seq<bool>, longer: seq<bool>)
    requires |shorter| <= n <= |s| && |shorter| <= |longer| <= |s|
    requires Masks(shorter, s[..n], |shorter|) && Masks(longer, s, |longer|)
    ensures shorter == longer[..|shorter|]
  {
    forall k | 0 <= k < |shorter| ensures shorter[k] == longer[k] {
      assert s[..n][..k] == s[..k];
      BeforeIsLocal(s[..n], s, k);
    }
  }

  // ---------------------------------------------------------------------------------------------
  // Open parentheses
  // ---------------------------------------------------------------------------------------------

  predicate Opens(s: Bytes, i: nat)
    requires i < |s|
  {
    IsCode(s, i) && s[i] == OPEN
  }

  predicate Closes(s: Bytes, i: nat)
    requires i < |s|
  {
    IsCode(s, i) && s[i] == CLOSE
  }

  /** Opening less closing code parentheses in a range. */
  function Balance(s: Bytes, from: nat, to: nat): int
    requires from <= to <= |s|
  {
    if from == to then 0
    else Balance(s, from, to - 1) + (if Opens(s, to - 1) then 1 else 0) - (if Closes(s, to - 1) then 1 else 0)
  }

  /** The balance since the parenthesis at `k`. */
  function Since(s: Bytes, k: nat, offset: nat): int
    requires k < offset <= |s|
  {
    Balance(s, k + 1, offset)
  }

  /** The parenthesis at `k` is not closed before the offset. */
  predicate Unclosed(s: Bytes, k: nat, offset: nat)
    requires offset <= |s|
  {
    k < offset && Opens(s, k) && forall j :: k < j <= offset ==> Since(s, k, j) >= 0
  }

  /** The stack holds exactly the unclosed parentheses, innermost last. */
  ghost predicate IsStack(s: Bytes, offset: nat, stack: seq<nat>)
    requires offset <= |s|
  {
    && (forall i, j :: 0 <= i < j < |stack| ==> stack[i] < stack[j])
    && (forall k :: k in stack <==> Unclosed(s, k, offset))
    && (forall i :: 0 <= i < |stack| ==> stack[i] < offset && Since(s, stack[i], offset) == |stack| - 1 - i)
  }

  function StackStep(s: Bytes, i: nat, stack: seq<nat>): seq<nat>
    requires i < |s|
  {
    if Opens(s, i) then stack + [i]
    else if Closes(s, i) && stack != [] then stack[..|stack| - 1]
    else stack
  }

  lemma UnclosedStep(s: Bytes, k: nat, i: nat)
    requires i < |s| && k < i
    ensures Unclosed(s, k, i + 1) <==> Unclosed(s, k, i) && Since(s, k, i + 1) >= 0
  {
  }

  lemma StackStepIsStack(s: Bytes, i: nat, stack: seq<nat>)
    requires i < |s| && IsStack(s, i, stack)
    ensures IsStack(s, i + 1, StackStep(s, i, stack))
  {
    var next := StackStep(s, i, stack);
    forall k: nat | k < i ensures k in next <==> Unclosed(s, k, i + 1) {
      UnclosedStep(s, k, i);
      KeptByStep(s, i, stack, k);
    }
    assert Unclosed(s, i, i + 1) <==> Opens(s, i);
    assert Opens(s, i) ==> next[|stack|] == i;
    forall k | k >= i ensures k in next <==> Unclosed(s, k, i + 1) {
      assert k !in stack;
    }
  }

  lemma KeptByStep(s: Bytes, i: nat, stack: seq<nat>, k: nat)
    requires i < |s| && IsStack(s, i, stack) && k < i
    ensures k in StackStep(s, i, stack) <==> k in stack && Since(s, k, i + 1) >= 0
  {
    var next := StackStep(s, i, stack);
    if k in stack {
      var p :| 0 <= p < |stack| && stack[p] == k;
      assert Since(s, k, i) == |stack| - 1 - p;
      if p < |next| {
        assert next[p] == k;
      } else {
        assert forall q :: 0 <= q < |next| ==> next[q] < k;
      }
    }
  }

  /** The unclosed parentheses before the offset, found with the mask of the text up to it. */
  method OpenParentheses(s: Bytes, offset: nat) returns (stack: seq<nat>)
    requires offset <= |s|
    ensures IsStack(s, offset, stack)
  {
    var code := PythonCodeMask(s, offset);
    stack := [];
    for i := 0 to offset
      invariant IsStack(s, i, stack)
      invariant Masks(code[..], s, offset)
    {
      StackStepIsStack(s, i, stack);
      assert code[i] == code[..][i];
      if !code[i] {
        continue;
      }
      if s[i] == OPEN {
        stack := stack + [i];
      } else if s[i] == CLOSE {
        if |stack| > 0 {
          stack := stack[..|stack| - 1];
        }
      }
    }
  }

  // ---------------------------------------------------------------------------------------------
  // Enclosing calls
  // ---------------------------------------------------------------------------------------------

  predicate IsSpace(b: byte) {
    b == 32 || b == 9 || b == 13 || b == LF
  }

  predicate IsIdentifierByte(b: byte) {
    b == 95 || 97 <= b <= 122 || 65 <= b <= 90 || 48 <= b <= 57
  }

  /** The callee's name before an opening parenthesis: the longest run of identifier bytes that are code. */
  predicate IsName(s: Bytes, opening: nat, start: nat, end: nat)
    requires opening <= |s|
  {
    && start <= end <= opening
    && (forall i :: end <= i < opening ==> IsSpace(s[i])) && (end == 0 || !IsSpace(s[end - 1]))
    && (forall i :: start <= i < end ==> IsIdentifierByte(s[i]) && IsCode(s, i))
    && (start == 0 || !IsIdentifierByte(s[start - 1]) || !IsCode(s, start - 1))
  }

  lemma NameIsUnique(s: Bytes, opening: nat, a: nat, b: nat, c: nat, d: nat)
    requires opening <= |s| && IsName(s, opening, a, b) && IsName(s, opening, c, d)
    ensures a == c && b == d
  {
    assert b == d;
  }

  /** Any mask that reaches the opening parenthesis gives the same name. */
  method CalleeName(s: Bytes, opening: nat, code: array<bool>) returns (start: nat, end: nat)
    requires opening <= code.Length && Masks(code[..], s, code.Length)
    ensures IsName(s, opening, start, end)
  {
    end := opening;
    while end > 0 && IsSpace(s[end - 1])
      invariant end <= opening && forall i :: end <= i < opening ==> IsSpace(s[i])
    {
      end := end - 1;
    }
    start := end;
    assert forall i :: 0 <= i < opening ==> code[..][i] == code[i];
    while start > 0 && IsIdentifierByte(s[start - 1]) && code[start - 1]
      invariant start <= end && forall i :: start <= i < end ==> IsIdentifierByte(s[i]) && IsCode(s, i)
    {
      start := start - 1;
    }
  }

  /** A method call: its name, its receiver and where its arguments start. */
  datatype MethodCall = MethodCall(nameStart: nat, nameEnd: nat, receiverStart: nat, receiverEnd: nat,
                                   argumentsStart: nat)

  datatype FunctionCall = FunctionCall(nameStart: nat, nameEnd: nat, opening: nat, argumentsStart: nat)

  /** The expression that ends at an offset, as a start and an end. */
  type Receiver = (Bytes, nat) -> (nat, nat)

  predicate IsMethodCall(s: Bytes, receiver: Receiver, opening: nat, call: MethodCall)
    requires opening <= |s|
  {
    && IsName(s, opening, call.nameStart, call.nameEnd)
    && 0 < call.nameStart < call.nameEnd && s[call.nameStart - 1] == DOT
    && receiver(s, call.nameStart - 1) == (call.receiverStart, call.receiverEnd)
    && call.receiverStart != call.receiverEnd
    && call.argumentsStart == opening + 1
  }

  method CallAfterOpening(s: Bytes, receiver: Receiver, opening: nat) returns (r: Option<MethodCall>)
    requires opening <= |s|
    ensures forall call :: IsMethodCall(s, receiver, opening, call) <==> r == Some(call)
  {
    var code := PythonCodeMask(s, opening);
    var start, end := CalleeName(s, opening, code);
    forall a, b | IsName(s, opening, a, b) ensures a == start && b == end {
      NameIsUnique(s, opening, a, b, start, end);
    }
    if start == end || start == 0 || s[start - 1] != DOT {
      return None;
    }
    var (from, to) := receiver(s, start - 1);
    if from == to {
      return None;
    }
    return Some(MethodCall(start, end, from, to, opening + 1));
  }

  /** The method call whose parenthesis is the innermost unclosed one. */
  method EnclosingCall(s: Bytes, receiver: Receiver, offset: int) returns (r: Option<MethodCall>)
    ensures r.Some? ==> 0 <= offset <= |s|
    ensures 0 <= offset <= |s| ==>
              forall call :: r == Some(call) <==>
                             exists k :: Innermost(s, k, offset) && IsMethodCall(s, receiver, k, call)
  {
    if offset < 0 || offset > |s| {
      return None;
    }
    var stack := OpenParentheses(s, offset);
    if |stack| == 0 {
      return None;
    }
    var opening := stack[|stack| - 1];
    InnermostIsTop(s, offset, stack);
    r := CallAfterOpening(s, receiver, opening);
  }

  /** The last parenthesis left open. */
  predicate Innermost(s: Bytes, k: nat, offset: nat)
    requires offset <= |s|
  {
    Unclosed(s, k, offset) && forall j :: k < j < offset ==> !Unclosed(s, j, offset)
  }

  lemma InnermostIsTop(s: Bytes, offset: nat, stack: seq<nat>)
    requires offset <= |s| && IsStack(s, offset, stack)
    ensures forall k :: Innermost(s, k, offset) <==> stack != [] && k == stack[|stack| - 1]
  {
    if stack != [] {
      var top := stack[|stack| - 1];
      assert top in stack;
      forall k | k in stack ensures k <= top {
      }
    }
  }

  /** The function call whose parenthesis is the innermost unclosed one. */
  method EnclosingFunctionCall(s: Bytes, offset: int) returns (r: Option<FunctionCall>)
    ensures r.Some? ==> 0 <= offset <= |s|
    ensures 0 <= offset <= |s| ==>
              forall call :: r == Some(call) <==>
                             exists k :: Innermost(s, k, offset) && IsFunctionCall(s, k, call)
  {
    if offset < 0 || offset > |s| {
      return None;
    }
    var stack := OpenParentheses(s, offset);
    if |stack| == 0 {
      return None;
    }
    var opening := stack[|stack| - 1];
    InnermostIsTop(s, offset, stack);
    var code := PythonCodeMask(s, offset);
    var start, end := CalleeName(s, opening, code);
    forall a, b | IsName(s, opening, a, b) ensures a == start && b == end {
      NameIsUnique(s, opening, a, b, start, end);
    }
    if start == end || (start > 0 && s[start - 1] == DOT) {
      return None;
    }
    r := Some(FunctionCall(start, end, opening, opening + 1));
    assert Innermost(s, opening, offset) && IsFunctionCall(s, opening, r.value);
  }

  predicate IsFunctionCall(s: Bytes, opening: nat, call: FunctionCall)
    requires opening <= |s|
  {
    && IsName(s, opening, call.nameStart, call.nameEnd)
    && call.nameStart < call.nameEnd && (call.nameStart == 0 || s[call.nameStart - 1] != DOT)
    && call.opening == opening && call.argumentsStart == opening + 1
  }

  /** Both scans read the same name, so no parenthesis is both a method call's and a function call's. */
  lemma MethodOrFunction(s: Bytes, receiver: Receiver, opening: nat, m: MethodCall, f: FunctionCall)
    requires opening <= |s|
    ensures !(IsMethodCall(s, receiver, opening, m) && IsFunctionCall(s, opening, f))
  {
    if IsName(s, opening, m.nameStart, m.nameEnd) && IsName(s, opening, f.nameStart, f.nameEnd) {
      NameIsUnique(s, opening, m.nameStart, m.nameEnd, f.nameStart, f.nameEnd);
    }
  }

  /** The innermost method call among the unclosed parentheses before `limit`. */
  method EnclosingCallBefore(s: Bytes, receiver: Receiver, offset: int, limit: int) returns (r: Option<MethodCall>)
    ensures !(0 <= offset <= |s|) ==> r.None?
    ensures 0 <= offset <= |s| && r.None? ==> forall k: nat, call :: Unclosed(s, k, offset) && k < limit ==>
                                                                       !IsMethodCall(s, receiver, k, call)
    ensures 0 <= offset <= |s| && r.Some? ==>
              exists k: nat :: Unclosed(s, k, offset) && k < limit && IsMethodCall(s, receiver, k, r.value)
                               && forall j: nat, call :: Unclosed(s, j, offset) && k < j < limit ==>
                                                           !IsMethodCall(s, receiver, j, call)
  {
    if offset < 0 || offset > |s| {
      return None;
    }
    var stack := OpenParentheses(s, offset);
    assert stack[|stack|..] == [];
    for i := |stack| downto 0
      invariant forall p, call :: i <= p < |stack| && stack[p] < limit ==> !IsMethodCall(s, receiver, stack[p], call)
    {
      if stack[i] >= limit {
        continue;
      }
      r := CallAfterOpening(s, receiver, stack[i]);
      if r.Some? {
        assert stack[i] in stack;
        forall j: nat, call | Unclosed(s, j, offset) && stack[i] < j < limit
          ensures !IsMethodCall(s, receiver, j, call) {
          assert j in stack;
        }
        return;
      }
    }
    r := None;
  }
}
