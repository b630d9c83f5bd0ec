/** Newline framing on both sides of the worker socket. */
module Framing {
  import opened Prelude

  type Bytes = seq<byte>

  const LF: byte := 10
  const MAX_FRAME_SIZE := 32 * 1024 * 1024
  const CHUNK := 65536

  datatype FrameError = EmptyFrame | TooLarge | Truncated | ShortWrite

  // ---------------------------------------------------------------------------------------------
  // What a stream holds
  // ---------------------------------------------------------------------------------------------

  /** Where the first line feed is. */
  function Find(s: Bytes): (r: Option<nat>)
    ensures r.Some? ==> r.value < |s| && s[r.value] == LF && NoneIn(s, r.value)
    ensures r.None? ==> NoneIn(s, |s|)
  {
    if s == [] then None
    else if s[0] == LF then Some(0)
    else
      match Find(s[1..])
      case None =>
        assert forall i :: 0 < i < |s| ==> s[i] == s[1..][i - 1];
        None
      case Some(n) =>
        assert forall i :: 0 < i < n + 1 ==> s[i] == s[1..][i - 1];
        Some(n + 1)
  }

  /** No line feed among the first bytes. */
  predicate NoneIn(s: Bytes, n: nat)
    requires n <= |s|
  {
    forall i :: 0 <= i < n ==> s[i] != LF
  }

  lemma FindIs(s: Bytes, n: nat)
    requires n < |s| && s[n] == LF && NoneIn(s, n)
    ensures Find(s) == Some(n)
  {
  }

  datatype Frame = Frame(payload: Bytes, rest: Bytes)

  /** The first frame of a stream that ends, or what is wrong; nothing when the stream is empty. */
  function NextFrame(s: Bytes): Result<Option<Frame>, FrameError> {
    match Find(s)
    case Some(n) =>
      if n == 0 then Err(EmptyFrame)
      else if n > MAX_FRAME_SIZE then Err(TooLarge)
      else Ok(Some(Frame(s[..n], s[n + 1..])))
    case None =>
      if |s| > MAX_FRAME_SIZE then Err(TooLarge)
      else if s == [] then Ok(None)
      else Err(Truncated)
  }

  /** All frames of a stream. */
  function Frames(s: Bytes): Result<seq<Bytes>, FrameError>
    decreases |s|
  {
    match NextFrame(s)
    case Err(e) => Err(e)
    case Ok(None) => Ok([])
    case Ok(Some(frame)) =>
      match Frames(frame.rest)
      case Err(e) => Err(e)
      case Ok(more) => Ok([frame.payload] + more)
  }

  predicate ValidPayload(p: Bytes) {
    1 <= |p| <= 33554432 && LF !in p
  }

  function EncodeMessage(p: Bytes): Result<Bytes, FrameError> {
    if p == [] then Err(EmptyFrame)
    else if |p| > MAX_FRAME_SIZE then Err(TooLarge)
    else Ok(p + [LF])
  }

  function Framed(payloads: seq<Bytes>): Bytes {
    if payloads == [] then [] else payloads[0] + [LF] + Framed(payloads[1..])
  }

  /** Payloads of 1 byte to 32 MiB are framed, and read back exactly when they hold no line feed. */
  lemma EncodedIsNext(p: Bytes, rest: Bytes)
    requires 1 <= |p| <= 33554432
    ensures EncodeMessage(p).Ok?
    ensures NextFrame(EncodeMessage(p).value + rest) == Ok(Some(Frame(p, rest))) <==> LF !in p
  {
    var s := EncodeMessage(p).value + rest;
    assert s[..|p|] == p && s[|p|] == LF && s[|p| + 1..] == rest;
    if LF !in p {
      FindIs(s, |p|);
    }
  }

  lemma FrameIsRead(p: Bytes, rest: Bytes)
    requires ValidPayload(p) && Frames(rest).Ok?
    ensures Frames(p + [LF] + rest) == Ok([p] + Frames(rest).value)
  {
    EncodedIsNext(p, rest);
  }

  lemma {:induction false} FramedIsRead(payloads: seq<Bytes>)
    requires forall i :: 0 <= i < |payloads| ==> ValidPayload(payloads[i])
    ensures Frames(Framed(payloads)) == Ok(payloads)
  {
    if payloads != [] {
      FramedIsRead(payloads[1..]);
      FrameIsRead(payloads[0], Framed(payloads[1..]));
      assert payloads == [payloads[0]] + payloads[1..];
    }
  }

  lemma FrameSplits(s: Bytes)
    requires NextFrame(s).Ok? && s != []
    ensures NextFrame(s).value.Some?
    ensures
      var frame := NextFrame(s).value.value;
      s == frame.payload + [LF] + frame.rest && ValidPayload(frame.payload)
  {
    var n := Find(s).value;
    assert s == s[..n] + [LF] + s[n + 1..];
  }

  lemma {:induction false} ReadIsFramed(s: Bytes)
    requires Frames(s).Ok?
    ensures Framed(Frames(s).value) == s
    ensures forall i :: 0 <= i < |Frames(s).value| ==> ValidPayload(Frames(s).value[i])
    decreases |s|
  {
    if s != [] {
      FrameSplits(s);
      var frame := NextFrame(s).value.value;
      ReadIsFramed(frame.rest);
      var more := Frames(frame.rest).value;
      assert ([frame.payload] + more)[1..] == more;
    }
  }

  /**
   A stream reads as these payloads if and only if it is their framing, and then each is
   newline-free and within the bound.
   */
  lemma FramesExactly(s: Bytes, payloads: seq<Bytes>)
    ensures Frames(s) == Ok(payloads) <==> s == Framed(payloads) && forall i :: 0 <= i < |payloads| ==>
                                                                                  ValidPayload(payloads[i])
  {
    if Frames(s).Ok? {
      ReadIsFramed(s);
    }
    if forall i :: 0 <= i < |payloads| ==> ValidPayload(payloads[i]) {
      FramedIsRead(payloads);
    }
  }

  // ---------------------------------------------------------------------------------------------
  // The worker's reader
  // ---------------------------------------------------------------------------------------------

  /** A connection hands out what is left in chunks of any size, and nothing at its end. */
  class Connection {
    var incoming: Bytes

    constructor (incoming: Bytes)
      ensures this.incoming == incoming
    {
      this.incoming := incoming;
    }

    method Recv(limit: nat) returns (chunk: Bytes)
      requires limit > 0
      modifies this
      ensures chunk + incoming == old(incoming) && |chunk| <= limit
      ensures chunk == [] <==> old(incoming) == []
    {
      if incoming == [] {
        return [];
      }
      var n: nat :| 1 <= n <= limit && n <= |incoming|;
      chunk := incoming[..n];
      incoming := incoming[n..];
    }
  }

  class FrameReader {
    const connection: Connection
    var buffer: Bytes

    constructor (connection: Connection)
      ensures this.connection == connection && buffer == []
    {
      this.connection := connection;
      buffer := [];
    }

    predicate Valid()
      reads this
    {
      |buffer| <= MAX_FRAME_SIZE + 1
    }

    /** What has been received but not returned, and what is still to come. */
    function Stream(): Bytes
      reads this, connection
    {
      buffer + connection.incoming
    }

    /** However the connection splits the stream, its next frame is returned, and the buffer stays bounded. */
    method Read() returns (r: Result<Option<Bytes>, FrameError>)
      requires Valid()
      modifies this, connection
      ensures Valid()
      ensures match NextFrame(old(Stream()))
              case Err(e) => r == Err(e)
              case Ok(None) => r == Ok(None) && Stream() == []
              case Ok(Some(frame)) => r == Ok(Some(frame.payload)) && Stream() == frame.rest
    {
      ghost var stream := Stream();
      while true
        invariant Valid() && Stream() == stream
        decreases |connection.incoming|
      {
        var newline := Find(buffer);
        if newline.Some? {
          var n := newline.value;
          FoundInBuffer(buffer, connection.incoming, n);
          if n == 0 {
            return Err(EmptyFrame);
          }
          if n > MAX_FRAME_SIZE {
            return Err(TooLarge);
          }
          var payload := buffer[..n];
          buffer := buffer[n + 1..];
          return Ok(Some(payload));
        }
        NotFoundInBuffer(buffer, connection.incoming);
        if |buffer| > MAX_FRAME_SIZE {
          return Err(TooLarge);
        }
        var room := MAX_FRAME_SIZE + 1 - |buffer|;
        ghost var before := connection.incoming;
        var chunk := connection.Recv(if CHUNK < room then CHUNK else room);
        if chunk == [] {
          assert stream == buffer;
          return if buffer != [] then Err(Truncated) else Ok(None);
        }
        assert buffer + before == buffer + chunk + connection.incoming;
        buffer := buffer + chunk;
      }
    }
  }

  lemma FoundInBuffer(buffer: Bytes, incoming: Bytes, n: nat)
    requires Find(buffer) == Some(n)
    ensures Find(buffer + incoming) == Some(n)
    ensures (buffer + incoming)[..n] == buffer[..n] && (buffer + incoming)[n + 1..] == buffer[n + 1..] + incoming
  {
    var s := buffer + incoming;
    assert s[..n] == buffer[..n] && s[n] == buffer[n];
    FindIs(s, n);
  }

  /** Without a line feed in the buffer, the first one comes after it. */
  lemma NotFoundInBuffer(buffer: Bytes, incoming: Bytes)
    requires Find(buffer).None?
    ensures Find(buffer + incoming).Some? ==> Find(buffer + incoming).value >= |buffer|
    ensures incoming == [] ==> buffer + incoming == buffer
  {
    var s := buffer + incoming;
    if Find(s).Some? {
      var n := Find(s).value;
      assert forall i :: 0 <= i < |buffer| ==> s[i] == buffer[i];
    }
  }

  /** Reading until the stream ends: all its frames in order, or the first error. */
  method ReadAll(reader: FrameReader) returns (r: Result<seq<Bytes>, FrameError>)
    requires reader.Valid()
    modifies reader, reader.connection
    ensures reader.Valid() && r == Frames(old(reader.Stream()))
  {
    var payloads: seq<Bytes> := [];
    ghost var all := Frames(reader.Stream());
    assert all.Ok? ==> [] + all.value == all.value;
    while true
      invariant reader.Valid()
      invariant all == match Frames(reader.Stream())
                       case Err(e) => Err(e)
                       case Ok(more) => Ok(payloads + more)
      decreases |reader.Stream()|
    {
      var next := reader.Read();
      if next.Err? {
        return Err(next.error);
      }
      if next.value.None? {
        assert payloads + [] == payloads;
        return Ok(payloads);
      }
      ghost var more := Frames(reader.Stream());
      assert more.Ok? ==> payloads + ([next.value.value] + more.value) == payloads + [next.value.value] + more.value;
      payloads := payloads + [next.value.value];
    }
  }

  // ---------------------------------------------------------------------------------------------
  // The server's reader and writer
  // ---------------------------------------------------------------------------------------------

  datatype SliceEnd = Delimited | BufferFull | EndOfFile

  /** A buffered reader: up to a delimiter, or as much as its buffer holds. */
  class BufferedReader {
    var incoming: Bytes
    const size: nat

    constructor (incoming: Bytes, size: nat)
      requires size > 0
      ensures this.incoming == incoming && this.size == size
    {
      this.incoming, this.size := incoming, size;
    }

    method ReadSlice() returns (chunk: Bytes, end: SliceEnd)
      requires size > 0
      modifies this
      ensures chunk + incoming == old(incoming)
      ensures end.Delimited? ==> chunk != [] && Find(old(incoming)) == Some(|chunk| - 1)
      ensures end.BufferFull? ==> chunk != [] && LF !in chunk
      ensures end.EndOfFile? ==> incoming == [] && LF !in chunk
    {
      var newline := Find(incoming);
      if newline.Some? && newline.value < size {
        chunk, end := incoming[..newline.value + 1], Delimited;
      } else if |incoming| >= size {
        chunk, end := incoming[..size], BufferFull;
        assert newline.Some? ==> chunk == incoming[..newline.value][..size];
      } else {
        chunk, end := incoming, EndOfFile;
      }
      incoming := incoming[|chunk|..];
    }
  }

  /** The first frame for this reader; the end of the file is `Ok(None)`. */
  function NextServerFrame(s: Bytes): Result<Option<Frame>, FrameError> {
    match Find(s)
    case Some(n) =>
      if n == 0 then Err(EmptyFrame)
      else if n > MAX_FRAME_SIZE then Err(TooLarge)
      else Ok(Some(Frame(s[..n], s[n + 1..])))
    case None =>
      if |s| > MAX_FRAME_SIZE + 1 then Err(TooLarge)
      else if s == [] then Ok(None)
      else Err(Truncated)
  }

  method ReadFrame(reader: BufferedReader) returns (r: Result<Option<Bytes>, FrameError>)
    requires reader.size > 0
    modifies reader
    ensures match NextServerFrame(old(reader.incoming))
            case Err(e) => r == Err(e)
            case Ok(None) => r == Ok(None) && reader.incoming == []
            case Ok(Some(frame)) => r == Ok(Some(frame.payload)) && reader.incoming == frame.rest
  {
    var frame: Bytes := [];
    ghost var stream := reader.incoming;
    while true
      invariant frame + reader.incoming == stream && LF !in frame && |frame| <= MAX_FRAME_SIZE + 1
      decreases |reader.incoming|
    {
      ghost var before := reader.incoming;
      var chunk, end := reader.ReadSlice();
      SliceSplits(frame, before, chunk, reader.incoming, end);
      Verdict(frame, before, chunk, reader.incoming, end);
      if |frame| + |chunk| > MAX_FRAME_SIZE + 1 {
        return Err(TooLarge);
      }
      frame := frame + chunk;
      match end {
        case Delimited =>
          frame := frame[..|frame| - 1];
          return if frame == [] then Err(EmptyFrame) else Ok(Some(frame));
        case BufferFull =>
        case EndOfFile =>
          return if frame != [] then Err(Truncated) else Ok(None);
      }
    }
  }

  /** What the slice just read says about the stream. */
  lemma Verdict(frame: Bytes, before: Bytes, chunk: Bytes, after: Bytes, end: SliceEnd)
    requires LF !in frame && chunk + after == before
    requires end.Delimited? ==> chunk != [] && Find(before) == Some(|chunk| - 1)
    requires !end.Delimited? ==> LF !in chunk
    requires end.EndOfFile? ==> after == []
    ensures |frame| + |chunk| > MAX_FRAME_SIZE + 1 ==> NextServerFrame(frame + before) == Err(TooLarge)
    ensures |frame| + |chunk| <= MAX_FRAME_SIZE + 1 && end.Delimited? ==>
              var whole := (frame + chunk)[..|frame| + |chunk| - 1];
              NextServerFrame(frame + before) == if whole == [] then Err(EmptyFrame) else Ok(Some(Frame(whole, after)))
    ensures |frame| + |chunk| <= MAX_FRAME_SIZE + 1 && end.EndOfFile? ==>
              NextServerFrame(frame + before) == if frame + chunk == [] then Ok(None) else Err(Truncated)
  {
    SliceSplits(frame, before, chunk, after, end);
    if end.EndOfFile? {
      assert before == chunk;
    }
  }

  lemma SliceSplits(frame: Bytes, before: Bytes, chunk: Bytes, after: Bytes, end: SliceEnd)
    requires LF !in frame && chunk + after == before
    requires end.Delimited? ==> chunk != [] && Find(before) == Some(|chunk| - 1)
    requires !end.Delimited? ==> LF !in chunk
    ensures frame + before == frame + chunk + after
    ensures end.Delimited? ==>
              && Find(frame + before) == Some(|frame| + |chunk| - 1)
              && (frame + before)[..|frame| + |chunk| - 1] == (frame + chunk)[..|frame| + |chunk| - 1]
              && (frame + before)[|frame| + |chunk|..] == after
    ensures !end.Delimited? ==> Find(frame + before).Some? ==> Find(frame + before).value >= |frame| + |chunk|
    ensures !end.Delimited? ==> LF !in frame + chunk
  {
    var s := frame + before;
    assert s == frame + chunk + after;
    if end.Delimited? {
      var n := |frame| + |chunk| - 1;
      assert s[..n] == frame + before[..|chunk| - 1] && s[n] == before[|chunk| - 1];
      FindIs(s, n);
    } else {
      assert Find(frame + chunk).None?;
      NotFoundInBuffer(frame + chunk, after);
    }
  }

  /**
   Both readers accept the same frames and refuse the same streams. Only the error differs, and
   only for a last line of one byte more than the bound that is not ended.
   */
  lemma ReadersAgree(s: Bytes)
    ensures NextFrame(s).Ok? <==> NextServerFrame(s).Ok?
    ensures NextFrame(s).Ok? ==> NextFrame(s) == NextServerFrame(s)
    ensures NextFrame(s) != NextServerFrame(s) <==> |s| == 33554433 && LF !in s
  {
    if Find(s).Some? {
      assert s[Find(s).value] in s;
    }
  }

  /** A writer may take any part of what it is given, or fail after it. */
  class Writer {
    var output: Bytes

    constructor ()
      ensures output == []
    {
      output := [];
    }

    method Write(p: Bytes) returns (written: nat, failed: bool)
      modifies this
      ensures written <= |p| && output == old(output) + p[..written]
    {
      written :| 0 <= written <= |p|;
      failed :| failed || !failed;
      output := output + p[..written];
    }
  }

  /** A frame is written whole unless the writer fails; a payload out of bounds is not written at all. */
  method WriteFrame(writer: Writer, payload: Bytes) returns (failed: Option<FrameError>)
    modifies writer
    ensures EncodeMessage(payload).Err? ==> failed == Some(TooLarge) && writer.output == old(writer.output)
    ensures EncodeMessage(payload).Ok? ==>
              && failed in {None, Some(ShortWrite)}
              && old(writer.output) <= writer.output <= old(writer.output) + payload + [LF]
              && (failed.None? ==> writer.output == old(writer.output) + EncodeMessage(payload).value)
  {
    if |payload| == 0 || |payload| > MAX_FRAME_SIZE {
      return Some(TooLarge);
    }
    var left := payload + [LF];
    ghost var whole := writer.output + left;
    assert whole == writer.output + payload + [LF];
    while |left| > 0
      invariant writer.output + left == whole && old(writer.output) <= writer.output
      decreases |left|
    {
      ghost var before := writer.output;
      var written, broken := writer.Write(left);
      assert writer.output + left[written..] == before + left;
      if broken || written == 0 {
        return Some(ShortWrite);
      }
      left := left[written..];
    }
    return None;
  }
}
