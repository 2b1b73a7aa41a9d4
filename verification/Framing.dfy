/**
 Length-prefixed frames over a stream: the encoder, the blocking reader, and the
 non-blocking reader that reassembles frames from whatever pieces arrive.
 */
module Framing {
  import opened Prelude

  const MEBIBYTE: nat := 1024 * 1024

  /** The frame limit of the PAM client. */
  const CLIENT_LIMIT: nat := MEBIBYTE

  const U32_RANGE: nat := 0x1_0000_0000

  /** `put_u32`. */
  function Header(n: nat): Bytes
    requires n < U32_RANGE
  {
    [(n / 0x100_0000) as byte, (n / 0x1_0000 % 0x100) as byte, (n / 0x100 % 0x100) as byte, (n % 0x100) as byte]
  }

  /** `u32::from_be_bytes` of the first four bytes. */
  function HeaderValue(b: Bytes): (n: nat)
    requires |b| >= 4
    ensures n < U32_RANGE
  {
    b[0] as nat * 0x100_0000 + b[1] as nat * 0x1_0000 + b[2] as nat * 0x100 + b[3] as nat
  }

  /** Headers compare byte by byte as their lengths do, the most significant byte first. */
  lemma HeadersInOrder(m: nat, n: nat)
    requires m < n < U32_RANGE
    ensures exists k: nat | k < 4 :: Header(m)[..k] == Header(n)[..k] && Header(m)[k] < Header(n)[k]
  {
    var x, y := Header(m), Header(n);
    HeaderRoundTrip(m);
    HeaderRoundTrip(n);
    if x[0] != y[0] {
      assert x[..0] == y[..0] && x[0] < y[0];
    } else if x[1] != y[1] {
      assert x[..1] == y[..1] && x[1] < y[1];
    } else if x[2] != y[2] {
      assert x[..2] == y[..2] && x[2] < y[2];
    } else {
      assert x[..3] == y[..3] && x[3] < y[3];
    }
  }

  lemma HeaderRoundTrip(n: nat)
    requires n < U32_RANGE
    ensures HeaderValue(Header(n)) == n
  {
  }

  lemma HeaderUnique(b: Bytes)
    requires |b| >= 4
    ensures Header(HeaderValue(b)) == b[..4]
  {
    var n := HeaderValue(b);
    assert n / 0x100_0000 == b[0] as nat;
    assert n / 0x1_0000 == b[0] as nat * 0x100 + b[1] as nat;
    assert n / 0x100 == b[0] as nat * 0x1_0000 + b[1] as nat * 0x100 + b[2] as nat;
  }

  /** `write_framed` and `send_message`, for a payload whose length fits the header. */
  function Frame(payload: Bytes): Bytes
    requires |payload| < U32_RANGE
  {
    Header(|payload|) + payload
  }

  ghost predicate Within(limit: nat, payloads: seq<Bytes>) {
    forall i | 0 <= i < |payloads| :: |payloads[i]| <= limit
  }

  function Encode(payloads: seq<Bytes>): Bytes
    requires Within(U32_RANGE - 1, payloads)
  {
    if payloads == [] then [] else Encode(Front(payloads)) + Frame(Last(payloads))
  }

  // ---- The blocking reader --------------------------------------------------

  datatype Read = Got(payload: Bytes, rest: Bytes) | TooLarge(len: nat) | Short

  /** `recv_response` or `read_framed` on what the stream still holds. */
  function ReadFrame(limit: nat, stream: Bytes): Read {
    if |stream| < 4 then Short
    else if HeaderValue(stream) > limit then TooLarge(HeaderValue(stream))
    else if |stream| < 4 + HeaderValue(stream) then Short
    else Got(stream[4..4 + HeaderValue(stream)], stream[4 + HeaderValue(stream)..])
  }

  /** Everything the blocking reader gets out of a stream before it stops. */
  function Frames(limit: nat, stream: Bytes): seq<Bytes>
    decreases |stream|
  {
    match ReadFrame(limit, stream)
    case Got(payload, rest) => [payload] + Frames(limit, rest)
    case _ => []
  }

  lemma ReadEncoded(limit: nat, payload: Bytes, rest: Bytes)
    requires |payload| <= limit < U32_RANGE
    ensures ReadFrame(limit, Frame(payload) + rest) == Got(payload, rest)
  {
    HeaderRoundTrip(|payload|);
    var stream := Frame(payload) + rest;
    assert stream[..4] == Header(|payload|);
    assert HeaderValue(stream) == HeaderValue(Header(|payload|));
    assert stream[4..4 + |payload|] == payload;
    assert stream[4 + |payload|..] == rest;
  }

  lemma FramesOfFrame(limit: nat, payload: Bytes, rest: Bytes)
    requires |payload| <= limit < U32_RANGE
    ensures Frames(limit, Frame(payload) + rest) == [payload] + Frames(limit, rest)
  {
    ReadEncoded(limit, payload, rest);
  }

  lemma EncodeAppend(payloads: seq<Bytes>, payload: Bytes, rest: Bytes)
    requires Within(U32_RANGE - 1, payloads) && |payload| < U32_RANGE
    ensures Encode(payloads + [payload]) + rest == Encode(payloads) + (Frame(payload) + rest)
  {
    assert Front(payloads + [payload]) == payloads;
  }

  /** What was encoded is read back first, then whatever follows. */
  lemma {:induction false} FramesOfEncoded(limit: nat, payloads: seq<Bytes>, rest: Bytes)
    requires limit < U32_RANGE && Within(limit, payloads)
    ensures Frames(limit, Encode(payloads) + rest) == payloads + Frames(limit, rest)
  {
    if payloads == [] {
      assert Encode(payloads) + rest == rest;
    } else {
      var front, p := Front(payloads), Last(payloads);
      assert payloads == front + [p];
      calc {
        Frames(limit, Encode(payloads) + rest);
        { EncodeAppend(front, p, rest); }
        Frames(limit, Encode(front) + (Frame(p) + rest));
        { FramesOfEncoded(limit, front, Frame(p) + rest); }
        front + Frames(limit, Frame(p) + rest);
        { FramesOfFrame(limit, p, rest); }
        front + ([p] + Frames(limit, rest));
        payloads + Frames(limit, rest);
      }
    }
  }

  // ---- The non-blocking reader ----------------------------------------------

  /** The header's four bytes and what they announce. */
  type Total = n: nat | n >= 4 witness 4

  datatype Reader = Reader(buf: Bytes, expectedTotal: Option<Total>)

  datatype Outcome = Delivered(payload: Bytes) | Incomplete | Oversized(len: nat) | IoFailed

  /** What one call finds on the socket: the bytes that arrived, and whether reading then failed. */
  datatype Arrival = Arrival(bytes: Bytes, failed: bool)

  function Absorb(r: Reader, a: Arrival): Reader {
    r.(buf := r.buf + a.bytes)
  }

  /** `try_read_response_nonblocking` after its read loop. */
  function Split(r: Reader): (Reader, Outcome) {
    if r.expectedTotal.None? && |r.buf| < 4 then (r, Incomplete)
    else if r.expectedTotal.None? && HeaderValue(r.buf) > CLIENT_LIMIT then (r, Oversized(HeaderValue(r.buf)))
    else
      var total: Total := if r.expectedTotal.None? then 4 + HeaderValue(r.buf) else r.expectedTotal.value;
      if |r.buf| < total then (r.(expectedTotal := Some(total)), Incomplete)
      else (Reader(r.buf[total..], None), Delivered(r.buf[4..total]))
  }

  function Call(r: Reader, a: Arrival): (Reader, Outcome) {
    if a.failed then (Absorb(r, a), IoFailed) else Split(Absorb(r, a))
  }

  /** A connection after a number of calls: what came in, what came out. */
  datatype Connection = Connection(reader: Reader, received: Bytes, frames: seq<Bytes>, last: Outcome)

  function AfterCall(c: Connection, a: Arrival): Connection {
    var (reader, outcome) := Call(c.reader, a);
    Connection(reader, c.received + a.bytes,
               if outcome.Delivered? then c.frames + [outcome.payload] else c.frames, outcome)
  }

  function Run(calls: seq<Arrival>): Connection {
    if calls == [] then Connection(Reader([], None), [], [], Incomplete) else AfterCall(Run(Front(calls)), Last(calls))
  }

  /** A remembered total is the one the buffered header announces, and is acceptable. */
  predicate Consistent(r: Reader) {
    r.expectedTotal.Some? ==>
      |r.buf| >= 4 && r.expectedTotal.value == 4 + HeaderValue(r.buf) && HeaderValue(r.buf) <= CLIENT_LIMIT
  }

  /** One call does to the buffer what one blocking read does to the stream. */
  lemma SplitRefinesReadFrame(r: Reader)
    requires Consistent(r)
    ensures var (r', outcome) := Split(r);
            && Consistent(r')
            && match ReadFrame(CLIENT_LIMIT, r.buf)
               case Got(payload, rest) => outcome == Delivered(payload) && r' == Reader(rest, None)
               case TooLarge(len) => outcome == Oversized(len) && r' == r
               case Short => outcome == Incomplete && r'.buf == r.buf
  {
  }

  ghost predicate Inv(c: Connection) {
    && Consistent(c.reader)
    && Within(CLIENT_LIMIT, c.frames)
    && c.received == Encode(c.frames) + c.reader.buf
    && (c.last == Incomplete ==> ReadFrame(CLIENT_LIMIT, c.reader.buf) == Short)
    && (c.last.Oversized? ==> ReadFrame(CLIENT_LIMIT, c.reader.buf) == TooLarge(c.last.len))
  }

  lemma AbsorbKeepsConsistent(r: Reader, a: Arrival)
    requires Consistent(r)
    ensures Consistent(Absorb(r, a))
  {
    if r.expectedTotal.Some? {
      assert (r.buf + a.bytes)[..4] == r.buf[..4];
      assert HeaderValue(r.buf + a.bytes) == HeaderValue(r.buf);
    }
  }

  lemma CallKeepsInv(c: Connection, a: Arrival)
    requires Inv(c)
    ensures Inv(AfterCall(c, a))
  {
    var r := Absorb(c.reader, a);
    AbsorbKeepsConsistent(c.reader, a);
    assert c.received + a.bytes == Encode(c.frames) + r.buf;
    if !a.failed {
      SplitRefinesReadFrame(r);
      var read := ReadFrame(CLIENT_LIMIT, r.buf);
      if read.Got? {
        FrameOfRead(r.buf, read.payload, read.rest);
        EncodeAppend(c.frames, read.payload, read.rest);
      }
    }
  }

  /** A read takes exactly one frame off the front. */
  lemma FrameOfRead(stream: Bytes, payload: Bytes, rest: Bytes)
    requires ReadFrame(CLIENT_LIMIT, stream) == Got(payload, rest)
    ensures |payload| <= CLIENT_LIMIT && stream == Frame(payload) + rest
  {
    HeaderUnique(stream);
  }

  lemma {:induction false} RunKeepsInv(calls: seq<Arrival>)
    ensures Inv(Run(calls))
  {
    if calls != [] {
      RunKeepsInv(Front(calls));
      CallKeepsInv(Run(Front(calls)), Last(calls));
    }
  }

  /** The bytes of all calls together, however they were cut. */
  function Stream(calls: seq<Arrival>): Bytes {
    if calls == [] then [] else Stream(Front(calls)) + Last(calls).bytes
  }

  lemma {:induction false} StreamPrefix(calls: seq<Arrival>, n: nat)
    requires n <= |calls|
    ensures Stream(calls[..n]) <= Stream(calls)
  {
    if n == |calls| {
      assert calls[..n] == calls;
    } else {
      assert Front(calls)[..n] == calls[..n];
      StreamPrefix(Front(calls), n);
    }
  }

  lemma {:induction false} ReceivedIsStream(calls: seq<Arrival>)
    ensures Run(calls).received == Stream(calls)
  {
    if calls != [] {
      ReceivedIsStream(Front(calls));
    }
  }

  /**
   Nothing is lost, duplicated or reordered: at any time the bytes that arrived are
   the frames handed out followed by the buffer, and a remembered total is the one
   the buffered header announces.
   */
  lemma BytesAreConserved(calls: seq<Arrival>)
    ensures Within(1_048_576, Run(calls).frames)
    ensures Stream(calls) == Encode(Run(calls).frames) + Run(calls).reader.buf
    ensures Consistent(Run(calls).reader)
  {
    RunKeepsInv(calls);
    ReceivedIsStream(calls);
  }

  /**
   For every way of cutting a stream into reads: the frames handed out so far are
   those the blocking reader gets first, and when a call has nothing more to give
   they are all of them, with the same verdict on an oversized header.
   */
  lemma SameFramesAsBlockingReader(calls: seq<Arrival>)
    ensures var c := Run(calls);
            && Frames(CLIENT_LIMIT, Stream(calls)) == c.frames + Frames(CLIENT_LIMIT, c.reader.buf)
            && (c.last.Incomplete? || c.last.Oversized? ==> c.frames == Frames(CLIENT_LIMIT, Stream(calls)))
            && (c.last.Oversized? ==> ReadFrame(CLIENT_LIMIT, c.reader.buf) == TooLarge(c.last.len))
  {
    BytesAreConserved(calls);
    RunKeepsInv(calls);
    FramesOfEncoded(CLIENT_LIMIT, Run(calls).frames, Run(calls).reader.buf);
  }

  /** Calling again without new bytes hands out the next frame as long as there is one. */
  lemma CallingAgainMakesProgress(calls: seq<Arrival>)
    ensures var c := Run(calls); var next := Run(calls + [Arrival([], false)]);
            if Frames(CLIENT_LIMIT, c.reader.buf) != []
            then next.frames == c.frames + [Frames(CLIENT_LIMIT, c.reader.buf)[0]]
            else next.frames == c.frames && next.last != IoFailed
  {
    RunKeepsInv(calls);
    var c := Run(calls);
    assert Front(calls + [Arrival([], false)]) == calls;
    assert Absorb(c.reader, Arrival([], false)) == c.reader;
    SplitRefinesReadFrame(c.reader);
  }

  /** Any cutting of encoded payloads up to the limit gives back exactly those payloads. */
  lemma EncodeThenReassemble(payloads: seq<Bytes>, calls: seq<Arrival>)
    requires Within(1_048_576, payloads) && Stream(calls) == Encode(payloads)
    requires Run(calls).last == Incomplete
    ensures Run(calls).frames == payloads && Run(calls).reader.buf == []
  {
    SameFramesAsBlockingReader(calls);
    BytesAreConserved(calls);
    FramesOfEncoded(CLIENT_LIMIT, payloads, []);
    assert Encode(payloads) + [] == Encode(payloads);
    assert Frames(CLIENT_LIMIT, []) == [];
  }

  /** Frames at the front of an encoding are the first ones encoded. */
  lemma EncodedPrefix(payloads: seq<Bytes>, frames: seq<Bytes>, tail: Bytes)
    requires Within(CLIENT_LIMIT, payloads) && Within(CLIENT_LIMIT, frames)
    requires Encode(payloads) == Encode(frames) + tail
    ensures frames <= payloads
  {
    FramesOfEncoded(CLIENT_LIMIT, frames, tail);
    assert Encode(payloads) + [] == Encode(payloads);
    FramesOfEncoded(CLIENT_LIMIT, payloads, []);
    assert payloads == frames + Frames(CLIENT_LIMIT, tail);
  }

  lemma Suffix(whole: Bytes, a: Bytes, b: Bytes) returns (tail: Bytes)
    requires a + b <= whole
    ensures whole == a + tail
  {
    tail := whole[|a|..];
  }

  /** Of bytes sent as frames, however cut and however few have come, only frames sent are handed out. */
  lemma HandedOutWasSent(payloads: seq<Bytes>, calls: seq<Arrival>)
    requires Within(CLIENT_LIMIT, payloads) && Stream(calls) <= Encode(payloads)
    ensures Run(calls).frames <= payloads
  {
    BytesAreConserved(calls);
    var frames, buf := Run(calls).frames, Run(calls).reader.buf;
    var tail := Suffix(Encode(payloads), Encode(frames), buf);
    EncodedPrefix(payloads, frames, tail);
  }

  /** A payload handed out by some call is one that was sent. */
  lemma DeliveredWasSent(payload: Bytes, calls: seq<Arrival>, n: nat)
    requires |payload| <= CLIENT_LIMIT && Stream(calls) <= Encode([payload]) && n <= |calls|
    requires Run(calls[..n]).last.Delivered?
    ensures Run(calls[..n]).last.payload == payload
  {
    StreamPrefix(calls, n);
    HandedOutWasSent([payload], calls[..n]);
    var c := Run(calls[..n]);
    assert c.frames != [] && Last(c.frames) == c.last.payload;
    assert c.frames[|c.frames| - 1] == [payload][|c.frames| - 1];
  }

  /** A longer payload is refused at its header, by either reader. */
  lemma OversizedIsRefused(limit: nat, payload: Bytes, rest: Bytes)
    requires limit < |payload| < U32_RANGE
    ensures ReadFrame(limit, Frame(payload) + rest) == TooLarge(|payload|)
  {
    HeaderRoundTrip(|payload|);
    var stream := Frame(payload) + rest;
    assert HeaderValue(stream) == HeaderValue(Header(|payload|)) by {
      assert stream[..4] == Header(|payload|);
    }
  }

  /** One answer of the non-blocking socket. */
  datatype SocketRead = Data(bytes: Bytes) | Eof | WouldBlock | Interrupted | Error

  datatype IpcError = Io | FrameTooLarge(len: nat) | BadMessage

  /** What one call reads before it stops, and whether it stops on an error. */
  function Drained(answers: seq<SocketRead>): Arrival {
    if answers == [] then Arrival([], false)
    else
      match answers[0]
      case Data(bytes) => var tail := Drained(answers[1..]); Arrival(bytes + tail.bytes, tail.failed)
      case Error => Arrival([], true)
      case _ => Arrival([], false)
  }

  predicate AllData(answers: seq<SocketRead>) {
    forall i | 0 <= i < |answers| :: answers[i].Data?
  }

  function DataOf(answers: seq<SocketRead>): Bytes
    requires AllData(answers)
  {
    if answers == [] then [] else answers[0].bytes + DataOf(answers[1..])
  }

  /**
   A call reads all the data up to the first answer that is none, and fails exactly if
   that answer is an error other than would-block or an interrupt.
   */
  lemma {:induction false} DrainedIs(answers: seq<SocketRead>, n: nat)
    requires n <= |answers| && AllData(answers[..n]) && (n < |answers| ==> !answers[n].Data?)
    ensures Drained(answers).bytes == DataOf(answers[..n])
    ensures Drained(answers).failed <==> n < |answers| && answers[n] == Error
  {
    if n > 0 {
      assert answers[0] == answers[..n][0];
      assert answers[1..][..n - 1] == answers[..n][1..];
      DrainedIs(answers[1..], n - 1);
    }
  }

  /**
   A call answers with a response exactly if a payload was handed out and decodes, and
   with the error of the right kind otherwise.
   */
  lemma ResponseIff<T(!new)>(decode: Bytes -> Option<T>, outcome: Outcome)
    ensures var r := Response(decode, outcome);
            && (forall x :: r == Ok(Some(x)) <==> outcome.Delivered? && decode(outcome.payload) == Some(x))
            && (r == Ok(None) <==> outcome == Incomplete)
            && (r == Err(Io) <==> outcome == IoFailed)
            && (forall len :: r == Err(FrameTooLarge(len)) <==> outcome == Oversized(len))
            && (r == Err(BadMessage) <==> outcome.Delivered? && decode(outcome.payload) == None)
  {
  }

  /** A delivered payload still has to decode to a PAM response. */
  function Response<T>(decode: Bytes -> Option<T>, outcome: Outcome): Result<Option<T>, IpcError> {
    match outcome
    case Delivered(payload) => if decode(payload).Some? then Ok(decode(payload)) else Err(BadMessage)
    case Incomplete => Ok(None)
    case Oversized(len) => Err(FrameTooLarge(len))
    case IoFailed => Err(Io)
  }

  class IpcClient {
    var readBuf: Bytes
    var expectedTotal: Option<Total>

    ghost function View(): Reader
      reads this
    {
      Reader(readBuf, expectedTotal)
    }

    constructor ()
      ensures View() == Reader([], None)
    {
      readBuf, expectedTotal := [], None;
    }

    /** The read loop: take what there is; `failed` when it ends in an error. */
    method ReadAvailable(answers: seq<SocketRead>) returns (failed: bool)
      modifies this
      ensures View() == Absorb(old(View()), Drained(answers))
      ensures failed == Drained(answers).failed
    {
      var i := 0;
      while i < |answers|
        invariant i <= |answers| && expectedTotal == old(expectedTotal)
        invariant readBuf + Drained(answers[i..]).bytes == old(readBuf) + Drained(answers).bytes
        invariant Drained(answers[i..]).failed == Drained(answers).failed
      {
        assert answers[i..][1..] == answers[i + 1..];
        match answers[i] {
          case Data(bytes) =>
            assert (readBuf + bytes) + Drained(answers[i + 1..]).bytes == readBuf + Drained(answers[i..]).bytes;
            readBuf := readBuf + bytes;
          case Error =>
            assert readBuf + [] == readBuf;
            return true;
          case _ =>
            assert readBuf + [] == readBuf;
            return false;
        }
        i := i + 1;
      }
      assert readBuf + [] == readBuf;
      failed := false;
    }

    /** `try_read_response_nonblocking`, given what the socket answers to its reads. */
    method TryReadResponse<T>(answers: seq<SocketRead>, decode: Bytes -> Option<T>)
        returns (r: Result<Option<T>, IpcError>)
      modifies this
      ensures View() == Call(old(View()), Drained(answers)).0
      ensures r == Response(decode, Call(old(View()), Drained(answers)).1)
    {
      var failed := ReadAvailable(answers);
      if failed {
        return Err(Io);
      }
      if expectedTotal.None? {
        if |readBuf| < 4 {
          return Ok(None);
        }
        var len := HeaderValue(readBuf);
        if len > CLIENT_LIMIT {
          return Err(FrameTooLarge(len));
        }
        expectedTotal := Some(4 + len);
      }
      var total := expectedTotal.value;
      if |readBuf| < total {
        return Ok(None);
      }
      var data := readBuf[4..total];
      readBuf := readBuf[total..];
      expectedTotal := None;
      var response := decode(data);
      if response.None? {
        return Err(BadMessage);
      }
      return Ok(response);
    }
  }
}
