/**
  `ProtobufCodecLite`: messages framed by a length, a tag and a checksum, cut out of a byte stream again.
  Serialization, the checksum and the raw-message callback are parameters.
*/
module ProtobufCodec {

  import opened ByteBuffer

  const HEADER_LEN := 4
  const CHECKSUM_LEN := 4
  const MAX_MESSAGE_LEN := 64 * 1024 * 1024

  type Bytes = seq<byte>

  datatype Option<T> = None | Some(value: T)

  datatype ErrorCode = NoError | InvalidLength | CheckSumError | UnknownMessageType | ParseError

  /** `raw` tells of a whole frame whether it is to be parsed; a codec without such a callback parses all. */
  datatype Codec<!Msg> = Codec(tag: Bytes, serialize: Msg -> Bytes, parse: Bytes -> Option<Msg>,
                               checksum: Bytes -> int32, raw: Bytes -> bool)
  {
    function MinMessageLen(): nat {
      |tag| + CHECKSUM_LEN
    }
  }

  // ------------------------------------------------------------------- one frame

  function Body<Msg>(c: Codec<Msg>, m: Msg): Bytes {
    c.tag + c.serialize(m)
  }

  /** The length of the message is an `int32_t`; the sender checks no more than that. */
  predicate Sendable<Msg>(c: Codec<Msg>, m: Msg) {
    |Body(c, m)| + CHECKSUM_LEN < 0x8000_0000
  }

  predicate Fits<Msg>(c: Codec<Msg>, m: Msg) {
    |Body(c, m)| + CHECKSUM_LEN <= MAX_MESSAGE_LEN
  }

  function Frame<Msg>(c: Codec<Msg>, m: Msg): Bytes
    requires Sendable(c, m)
  {
    var body := Body(c, m);
    Encode32((|body| + CHECKSUM_LEN) as int32) + (body + Encode32(c.checksum(body)))
  }

  predicate ValidChecksum<Msg>(c: Codec<Msg>, b: Bytes)
    requires |b| >= CHECKSUM_LEN
  {
    c.checksum(b[..|b| - CHECKSUM_LEN]) == Decode32(b[|b| - CHECKSUM_LEN..])
  }

  datatype Parsed<Msg> = Good(m: Msg) | Bad(error: ErrorCode)

  function Parse<Msg>(c: Codec<Msg>, b: Bytes): Parsed<Msg>
    requires |b| >= c.MinMessageLen()
  {
    if !ValidChecksum(c, b) then Bad(CheckSumError)
    else if b[..|c.tag|] != c.tag then Bad(UnknownMessageType)
    else match c.parse(b[|c.tag|..|b| - CHECKSUM_LEN])
      case Some(m) => Good(m)
      case None => Bad(ParseError)
  }

  // ------------------------------------------------------------------ the stream

  /** What the front of the buffer holds. */
  datatype Head<Msg> = Wait | Fail(error: ErrorCode) | Skip(n: int) | Got(m: Msg, n: int)

  function Front<Msg>(c: Codec<Msg>, b: Bytes): (r: Head<Msg>)
    ensures r.Skip? || r.Got? ==> HEADER_LEN <= r.n <= |b|
  {
    if |b| < c.MinMessageLen() + HEADER_LEN then Wait
    else
      var len := Decode32(b[..HEADER_LEN]) as int;
      if len > MAX_MESSAGE_LEN || len < c.MinMessageLen() then Fail(InvalidLength)
      else if |b| < HEADER_LEN + len then Wait
      else if !c.raw(b[..HEADER_LEN + len]) then Skip(HEADER_LEN + len)
      else match Parse(c, b[HEADER_LEN..HEADER_LEN + len])
        case Good(m) => Got(m, HEADER_LEN + len)
        case Bad(e) => Fail(e)
  }

  /** The messages handed to the callback, what is left in the buffer, and the error on which the loop stopped. */
  datatype Result<Msg> = Result(messages: seq<Msg>, rest: Bytes, error: ErrorCode)

  function Cut<Msg>(c: Codec<Msg>, ms: seq<Msg>, b: Bytes): Result<Msg>
    decreases |b|
  {
    match Front(c, b)
    case Wait => Result(ms, b, NoError)
    case Fail(e) => Result(ms, b, e)
    case Skip(n) => Cut(c, ms, b[n..])
    case Got(m, n) => Cut(c, ms + [m], b[n..])
  }

  /** The next call, when `x` has arrived. */
  function Fed<Msg>(c: Codec<Msg>, r: Result<Msg>, x: Bytes): Result<Msg> {
    Cut(c, r.messages, r.rest + x)
  }

  // ---------------------------------------------------------------- fragmentation

  /** Once the front of the buffer is decided, later bytes do not change the decision. */
  lemma {:induction false} FrontOfLonger<Msg>(c: Codec<Msg>, b: Bytes, x: Bytes)
    requires !Front(c, b).Wait?
    ensures Front(c, b + x) == Front(c, b)
  {
    assert (b + x)[..HEADER_LEN] == b[..HEADER_LEN];
    var len := Decode32(b[..HEADER_LEN]) as int;
    if c.MinMessageLen() <= len <= MAX_MESSAGE_LEN {
      assert (b + x)[..HEADER_LEN + len] == b[..HEADER_LEN + len];
      assert (b + x)[HEADER_LEN..HEADER_LEN + len] == b[HEADER_LEN..HEADER_LEN + len];
    }
    hide Parse, Decode32;
  }

  lemma {:induction false} CutJoin<Msg>(c: Codec<Msg>, ms: seq<Msg>, b: Bytes, x: Bytes)
    ensures Fed(c, Cut(c, ms, b), x) == Cut(c, ms, b + x)
    decreases |b|
  {
    hide Front;
    var f := Front(c, b);
    if !f.Wait? {
      FrontOfLonger(c, b, x);
      if f.Skip? {
        CutJoin(c, ms, b[f.n..], x);
        assert (b + x)[f.n..] == b[f.n..] + x;
      } else if f.Got? {
        CutJoin(c, ms + [f.m], b[f.n..], x);
        assert (b + x)[f.n..] == b[f.n..] + x;
      }
    }
  }

  function Joined(pieces: seq<Bytes>): Bytes {
    if pieces == [] then [] else Joined(pieces[..|pieces| - 1]) + pieces[|pieces| - 1]
  }

  function FedAll<Msg>(c: Codec<Msg>, pieces: seq<Bytes>): Result<Msg> {
    if pieces == [] then Result([], [], NoError)
    else Fed(c, FedAll(c, pieces[..|pieces| - 1]), pieces[|pieces| - 1])
  }

  /** On any stream, good or bad, the messages, the rest and the error do not depend on how it was cut. */
  lemma {:induction false} AnyPieces<Msg>(c: Codec<Msg>, pieces: seq<Bytes>)
    ensures FedAll(c, pieces) == Cut(c, [], Joined(pieces))
  {
    if pieces == [] {
      assert Front(c, []).Wait?;
    } else {
      hide Cut;
      var n := |pieces| - 1;
      AnyPieces(c, pieces[..n]);
      CutJoin(c, [], Joined(pieces[..n]), pieces[n]);
    }
  }

  // --------------------------------------------------------- what is taken, and why not

  /** The buffer begins with a whole frame: its length, its body, and a checksum, right or wrong. */
  ghost predicate Framed<Msg>(c: Codec<Msg>, b: Bytes, body: Bytes, sum: int32) {
    && |c.tag| <= |body| && |body| + CHECKSUM_LEN <= MAX_MESSAGE_LEN
    && Encode32((|body| + CHECKSUM_LEN) as int32) + (body + Encode32(sum)) <= b
  }

  /** The length of such a frame. */
  ghost function FrameLen(body: Bytes): int {
    HEADER_LEN + |body| + CHECKSUM_LEN
  }

  /** The buffer begins with a length that no frame has. */
  ghost predicate WrongLength<Msg>(c: Codec<Msg>, b: Bytes) {
    && |b| >= c.MinMessageLen() + HEADER_LEN
    && exists len: int32 :: Encode32(len) == b[..HEADER_LEN] && !(c.MinMessageLen() <= len as int <= MAX_MESSAGE_LEN)
  }

  /** A buffer begins with at most one frame. */
  lemma {:induction false} OneFrame<Msg>(c: Codec<Msg>, b: Bytes, body: Bytes, sum: int32)
    requires Framed(c, b, body, sum)
    ensures |b| >= FrameLen(body) && Decode32(b[..HEADER_LEN]) as int == |body| + CHECKSUM_LEN
    ensures b[HEADER_LEN..FrameLen(body)] == body + Encode32(sum)
    ensures ValidChecksum(c, body + Encode32(sum)) <==> sum == c.checksum(body)
  {
    var n := (|body| + CHECKSUM_LEN) as int32;
    DecodeOfEncode(n);
    DecodeOfEncode(sum);
    hide Decode32, Encode32;
    var f := Encode32(n) + (body + Encode32(sum));
    assert b[..|f|] == f && f[..HEADER_LEN] == Encode32(n) && f[HEADER_LEN..] == body + Encode32(sum);
    assert b[..HEADER_LEN] == f[..HEADER_LEN] && b[HEADER_LEN..|f|] == f[HEADER_LEN..];
    var x := body + Encode32(sum);
    assert x[..|x| - CHECKSUM_LEN] == body && x[|x| - CHECKSUM_LEN..] == Encode32(sum);
  }

  /** What becomes of a whole frame at the front, by its parts alone. */
  lemma {:induction false} FrontOfFramed<Msg>(c: Codec<Msg>, b: Bytes, body: Bytes, sum: int32)
    requires Framed(c, b, body, sum)
    ensures FrameLen(body) <= |b|
    ensures Front(c, b)
            == if !c.raw(b[..FrameLen(body)]) then Skip(FrameLen(body))
               else if sum != c.checksum(body) then Fail(CheckSumError)
               else if !(c.tag <= body) then Fail(UnknownMessageType)
               else match c.parse(body[|c.tag|..])
                 case None => Fail(ParseError)
                 case Some(m) => Got(m, FrameLen(body))
  {
    OneFrame(c, b, body, sum);
    hide Decode32, Encode32, ValidChecksum, Framed;
    var x := body + Encode32(sum);
    assert x[..|c.tag|] == body[..|c.tag|] && x[|c.tag|..|x| - CHECKSUM_LEN] == body[|c.tag|..];
  }

  /** A front that is decided is a whole frame or a wrong length. */
  lemma {:induction false} DecidedIs<Msg>(c: Codec<Msg>, b: Bytes) returns (body: Bytes, sum: int32)
    ensures Front(c, b).Wait? || WrongLength(c, b) || Framed(c, b, body, sum)
    ensures WrongLength(c, b) ==> Front(c, b) == Fail(InvalidLength)
  {
    body, sum := [], 0;
    if |b| >= c.MinMessageLen() + HEADER_LEN {
      var len := Decode32(b[..HEADER_LEN]);
      EncodeOfDecode(b[..HEADER_LEN]);
      OnlyLength(b[..HEADER_LEN]);
      hide Decode32, Encode32;
      if c.MinMessageLen() <= len as int <= MAX_MESSAGE_LEN && |b| >= HEADER_LEN + len as int {
        var f := b[..HEADER_LEN + len as int];
        body := f[HEADER_LEN..len as int];
        EncodeOfDecode(f[len as int..]);
        sum := Decode32(f[len as int..]);
        assert f == Encode32(len) + (body + Encode32(sum));
      }
    }
  }

  lemma OnlyLength(h: Bytes)
    requires |h| == 4
    ensures forall len: int32 :: Encode32(len) == h ==> len == Decode32(h)
  {
    forall len: int32 | Encode32(len) == h
      ensures len == Decode32(h)
    {
      DecodeOfEncode(len);
    }
    hide Decode32, Encode32;
  }

  /** The parts of a frame that hands message `m` over. */
  ghost predicate Hands<Msg>(c: Codec<Msg>, b: Bytes, body: Bytes, m: Msg) {
    && Framed(c, b, body, c.checksum(body)) && FrameLen(body) <= |b| && c.raw(b[..FrameLen(body)])
    && c.tag <= body && c.parse(body[|c.tag|..]) == Some(m)
  }

  /**
    A message is handed over if and only if the buffer begins with its whole frame: the length, within the
    limits, then the tag and what parses to it, then the checksum of these.
  */
  lemma {:induction false} GotIff<Msg>(c: Codec<Msg>, b: Bytes, m: Msg, n: int)
    ensures Front(c, b) == Got(m, n) <==> exists body :: Hands(c, b, body, m) && n == FrameLen(body)
  {
    var body, sum := DecidedIs(c, b);
    hide Front, Encode32;
    if Front(c, b) == Got(m, n) {
      FrontOfFramed(c, b, body, sum);
      assert Hands(c, b, body, m);
    }
    if x :| Hands(c, b, x, m) && n == FrameLen(x) {
      FrontOfFramed(c, b, x, c.checksum(x));
    }
  }

  /** The defect of a frame, looked for in this order. */
  ghost predicate Defective<Msg>(c: Codec<Msg>, body: Bytes, sum: int32, e: ErrorCode) {
    match e
    case CheckSumError => sum != c.checksum(body)
    case UnknownMessageType => sum == c.checksum(body) && !(c.tag <= body)
    case ParseError => sum == c.checksum(body) && c.tag <= body && c.parse(body[|c.tag|..]).None?
    case _ => false
  }

  /** Each error is reported if and only if the frame, or its length, has that defect. */
  lemma {:induction false} FailIff<Msg>(c: Codec<Msg>, b: Bytes, e: ErrorCode)
    ensures Front(c, b) == Fail(e) <==>
            || (e == InvalidLength && WrongLength(c, b))
            || (exists body, sum :: Framed(c, b, body, sum) && FrameLen(body) <= |b| && c.raw(b[..FrameLen(body)])
                                    && Defective(c, body, sum, e))
  {
    var body, sum := DecidedIs(c, b);
    hide Front, Encode32, WrongLength;
    if Front(c, b) == Fail(e) && !WrongLength(c, b) {
      FrontOfFramed(c, b, body, sum);
      assert Defective(c, body, sum, e);
    }
    if x, y :| Framed(c, b, x, y) && FrameLen(x) <= |b| && c.raw(b[..FrameLen(x)]) && Defective(c, x, y, e) {
      FrontOfFramed(c, b, x, y);
    }
  }

  /** The codec waits if and only if there is neither a whole frame nor a wrong length. */
  lemma {:induction false} WaitIff<Msg>(c: Codec<Msg>, b: Bytes)
    ensures Front(c, b).Wait? <==> !WrongLength(c, b) && forall body, sum :: !Framed(c, b, body, sum)
  {
    var body, sum := DecidedIs(c, b);
    hide Front, Encode32, WrongLength;
    if x, y :| Framed(c, b, x, y) {
      FrontOfFramed(c, b, x, y);
    }
  }

  /** A stream as far as it has been taken: whole frames, each handed over or skipped. */
  ghost predicate Taken<Msg>(c: Codec<Msg>, frames: seq<Bytes>, ms: seq<Msg>)
    decreases |frames|
  {
    if frames == [] then ms == []
    else
      var f, rest := frames[0], frames[1..];
      match Front(c, f)
      case Skip(n) => n == |f| && Taken(c, rest, ms)
      case Got(m, n) => n == |f| && ms != [] && ms[0] == m && Taken(c, rest, ms[1..])
      case _ => false
  }

  ghost function Concat(frames: seq<Bytes>): Bytes {
    if frames == [] then [] else frames[0] + Concat(frames[1..])
  }

  /**
    The messages handed over are those of the frames before the rest, in order; the rest begins with no whole
    frame, or with the one that gave the error.
  */
  ghost predicate Explains<Msg>(c: Codec<Msg>, before: seq<Msg>, b: Bytes, r: Result<Msg>, frames: seq<Bytes>,
                                ms: seq<Msg>) {
    && b == Concat(frames) + r.rest && Taken(c, frames, ms) && r.messages == before + ms
    && Front(c, r.rest) == if r.error == NoError then Wait else Fail(r.error)
  }

  lemma {:induction false} CutIs<Msg>(c: Codec<Msg>, before: seq<Msg>, b: Bytes)
    returns (frames: seq<Bytes>, ms: seq<Msg>)
    ensures Explains(c, before, b, Cut(c, before, b), frames, ms)
    decreases |b|
  {
    hide Front, Explains;
    var f := Front(c, b);
    if f.Skip? || f.Got? {
      FrontOfPrefix(c, b, f.n);
      var before' := if f.Got? then before + [f.m] else before;
      frames, ms := CutIs(c, before', b[f.n..]);
      ExplainsMore(c, before, b, Cut(c, before', b[f.n..]), frames, ms);
      frames, ms := [b[..f.n]] + frames, if f.Got? then [f.m] + ms else ms;
    } else {
      NoErrorIsNone(c, b);
      frames, ms := [], [];
      ExplainsNothing(c, before, b, Cut(c, before, b));
    }
  }

  lemma NoErrorIsNone<Msg>(c: Codec<Msg>, b: Bytes)
    ensures Front(c, b) != Fail(NoError)
  {
    FailIff(c, b, NoError);
    hide Front, Framed;
  }

  lemma ExplainsNothing<Msg>(c: Codec<Msg>, before: seq<Msg>, b: Bytes, r: Result<Msg>)
    requires r.messages == before && r.rest == b && Front(c, b) == if r.error == NoError then Wait else Fail(r.error)
    ensures Explains(c, before, b, r, [], [])
  {
    hide Front;
    assert before + [] == before && [] + b == b;
  }

  lemma {:induction false} ExplainsMore<Msg>(c: Codec<Msg>, before: seq<Msg>, b: Bytes, r: Result<Msg>,
                                             frames: seq<Bytes>, ms: seq<Msg>)
    requires var f := Front(c, b);
             && (f.Skip? || f.Got?) && f.n <= |b| && Front(c, b[..f.n]) == f
             && Explains(c, if f.Got? then before + [f.m] else before, b[f.n..], r, frames, ms)
    ensures var f := Front(c, b);
            Explains(c, before, b, r, [b[..f.n]] + frames, if f.Got? then [f.m] + ms else ms)
  {
    hide Front;
    var f := Front(c, b);
    var fs := [b[..f.n]] + frames;
    assert fs[0] == b[..f.n] && fs[1..] == frames;
    assert b == b[..f.n] + b[f.n..];
    if f.Got? {
      var ns := [f.m] + ms;
      assert ns[1..] == ms && before + [f.m] + ms == before + ns;
    }
  }

  /** A frame that is taken is taken without what follows it. */
  lemma {:induction false} FrontOfPrefix<Msg>(c: Codec<Msg>, b: Bytes, n: int)
    requires (Front(c, b).Skip? || Front(c, b).Got?) && Front(c, b).n == n
    ensures n <= |b| && Front(c, b[..n]) == Front(c, b)
  {
    var x := b[..n];
    assert x[..HEADER_LEN] == b[..HEADER_LEN] && x[..n] == b[..n] && x[HEADER_LEN..n] == b[HEADER_LEN..n];
    hide Parse, Decode32;
  }

  /** Nothing after the first bad frame is handed over, however much arrives. */
  lemma {:induction false} BadFrameStops<Msg>(c: Codec<Msg>, before: seq<Msg>, b: Bytes, x: Bytes)
    requires Cut(c, before, b).error != NoError
    ensures Fed(c, Cut(c, before, b), x) == Cut(c, before, b).(rest := Cut(c, before, b).rest + x)
  {
    var frames, ms := CutIs(c, before, b);
    var r := Cut(c, before, b);
    hide Front;
    FrontOfLonger(c, r.rest, x);
  }

  // ------------------------------------------------------------- messages come back

  /** What the serialization of the messages promises; and no callback takes frames away. */
  ghost predicate Faithful<Msg(!new)>(c: Codec<Msg>) {
    (forall m :: c.parse(c.serialize(m)) == Some(m)) && forall b :: c.raw(b)
  }

  /** Parsing undoes framing. */
  lemma {:induction false} ParseOfBody<Msg>(c: Codec<Msg>, m: Msg)
    requires c.parse(c.serialize(m)) == Some(m)
    ensures Parse(c, Body(c, m) + Encode32(c.checksum(Body(c, m)))) == Good(m)
  {
    var body := Body(c, m);
    var sum := Encode32(c.checksum(body));
    var b := body + sum;
    DecodeOfEncode(c.checksum(body));
    hide Decode32, Encode32;
    assert b[..|b| - CHECKSUM_LEN] == body && b[|b| - CHECKSUM_LEN..] == sum;
    assert b[..|c.tag|] == c.tag && b[|c.tag|..|b| - CHECKSUM_LEN] == c.serialize(m);
  }

  /** A whole frame at the front of the buffer is taken as its message, if and only if it is within the limit. */
  lemma {:induction false} FrontOfFrame<Msg>(c: Codec<Msg>, m: Msg, x: Bytes)
    requires c.parse(c.serialize(m)) == Some(m) && Sendable(c, m) && c.raw(Frame(c, m))
    ensures Front(c, Frame(c, m) + x) == if Fits(c, m) then Got(m, |Frame(c, m)|) else Fail(InvalidLength)
  {
    var body := Body(c, m);
    var n := (|body| + CHECKSUM_LEN) as int32;
    var tail := body + Encode32(c.checksum(body));
    ParseOfBody(c, m);
    DecodeOfEncode(n);
    hide Decode32, Encode32, Parse;
    var b := Frame(c, m) + x;
    assert b[..HEADER_LEN] == Encode32(n);
    assert b[HEADER_LEN..HEADER_LEN + n as int] == tail;
    assert b[..HEADER_LEN + n as int] == Frame(c, m);
  }

  /** A frame of which the end is missing waits for it. */
  lemma {:induction false} PartWaits<Msg>(c: Codec<Msg>, m: Msg, k: nat)
    requires Fits(c, m) && k < |Frame(c, m)|
    ensures Front(c, Frame(c, m)[..k]).Wait?
  {
    var n := (|Body(c, m)| + CHECKSUM_LEN) as int32;
    DecodeOfEncode(n);
    hide Decode32, Encode32;
    var b := Frame(c, m)[..k];
    if k >= c.MinMessageLen() + HEADER_LEN {
      assert b[..HEADER_LEN] == Encode32(n);
    }
  }

  function Frames<Msg>(c: Codec<Msg>, ms: seq<Msg>): Bytes
    requires forall i :: 0 <= i < |ms| ==> Fits(c, ms[i])
  {
    if ms == [] then []
    else
      assert Fits(c, ms[0]);
      Frame(c, ms[0]) + Frames(c, ms[1..])
  }

  lemma {:induction false} CutOfFrames<Msg(!new)>(c: Codec<Msg>, before: seq<Msg>, ms: seq<Msg>, rest: Bytes)
    requires Faithful(c) && (forall i :: 0 <= i < |ms| ==> Fits(c, ms[i])) && Front(c, rest).Wait?
    ensures Cut(c, before, Frames(c, ms) + rest) == Result(before + ms, rest, NoError)
    decreases |ms|
  {
    hide Front, Frame;
    if ms == [] {
      assert [] + rest == rest && before + ms == before;
    } else {
      var f := Frame(c, ms[0]);
      var x := Frames(c, ms[1..]) + rest;
      assert Frames(c, ms) + rest == f + x && (f + x)[|f|..] == x;
      FrontOfFrame(c, ms[0], x);
      CutOfFrames(c, before + [ms[0]], ms[1..], rest);
      assert before + [ms[0]] + ms[1..] == before + ms;
    }
  }

  /**
    However a stream of frames arrives, the callback gets the messages sent, in order and once each, and
    the buffer keeps only the unfinished frame, of which `k` bytes have come.
  */
  lemma {:induction false} MessagesComeBack<Msg(!new)>(c: Codec<Msg>, ms: seq<Msg>, next: Msg, k: nat,
                                                pieces: seq<Bytes>)
    requires Faithful(c) && (forall i :: 0 <= i < |ms| ==> Fits(c, ms[i])) && Fits(c, next) && k < |Frame(c, next)|
    requires Joined(pieces) == Frames(c, ms) + Frame(c, next)[..k]
    ensures FedAll(c, pieces) == Result(ms, Frame(c, next)[..k], NoError)
  {
    hide Front, Frame, Cut;
    AnyPieces(c, pieces);
    PartWaits(c, next, k);
    CutOfFrames(c, [], ms, Frame(c, next)[..k]);
    assert [] + ms == ms;
  }

  // ------------------------------------------------------------------- the class

  class ProtobufCodecLite<!Msg> {
    const codec: Codec<Msg>

    constructor (c: Codec<Msg>)
      ensures codec == c
    {
      codec := c;
    }

    method FillEmptyBuffer(buf: Buffer, message: Msg)
      requires buf.Valid() && buf.Contents() == [] && buf.PrependableBytes() >= HEADER_LEN && Sendable(codec, message)
      modifies buf, buf.data
      ensures buf.Valid() && (buf.data == old(buf.data) || fresh(buf.data))
      ensures buf.Contents() == Frame(codec, message)
    {
      hide Encode32, Buffer.Contents, Buffer.Valid;
      ghost var body := Body(codec, message);
      buf.Append(codec.tag);
      assert buf.Contents() == codec.tag;
      buf.Append(codec.serialize(message));
      var bytes := buf.Peek(buf.ReadableBytes());
      assert bytes == body;
      hide Body;
      buf.AppendInt32(codec.checksum(bytes));
      buf.PrependInt32(buf.ReadableBytes() as int32);
    }

    /** `messages` are those handed to the callback in this call, `error` that handed to the error callback. */
    method OnMessage(buf: Buffer) returns (messages: seq<Msg>, error: ErrorCode)
      requires buf.Valid()
      modifies buf`readerIndex, buf`writerIndex
      ensures buf.Valid() && Result(messages, buf.Contents(), error) == Cut(codec, [], old(buf.Contents()))
    {
      hide Front, Decode32, Parse;
      messages := [];
      error := NoError;
      while true
        invariant buf.Valid() && error == NoError
        invariant Cut(codec, messages, buf.Contents()) == Cut(codec, [], old(buf.Contents()))
        decreases buf.ReadableBytes()
      {
        var head := Look(buf);
        match head {
          case Wait =>
            break;
          case Fail(e) =>
            error := e;
            break;
          case Skip(n) =>
            buf.Retrieve(n);
          case Got(m, n) =>
            messages := messages + [m];
            buf.Retrieve(n);
        }
      }
    }

    /** Decide what the front of the buffer holds. */
    method Look(buf: Buffer) returns (head: Head<Msg>)
      requires buf.Valid()
      ensures head == Front(codec, buf.Contents())
    {
      if buf.ReadableBytes() < codec.MinMessageLen() + HEADER_LEN {
        return Wait;
      }
      var header := buf.PeekInt32();
      var len := header as int;
      hide Parse, Decode32;
      if len > MAX_MESSAGE_LEN || len < codec.MinMessageLen() {
        return Fail(InvalidLength);
      }
      if buf.ReadableBytes() < HEADER_LEN + len {
        return Wait;
      }
      var frame := buf.Peek(HEADER_LEN + len);
      assert frame[HEADER_LEN..] == buf.Contents()[HEADER_LEN..HEADER_LEN + len];
      if !codec.raw(frame) {
        return Skip(HEADER_LEN + len);
      }
      var parsed := Parse(codec, frame[HEADER_LEN..]);
      head := if parsed.Good? then Got(parsed.m, HEADER_LEN + len) else Fail(parsed.error);
    }
  }
}
