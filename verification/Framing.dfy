/**
 Length-prefixed message frames: four big-endian length bytes, then the encoded message.

 The MessagePack codec is a parameter; a round trip needs only that it decodes what it
 encodes.  A reader consumes a byte stream that may end early.
 */
module Framing {
  import opened Outcomes

  const MAX_FRAME_LEN: nat := 16 * 1024 * 1024
  const READ_CHUNK_LEN: nat := 64 * 1024
  const PREFIX_LEN: nat := 4

  datatype FrameError = UnexpectedEof | FrameTooLarge(len: nat) | Encode | Decode

  datatype Codec<!T> = Codec(encode: T -> Option<Bytes>, decode: Bytes -> Option<T>)

  /** The codec gives back what was put in. */
  ghost predicate Faithful<T(!new)>(codec: Codec<T>) {
    forall m: T :: codec.encode(m).Some? ==> codec.decode(codec.encode(m).value) == Some(m)
  }

  /** The low `width` base-256 digits of `n`, most significant first. */
  function BigEndian(n: nat, width: nat): (bytes: Bytes)
    ensures |bytes| == width
  {
    if width == 0 then [] else BigEndian(n / 256, width - 1) + [(n % 256) as byte]
  }

  function FromBigEndian(bytes: Bytes): nat {
    if bytes == [] then 0 else FromBigEndian(bytes[..|bytes| - 1]) * 256 + bytes[|bytes| - 1] as nat
  }

  function Power256(width: nat): nat {
    if width == 0 then 1 else 256 * Power256(width - 1)
  }

  lemma {:induction false} BigEndianRoundTrip(n: nat, width: nat)
    requires n < Power256(width)
    ensures FromBigEndian(BigEndian(n, width)) == n
  {
    if width > 0 {
      BigEndianRoundTrip(n / 256, width - 1);
      var bytes := BigEndian(n, width);
      assert bytes[..|bytes| - 1] == BigEndian(n / 256, width - 1);
    }
  }

  function ToBigEndian(n: nat): (bytes: Bytes)
    requires n <= MAX_FRAME_LEN
    ensures |bytes| == PREFIX_LEN && FromBigEndian(bytes) == n
  {
    assert n < Power256(4) by { assert Power256(1) == 256 && Power256(2) == 0x1_0000 && Power256(3) == 0x100_0000; }
    BigEndianRoundTrip(n, PREFIX_LEN);
    BigEndian(n, PREFIX_LEN)
  }

  // ---------------------------------------------------------------------------
  // Specification
  // ---------------------------------------------------------------------------

  /** What writing one message appends to the stream. */
  function Frame<T>(codec: Codec<T>, message: T): Result<Bytes, FrameError> {
    match codec.encode(message)
    case None => Err(Encode)
    case Some(bytes) =>
      if |bytes| > MAX_FRAME_LEN then Err(FrameTooLarge(|bytes| % 0x1_0000_0000))
      else Ok(ToBigEndian(|bytes|) + bytes)
  }

  /** One frame off the front of a stream: the message, or why there is none. */
  function Parse<T>(codec: Codec<T>, stream: Bytes): Result<T, FrameError> {
    if |stream| < PREFIX_LEN then Err(UnexpectedEof)
    else
      var len := FromBigEndian(stream[..PREFIX_LEN]);
      if len > MAX_FRAME_LEN then Err(FrameTooLarge(len))
      else if |stream| < PREFIX_LEN + len then Err(UnexpectedEof)
      else match codec.decode(stream[PREFIX_LEN..PREFIX_LEN + len])
        case None => Err(Decode)
        case Some(message) => Ok(message)
  }

  // ---------------------------------------------------------------------------
  // Reader and writer
  // ---------------------------------------------------------------------------

  lemma SliceOfTail(stream: Bytes, start: nat, from: nat, to: nat)
    requires from <= to && start + to <= |stream|
    ensures stream[start..][from..to] == stream[start + from..start + to]
  {
  }

  class Writer {
    var sent: Bytes

    constructor ()
      ensures sent == []
    {
      sent := [];
    }

    method WriteFrame<T>(codec: Codec<T>, message: T) returns (result: Result<(), FrameError>)
      modifies this
      ensures match Frame(codec, message)
              case Ok(frame) => result == Ok(()) && sent == old(sent) + frame
              case Err(error) => result == Err(error) && sent == old(sent)
    {
      var encoded := codec.encode(message);
      if encoded.None? {
        return Err(Encode);
      }
      var bytes := encoded.value;
      if |bytes| > MAX_FRAME_LEN {
        return Err(FrameTooLarge(|bytes| % 0x1_0000_0000));
      }
      sent := sent + ToBigEndian(|bytes|);
      sent := sent + bytes;
      return Ok(());
    }
  }

  class Reader {
    const stream: Bytes
    var pos: nat

    constructor (stream: Bytes)
      ensures this.stream == stream && pos == 0
    {
      this.stream := stream;
      pos := 0;
    }

    /** Fills a buffer of `count` bytes, or drains a stream that holds fewer. */
    method ReadExact(count: nat) returns (result: Result<Bytes, FrameError>)
      requires pos <= |stream|
      modifies this
      ensures if old(pos) + count <= |stream|
              then result == Ok(stream[old(pos)..old(pos) + count]) && pos == old(pos) + count
              else result == Err(UnexpectedEof) && pos == |stream|
    {
      if |stream| - pos < count {
        pos := |stream|;
        return Err(UnexpectedEof);
      }
      result := Ok(stream[pos..pos + count]);
      pos := pos + count;
    }

    method ReadFrame<T>(codec: Codec<T>) returns (result: Result<T, FrameError>)
      requires pos <= |stream|
      modifies this
      ensures result == Parse(codec, stream[old(pos)..])
      ensures pos <= |stream|
      ensures result.Ok? || result.error.Decode? ==>
                pos == old(pos) + PREFIX_LEN + FromBigEndian(stream[old(pos)..old(pos) + PREFIX_LEN])
      ensures result.Err? && result.error.FrameTooLarge? ==> pos == old(pos) + PREFIX_LEN
      ensures result.Err? && result.error.UnexpectedEof? ==> pos == |stream|
    {
      ghost var start, rest := pos, stream[pos..];
      var prefix := ReadExact(PREFIX_LEN);
      if prefix.Err? {
        return Err(prefix.error);
      }
      assert prefix.value == rest[..PREFIX_LEN];
      var len := FromBigEndian(prefix.value);
      if len > MAX_FRAME_LEN {
        return Err(FrameTooLarge(len));
      }
      var bytes: Bytes := [];
      var remaining := len;
      while remaining > 0
        invariant 0 <= remaining <= len
        invariant pos == start + PREFIX_LEN + (len - remaining) <= |stream|
        invariant bytes == stream[start + PREFIX_LEN..pos]
      {
        var chunkLen := if remaining < READ_CHUNK_LEN then remaining else READ_CHUNK_LEN;
        var chunk := ReadExact(chunkLen);
        if chunk.Err? {
          return Err(chunk.error);
        }
        bytes := bytes + chunk.value;
        remaining := remaining - chunkLen;
      }
      SliceOfTail(stream, start, PREFIX_LEN, PREFIX_LEN + len);
      assert bytes == rest[PREFIX_LEN..PREFIX_LEN + len];
      match codec.decode(bytes)
      case None => return Err(Decode);
      case Some(message) => return Ok(message);
    }
  }

  // ---------------------------------------------------------------------------
  // Round trips
  // ---------------------------------------------------------------------------

  /** The message encodes to at most 16 MiB. */
  ghost predicate Fits<T>(codec: Codec<T>, message: T) {
    codec.encode(message).Some? && |codec.encode(message).value| <= 16 * 1024 * 1024
  }

  ghost predicate AllFit<T>(codec: Codec<T>, messages: seq<T>) {
    forall i :: 0 <= i < |messages| ==> Fits(codec, messages[i])
  }

  /** A message is framed exactly when it fits; otherwise the refusal says why. */
  lemma FramedIff<T>(codec: Codec<T>, message: T)
    ensures Frame(codec, message).Ok? <==> Fits(codec, message)
    ensures codec.encode(message).None? ==> Frame(codec, message) == Err(Encode)
    ensures codec.encode(message).Some? && !Fits(codec, message) ==>
              Frame(codec, message) == Err(FrameTooLarge(|codec.encode(message).value| % 0x1_0000_0000))
  {
  }

  /** Four bytes as a number, the first the most significant. */
  function Number(a: byte, b: byte, c: byte, d: byte): nat {
    a as nat * 0x100_0000 + b as nat * 0x1_0000 + c as nat * 0x100 + d as nat
  }

  lemma FourDigits(bytes: Bytes)
    requires |bytes| == 4
    ensures FromBigEndian(bytes) == Number(bytes[0], bytes[1], bytes[2], bytes[3])
  {
    assert bytes[..3][..2][..1][..0] == [];
    assert bytes[..3][..2][..1][0] == bytes[0] && bytes[..3][..2][1] == bytes[1] && bytes[..3][2] == bytes[2];
    OneDigit(bytes[..3][..2][..1]);
    assert FromBigEndian(bytes[..3][..2]) == FromBigEndian(bytes[..3][..2][..1]) * 256 + bytes[1] as nat;
    assert FromBigEndian(bytes[..3]) == FromBigEndian(bytes[..3][..2]) * 256 + bytes[2] as nat;
  }

  lemma OneDigit(bytes: Bytes)
    requires |bytes| == 1
    ensures FromBigEndian(bytes) == bytes[0] as nat
  {
    assert bytes[..0] == [];
  }

  /** A frame is the length in four bytes, the most significant first, and then the encoding. */
  lemma FrameLayout<T>(codec: Codec<T>, message: T)
    requires Fits(codec, message)
    ensures Frame(codec, message).Ok?
    ensures var frame, bytes := Frame(codec, message).value, codec.encode(message).value;
            |frame| == 4 + |bytes| && frame[4..] == bytes && Number(frame[0], frame[1], frame[2], frame[3]) == |bytes|
  {
    var frame, bytes := Frame(codec, message).value, codec.encode(message).value;
    assert frame[..4] == ToBigEndian(|bytes|);
    FourDigits(frame[..4]);
  }

  /** What a stream is read as: an early end, a refusal of its declared length, or what the codec says. */
  lemma ParsedAs<T>(codec: Codec<T>, stream: Bytes)
    ensures |stream| < 4 ==> Parse(codec, stream) == Err(UnexpectedEof)
    ensures |stream| >= 4 ==>
              var len := Number(stream[0], stream[1], stream[2], stream[3]);
              Parse(codec, stream)
              == if len > 16 * 1024 * 1024 then Err(FrameTooLarge(len))
                 else if |stream| < 4 + len then Err(UnexpectedEof)
                 else match codec.decode(stream[4..4 + len])
                      case Some(message) => Ok(message)
                      case None => Err(Decode)
  {
    if |stream| >= 4 {
      FourDigits(stream[..4]);
    }
  }

  /** The stream that writing all messages produces. */
  function WriteAll<T>(codec: Codec<T>, messages: seq<T>): Bytes
    requires AllFit(codec, messages)
  {
    if messages == [] then []
    else
      FramedIff(codec, messages[0]);
      Frame(codec, messages[0]).value + WriteAll(codec, messages[1..])
  }

  /** Reading frames until one fails: the messages, the bytes left, and the failure. */
  datatype Session<+T> = Session(messages: seq<T>, left: Bytes, error: FrameError)

  function ReadAll<T>(codec: Codec<T>, stream: Bytes): Session<T>
    decreases |stream|
  {
    match Parse(codec, stream)
    case Err(error) => Session([], stream, error)
    case Ok(message) => After(message, ReadAll(codec, stream[PREFIX_LEN + FromBigEndian(stream[..PREFIX_LEN])..]))
  }

  function After<T>(message: T, session: Session<T>): Session<T> {
    session.(messages := [message] + session.messages)
  }

  /** A frame is read back as its message and ends where the next one starts. */
  lemma FrameRoundTrip<T(!new)>(codec: Codec<T>, message: T, rest: Bytes)
    requires Faithful(codec) && Fits(codec, message)
    ensures var frame := Frame(codec, message).value;
            && Parse(codec, frame + rest) == Ok(message)
            && PREFIX_LEN + FromBigEndian((frame + rest)[..PREFIX_LEN]) == |frame|
  {
    var bytes := codec.encode(message).value;
    var stream := Frame(codec, message).value + rest;
    assert stream[..PREFIX_LEN] == ToBigEndian(|bytes|);
    assert stream[PREFIX_LEN..PREFIX_LEN + |bytes|] == bytes;
  }

  lemma ReadFirst<T(!new)>(codec: Codec<T>, message: T, following: Bytes)
    requires Faithful(codec) && Fits(codec, message)
    ensures ReadAll(codec, Frame(codec, message).value + following) == After(message, ReadAll(codec, following))
  {
    var frame := Frame(codec, message).value;
    FrameRoundTrip(codec, message, following);
    assert (frame + following)[|frame|..] == following;
  }

  /** Exactly the messages, exactly all bytes. */
  lemma {:induction false} StreamRoundTrip<T(!new)>(codec: Codec<T>, messages: seq<T>)
    requires Faithful(codec) && AllFit(codec, messages)
    ensures ReadAll(codec, WriteAll(codec, messages)) == Session(messages, [], UnexpectedEof)
    decreases messages
  {
    if messages != [] {
      StreamRoundTrip(codec, messages[1..]);
      ReadFirst(codec, messages[0], WriteAll(codec, messages[1..]));
      assert messages == [messages[0]] + messages[1..];
    }
  }

  /** A cut frame is never taken for a message: it is an early end of the stream. */
  lemma PrefixIsIncomplete<T>(codec: Codec<T>, message: T, cut: nat)
    requires Fits(codec, message) && cut < |Frame(codec, message).value|
    ensures Parse(codec, Frame(codec, message).value[..cut]) == Err(UnexpectedEof)
  {
    var frame := Frame(codec, message).value;
    if cut >= PREFIX_LEN {
      assert frame[..cut][..PREFIX_LEN] == frame[..PREFIX_LEN] == ToBigEndian(|codec.encode(message).value|);
    }
  }

  /** How many whole frames fit in the first `cut` bytes. */
  function CompleteFrames<T>(codec: Codec<T>, messages: seq<T>, cut: nat): (k: nat)
    requires AllFit(codec, messages)
    ensures k <= |messages|
    decreases messages
  {
    if messages == [] || cut < |Frame(codec, messages[0]).value| then 0
    else 1 + CompleteFrames(codec, messages[1..], cut - |Frame(codec, messages[0]).value|)
  }

  /** Reading a stream that is cut inside its first frame, or after it. */
  lemma ReadCut<T(!new)>(codec: Codec<T>, first: T, following: Bytes, cut: nat)
    requires Faithful(codec) && Fits(codec, first) && cut <= |Frame(codec, first).value| + |following|
    ensures var frame := Frame(codec, first).value;
            var cutStream := (frame + following)[..cut];
            if cut < |frame| then ReadAll(codec, cutStream) == Session([], cutStream, UnexpectedEof)
            else ReadAll(codec, cutStream) == After(first, ReadAll(codec, following[..cut - |frame|]))
  {
    var frame := Frame(codec, first).value;
    if cut < |frame| {
      assert (frame + following)[..cut] == frame[..cut];
      PrefixIsIncomplete(codec, first, cut);
    } else {
      assert (frame + following)[..cut] == frame + following[..cut - |frame|];
      ReadFirst(codec, first, following[..cut - |frame|]);
    }
  }

  /** A stream cut anywhere yields the messages whose frames are complete, and then the early end. */
  lemma {:induction false} CutStreamYieldsCompleteFrames<T(!new)>(codec: Codec<T>, messages: seq<T>, cut: nat)
    requires Faithful(codec) && AllFit(codec, messages)
    requires cut <= |WriteAll(codec, messages)|
    ensures var session := ReadAll(codec, WriteAll(codec, messages)[..cut]);
            && session.messages == messages[..CompleteFrames(codec, messages, cut)]
            && session.error == UnexpectedEof
    decreases messages
  {
    if messages != [] {
      var first, rest := messages[0], messages[1..];
      var size, following := |Frame(codec, first).value|, WriteAll(codec, rest);
      var session := ReadAll(codec, WriteAll(codec, messages)[..cut]);
      ReadCut(codec, first, following, cut);
      if cut < size {
        assert session.messages == [] && CompleteFrames(codec, messages, cut) == 0;
      } else {
        var k := CompleteFrames(codec, rest, cut - size);
        CutStreamYieldsCompleteFrames(codec, rest, cut - size);
        assert session == After(first, ReadAll(codec, following[..cut - size]));
        FirstAndMore(messages, k);
      }
    }
  }

  lemma FirstAndMore<T>(s: seq<T>, k: nat)
    requires k < |s|
    ensures [s[0]] + s[1..][..k] == s[..k + 1]
  {
  }
}
