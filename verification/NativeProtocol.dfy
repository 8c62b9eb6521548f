/** The native messaging frame format: a four byte little-endian length followed by a JSON
    body (app/native-host/src/protocol.js). JSON itself is a pair of functions. */
module NativeProtocol {
  import opened Prelude

  type Byte = x: int | 0 <= x < 256
  type Bytes = seq<Byte>

  /** `writeUInt32LE` rejects a length of this size or more. */
  const LENGTH_LIMIT := 0x1_0000_0000

  /** JSON printing, and the partial parser that `JSON.parse` is. */
  datatype Codec<!M> = Codec(stringify: M -> Bytes, parse: Bytes -> Option<M>)

  ghost predicate Inverts<M(!new)>(codec: Codec<M>) {
    forall m: M :: codec.parse(codec.stringify(m)) == Some(m)
  }

  datatype Decoded<M> = Decoded(messages: seq<M>, rest: Bytes)

  datatype FrameError = BodyTooLong | MalformedBody

  // ---------------------------------------------------------------- frames as values

  function LengthHeader(n: nat): (h: Bytes)
    requires n < LENGTH_LIMIT
    ensures |h| == 4 && HeaderLength(h) == n
  {
    var n1 := n / 0x100;
    var n2 := n1 / 0x100;
    [n % 0x100, n1 % 0x100, n2 % 0x100, n2 / 0x100]
  }

  function HeaderLength(b: Bytes): (n: nat)
    requires |b| >= 4
    ensures n < LENGTH_LIMIT
  {
    b[0] as int + 0x100 * (b[1] as int + 0x100 * (b[2] as int + 0x100 * b[3] as int))
  }

  /** The bytes end before the frame they start does: fewer than four bytes, or a header
      that announces more than there is. */
  predicate Incomplete(b: Bytes) {
    |b| < 4 || |b| < 4 + HeaderLength(b)
  }

  predicate Frameable(bodies: seq<Bytes>) {
    forall i :: 0 <= i < |bodies| ==> |bodies[i]| < LENGTH_LIMIT
  }

  function Stream(bodies: seq<Bytes>): Bytes
    requires Frameable(bodies)
  {
    if bodies == [] then []
    else LengthHeader(|bodies[0]|) + bodies[0] + Stream(bodies[1..])
  }

  /** The bodies of the complete frames, and the bytes behind the last of them. */
  function Split(b: Bytes): (r: (seq<Bytes>, Bytes))
    ensures Frameable(r.0) && Incomplete(r.1)
    decreases |b|
  {
    if Incomplete(b) then ([], b)
    else
      var end := 4 + HeaderLength(b);
      var (bodies, rest) := Split(b[end..]);
      ([b[4..end]] + bodies, rest)
  }

  function ParseAll<M>(codec: Codec<M>, bodies: seq<Bytes>): (r: Option<seq<M>>)
    ensures r.Some? ==> |r.value| == |bodies|
  {
    if bodies == [] then Some([])
    else match (codec.parse(bodies[0]), ParseAll(codec, bodies[1..]))
      case (Some(m), Some(ms)) => Some([m] + ms)
      case _ => None
  }

  /** What one call of the decoder yields; a body that does not parse throws. */
  function Decode<M>(codec: Codec<M>, b: Bytes): Result<Decoded<M>, FrameError> {
    match ParseAll(codec, Split(b).0)
    case Some(messages) => Success(Decoded(messages, Split(b).1))
    case None => Failure(MalformedBody)
  }

  // ---------------------------------------------------------------- the two operations

  method EncodeNativeMessage<M>(codec: Codec<M>, message: M) returns (r: Result<Bytes, FrameError>)
    ensures r.Success? <==> |codec.stringify(message)| < LENGTH_LIMIT
    ensures r.Success? ==> Split(r.value) == ([codec.stringify(message)], [])
    ensures r.Success? ==> r.value == Stream([codec.stringify(message)])
  {
    var body := codec.stringify(message);
    if |body| >= LENGTH_LIMIT {
      return Failure(BodyTooLong);
    }
    var header := new Byte[4];
    var high := |body| / 0x100;
    header[0] := |body| % 0x100;
    header[1] := high % 0x100;
    header[2] := high / 0x100 % 0x100;
    header[3] := high / 0x100 / 0x100;
    r := Success(header[..] + body);
    assert header[..] == LengthHeader(|body|);
    assert Stream([body]) == LengthHeader(|body|) + body + [];
    SplitAfterStream([body], []);
    assert r.value + [] == r.value;
    assert [body] + [] == [body];
  }

  method DecodeNativeMessages<M>(codec: Codec<M>, buffer: Bytes) returns (r: Result<Decoded<M>, FrameError>)
    ensures r == Decode(codec, buffer)
  {
    var messages: seq<M> := [];
    var offset := 0;
    ghost var done: seq<Bytes> := [];
    assert buffer[offset..] == buffer && done + Split(buffer).0 == Split(buffer).0;
    while |buffer| - offset >= 4
      invariant Decoding(codec, buffer, offset, done, messages)
      decreases |buffer| - offset
    {
      var length := HeaderLength(buffer[offset..]);
      var bodyStart := offset + 4;
      var bodyEnd := bodyStart + length;
      if |buffer| < bodyEnd {
        break;
      }
      var raw := buffer[bodyStart..bodyEnd];
      var parsed := codec.parse(raw);
      DecodingStep(codec, buffer, offset, done, messages, bodyEnd);
      if parsed.None? {
        return Failure(MalformedBody);
      }
      messages := messages + [parsed.value];
      done := done + [raw];
      offset := bodyEnd;
    }
    DecodingDone(codec, buffer, offset, done, messages);
    r := Success(Decoded(messages, buffer[offset..]));
  }

  /** The decoder's progress: the frames before `offset` are `done` and parsed. */
  ghost predicate Decoding<M>(codec: Codec<M>, buffer: Bytes, offset: nat, done: seq<Bytes>, messages: seq<M>) {
    && offset <= |buffer|
    && Split(buffer) == (done + Split(buffer[offset..]).0, Split(buffer[offset..]).1)
    && ParseAll(codec, done) == Some(messages)
  }

  lemma DecodingStep<M>(codec: Codec<M>, buffer: Bytes, offset: nat, done: seq<Bytes>, messages: seq<M>, end: nat)
    requires Decoding(codec, buffer, offset, done, messages)
    requires !Incomplete(buffer[offset..]) && end == offset + 4 + HeaderLength(buffer[offset..])
    ensures codec.parse(buffer[offset + 4..end]).None? ==> Decode(codec, buffer) == Failure(MalformedBody)
    ensures codec.parse(buffer[offset + 4..end]).Some? ==>
              Decoding(codec, buffer, end, done + [buffer[offset + 4..end]],
                       messages + [codec.parse(buffer[offset + 4..end]).value])
  {
    var raw := buffer[offset + 4..end];
    SplitAt(buffer, offset);
    var later := Split(buffer[end..]).0;
    Assoc(done, [raw], later);
    ParseAllAppend(codec, done, [raw]);
    ParseOne(codec, raw);
    ParseAllAppend(codec, done + [raw], later);
  }

  lemma ParseOne<M>(codec: Codec<M>, raw: Bytes)
    ensures ParseAll(codec, [raw]).Some? <==> codec.parse(raw).Some?
    ensures ParseAll(codec, [raw]).Some? ==> ParseAll(codec, [raw]).value == [codec.parse(raw).value]
  {
  }

  lemma DecodingDone<M>(codec: Codec<M>, buffer: Bytes, offset: nat, done: seq<Bytes>, messages: seq<M>)
    requires Decoding(codec, buffer, offset, done, messages) && Incomplete(buffer[offset..])
    ensures Decode(codec, buffer) == Success(Decoded(messages, buffer[offset..]))
  {
    assert done + [] == done;
  }

  // ---------------------------------------------------------------- what they promise

  /** Every body parses, and the messages are what the bodies parse to, in order. */
  lemma {:induction false} ParseAllMeaning<M>(codec: Codec<M>, bodies: seq<Bytes>)
    ensures var r := ParseAll(codec, bodies);
            && (r.Some? <==> forall i :: 0 <= i < |bodies| ==> codec.parse(bodies[i]).Some?)
            && (r.Some? ==> forall i :: 0 <= i < |bodies| ==> codec.parse(bodies[i]) == Some(r.value[i]))
  {
    if bodies != [] {
      ParseAllMeaning(codec, bodies[1..]);
      assert forall i :: 1 <= i < |bodies| ==> bodies[i] == bodies[1..][i - 1];
    }
  }

  lemma ParseNothing<M>(codec: Codec<M>, b: seq<Bytes>)
    ensures ParseAll(codec, [] + b) == ParseAll(codec, b)
    ensures ParseAll(codec, b).Some? ==> [] + ParseAll(codec, b).value == ParseAll(codec, b).value
  {
    assert [] + b == b;
  }

  lemma ParseFirst<M>(codec: Codec<M>, a: seq<Bytes>, b: seq<Bytes>)
    requires a != []
    ensures ParseAll(codec, a + b) ==
            (match (codec.parse(a[0]), ParseAll(codec, a[1..] + b))
             case (Some(m), Some(ms)) => Some([m] + ms)
             case _ => None)
  {
    assert (a + b)[1..] == a[1..] + b;
  }

  lemma {:induction false} ParseAllAppend<M>(codec: Codec<M>, a: seq<Bytes>, b: seq<Bytes>)
    ensures ParseAll(codec, a + b) ==
            (match (ParseAll(codec, a), ParseAll(codec, b))
             case (Some(x), Some(y)) => Some(x + y)
             case _ => None)
  {
    if a == [] {
      ParseNothing(codec, b);
    } else {
      ParseFirst(codec, a, b);
      ParseAllAppend(codec, a[1..], b);
      match (codec.parse(a[0]), ParseAll(codec, a[1..]), ParseAll(codec, b)) {
        case (Some(m), Some(x), Some(y)) => Assoc([m], x, y);
        case _ =>
      }
    }
  }

  lemma Digit(digit: int, rest: int)
    requires 0 <= digit < 0x100
    ensures (digit + 0x100 * rest) % 0x100 == digit && (digit + 0x100 * rest) / 0x100 == rest
  {
  }

  lemma HeaderUnique(b: Bytes)
    requires |b| >= 4
    ensures LengthHeader(HeaderLength(b)) == b[..4]
  {
    var b0, b1, b2, b3 := b[0] as int, b[1] as int, b[2] as int, b[3] as int;
    Digit(b0, b1 + 0x100 * (b2 + 0x100 * b3));
    Digit(b1, b2 + 0x100 * b3);
    Digit(b2, b3);
  }

  /** A frame in front of a stream, put together. */
  lemma FrameInFront(header: Bytes, body: Bytes, bodies: seq<Bytes>, rest: Bytes)
    requires |body| < LENGTH_LIMIT && header == LengthHeader(|body|) && Frameable(bodies)
    ensures Stream([body] + bodies) + rest == header + body + (Stream(bodies) + rest)
  {
    assert ([body] + bodies)[1..] == bodies;
    Assoc(header + body, Stream(bodies), rest);
  }

  lemma FrameFound(b: Bytes, body: Bytes, bodies: seq<Bytes>, rest: Bytes)
    requires !Incomplete(b) && body == b[4..4 + HeaderLength(b)] && Frameable(bodies)
    requires Stream(bodies) + rest == b[4 + HeaderLength(b)..]
    ensures Stream([body] + bodies) + rest == b
  {
    HeaderUnique(b);
    FrameInFront(b[..4], body, bodies, rest);
    CutInThree(b, 4, 4 + HeaderLength(b));
  }

  lemma CutInThree(b: Bytes, i: nat, j: nat)
    requires i <= j <= |b|
    ensures b[..i] + b[i..j] + b[j..] == b
  {
  }

  /** Nothing is lost or reordered: the frames found, put back together, are the input. */
  lemma {:induction false} SplitSound(b: Bytes)
    ensures Stream(Split(b).0) + Split(b).1 == b
    decreases |b|
  {
    if !Incomplete(b) {
      var end := 4 + HeaderLength(b);
      SplitSound(b[end..]);
      FrameFound(b, b[4..end], Split(b[end..]).0, Split(b[end..]).1);
    }
  }

  lemma SplitFrame(body: Bytes, tail: Bytes)
    requires |body| < LENGTH_LIMIT
    ensures Split(LengthHeader(|body|) + body + tail) == ([body] + Split(tail).0, Split(tail).1)
  {
  }

  lemma SplitAt(b: Bytes, offset: nat)
    requires offset <= |b| && !Incomplete(b[offset..])
    ensures var start := offset + 4;
            var end := start + HeaderLength(b[offset..]);
            Split(b[offset..]) == ([b[start..end]] + Split(b[end..]).0, Split(b[end..]).1)
  {
    var left := b[offset..];
    var length := HeaderLength(left);
    assert left[4..4 + length] == b[offset + 4..offset + 4 + length];
    assert left[4 + length..] == b[offset + 4 + length..];
  }

  /** Frames in front of any bytes are split off one by one, whatever follows them. */
  lemma {:induction false} SplitAfterStream(bodies: seq<Bytes>, tail: Bytes)
    requires Frameable(bodies)
    ensures Split(Stream(bodies) + tail) == (bodies + Split(tail).0, Split(tail).1)
  {
    if bodies == [] {
      assert Stream(bodies) + tail == tail;
      assert bodies + Split(tail).0 == Split(tail).0;
    } else {
      var first := LengthHeader(|bodies[0]|) + bodies[0];
      Assoc(first, Stream(bodies[1..]), tail);
      SplitFrame(bodies[0], Stream(bodies[1..]) + tail);
      SplitAfterStream(bodies[1..], tail);
      Assoc([bodies[0]], bodies[1..], Split(tail).0);
      assert [bodies[0]] + bodies[1..] == bodies;
    }
  }

  /** The split is the only way to read the input as frames and an incomplete tail. */
  lemma SplitUnique(b: Bytes, bodies: seq<Bytes>, tail: Bytes)
    requires Frameable(bodies) && Incomplete(tail)
    ensures b == Stream(bodies) + tail <==> Split(b) == (bodies, tail)
  {
    if b == Stream(bodies) + tail {
      SplitAfterStream(bodies, tail);
      assert bodies + [] == bodies;
    } else {
      SplitSound(b);
    }
  }

  /** Appended bytes only ever continue the undecoded tail. */
  lemma SplitAppend(a: Bytes, b: Bytes)
    ensures Split(a + b) == (Split(a).0 + Split(Split(a).1 + b).0, Split(Split(a).1 + b).1)
  {
    var (bodies, rest) := Split(a);
    SplitSound(a);
    assert a + b == Stream(bodies) + (rest + b);
    SplitAfterStream(bodies, rest + b);
  }

  /** Decoding the concatenation of encoded messages gives them back, and no rest. */
  lemma FrameRoundTrip<M(!new)>(codec: Codec<M>, messages: seq<M>)
    requires Inverts(codec)
    requires forall m :: m in messages ==> |codec.stringify(m)| < LENGTH_LIMIT
    ensures var bodies := Map(messages, codec.stringify);
            Frameable(bodies) && Decode(codec, Stream(bodies)) == Success(Decoded(messages, []))
  {
    var bodies := Map(messages, codec.stringify);
    assert Frameable(bodies);
    SplitAfterStream(bodies, []);
    assert Stream(bodies) + [] == Stream(bodies);
    assert bodies + [] == bodies;
    assert forall i :: 0 <= i < |bodies| ==> codec.parse(bodies[i]) == Some(messages[i]);
    ParseAllMeaning(codec, bodies);
    assert ParseAll(codec, bodies).value == messages;
  }

  /** For any input: decoding succeeds exactly when every complete frame parses, and then
      the messages are those frames in order and the rest is the incomplete tail. */
  lemma DecodeMeaning<M>(codec: Codec<M>, b: Bytes, bodies: seq<Bytes>, tail: Bytes)
    requires Frameable(bodies) && Incomplete(tail)
    requires b == Stream(bodies) + tail
    ensures Decode(codec, b).Success? <==> forall i :: 0 <= i < |bodies| ==> codec.parse(bodies[i]).Some?
    ensures Decode(codec, b).Success? ==>
              var d := Decode(codec, b).value;
              d.rest == tail && |d.messages| == |bodies| &&
              forall i :: 0 <= i < |bodies| ==> codec.parse(bodies[i]) == Some(d.messages[i])
  {
    SplitUnique(b, bodies, tail);
    DecodeOfSplit(codec, b);
    ParseAllMeaning(codec, bodies);
  }

  lemma DecodeOfSplit<M>(codec: Codec<M>, b: Bytes)
    ensures var (bodies, tail) := Split(b);
            && (Decode(codec, b).Success? <==> ParseAll(codec, bodies).Some?)
            && (Decode(codec, b).Success? ==> Decode(codec, b).value == Decoded(ParseAll(codec, bodies).value, tail))
  {
  }
}
