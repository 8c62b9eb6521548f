/** The host's reader: every `data` event appends its chunk to the leftover of the previous
    ones and decodes again (app/native-host/src/host.js). */
module NativeHost {
  import opened Prelude
  import opened NativeProtocol

  /** What the reader holds: its leftover bytes, the messages it has passed on so far, and
      whether every event up to now was handled without an exception. */
  datatype Reader<M> = Reader(buffer: Bytes, dispatched: seq<M>, healthy: bool)

  function Start<M>(): Reader<M> {
    Reader([], [], true)
  }

  /** One `data` event. The buffer is extended before decoding, so an exception leaves the
      extended buffer behind and passes nothing on. */
  function OnData<M>(codec: Codec<M>, reader: Reader<M>, chunk: Bytes): Reader<M> {
    var buffer := reader.buffer + chunk;
    match Decode(codec, buffer)
    case Success(decoded) => Reader(decoded.rest, reader.dispatched + decoded.messages, reader.healthy)
    case Failure(_) => Reader(buffer, reader.dispatched, false)
  }

  function Run<M>(codec: Codec<M>, chunks: seq<Bytes>): Reader<M> {
    if chunks == [] then Start()
    else OnData(codec, Run(codec, chunks[..|chunks| - 1]), chunks[|chunks| - 1])
  }

  class NativeReader<M> {
    const codec: Codec<M>
    var buffer: Bytes
    var dispatched: seq<M>
    var healthy: bool

    ghost function State(): Reader<M>
      reads this
    {
      Reader(buffer, dispatched, healthy)
    }

    constructor (codec: Codec<M>)
      ensures this.codec == codec && State() == Start()
    {
      this.codec := codec;
      buffer, dispatched, healthy := [], [], true;
    }

    method Data(chunk: Bytes)
      modifies this
      ensures State() == OnData(codec, old(State()), chunk)
    {
      buffer := buffer + chunk;
      var decoded := DecodeNativeMessages(codec, buffer);
      if decoded.Failure? {
        healthy := false;
        return;
      }
      buffer := decoded.value.rest;
      Dispatch(decoded.value.messages);
    }

    method Dispatch(messages: seq<M>)
      modifies this`dispatched
      ensures dispatched == old(dispatched) + messages
    {
      for index := 0 to |messages|
        invariant dispatched == old(dispatched) + messages[..index]
      {
        dispatched := dispatched + [messages[index]];
      }
      assert messages[..|messages|] == messages;
    }
  }

  /** Where a reader stands in the stream it has received: the first `k` complete frames are
      passed on, the buffer is exactly what follows them, and it stopped short of the last
      complete frame only if some frame from there on does not parse. */
  ghost predicate InStep<M>(codec: Codec<M>, stream: Bytes, reader: Reader<M>) {
    var (bodies, rest) := Split(stream);
    var k := |reader.dispatched|;
    && k <= |bodies|
    && ParseAll(codec, bodies[..k]) == Some(reader.dispatched)
    && reader.buffer == Stream(bodies[k..]) + rest
    && (if reader.healthy then k == |bodies| else ParseAll(codec, bodies[k..]).None?)
  }

  /** Decoding the extended buffer finds exactly the frames not yet passed on, old and new. */
  lemma BufferSplit<M>(codec: Codec<M>, stream: Bytes, reader: Reader<M>, chunk: Bytes)
    requires InStep(codec, stream, reader)
    ensures |reader.dispatched| <= |Split(stream).0| <= |Split(stream + chunk).0|
    ensures Split(stream + chunk).0[..|reader.dispatched|] == Split(stream).0[..|reader.dispatched|]
    ensures Split(reader.buffer + chunk) ==
            (Split(stream + chunk).0[|reader.dispatched|..], Split(stream + chunk).1)
  {
    var (bodies, rest) := Split(stream);
    var more := Split(rest + chunk).0;
    var k := |reader.dispatched|;
    SplitAppend(stream, chunk);
    Assoc(Stream(bodies[k..]), rest, chunk);
    SplitAfterStream(bodies[k..], rest + chunk);
    CutInFront(bodies, more, k);
  }

  lemma NeverRecovers<M>(codec: Codec<M>, stream: Bytes, reader: Reader<M>, chunk: Bytes)
    requires InStep(codec, stream, reader) && !reader.healthy
    ensures Decode(codec, reader.buffer + chunk).Failure?
  {
    BufferSplit(codec, stream, reader, chunk);
    var bodies := Split(stream).0;
    var k := |reader.dispatched|;
    SplitAppend(stream, chunk);
    var more := Split(Split(stream).1 + chunk).0;
    CutInFront(bodies, more, k);
    ParseAllAppend(codec, bodies[k..], more);
  }

  lemma CaughtUp<M>(codec: Codec<M>, whole: Bytes, dispatched: seq<M>, buffer: Bytes)
    requires var (all, tail) := Split(whole);
             && |dispatched| <= |all| && ParseAll(codec, all[..|dispatched|]) == Some(dispatched)
             && Split(buffer) == (all[|dispatched|..], tail) && ParseAll(codec, all[|dispatched|..]).Some?
    ensures Decode(codec, buffer).Success?
    ensures var decoded := Decode(codec, buffer).value;
            InStep(codec, whole, Reader(decoded.rest, dispatched + decoded.messages, true))
  {
    var all, k := Split(whole).0, |dispatched|;
    var messages := ParseAll(codec, all[k..]).value;
    PartsParse(codec, all, k, dispatched, messages);
    DecodeOfSplit(codec, buffer);
    AllPassedOn(codec, whole, dispatched + messages);
  }

  lemma PartsParse<M>(codec: Codec<M>, all: seq<Bytes>, k: nat, before: seq<M>, after: seq<M>)
    requires k <= |all| && ParseAll(codec, all[..k]) == Some(before) && ParseAll(codec, all[k..]) == Some(after)
    ensures ParseAll(codec, all) == Some(before + after)
  {
    ParseAllAppend(codec, all[..k], all[k..]);
    assert all == all[..k] + all[k..];
  }

  lemma AllPassedOn<M>(codec: Codec<M>, whole: Bytes, messages: seq<M>)
    requires ParseAll(codec, Split(whole).0) == Some(messages)
    ensures InStep(codec, whole, Reader(Split(whole).1, messages, true))
  {
    var (all, tail) := Split(whole);
    assert all[..|all|] == all && all[|all|..] == [];
    assert Stream([]) + tail == tail;
  }

  lemma Stuck<M>(codec: Codec<M>, whole: Bytes, dispatched: seq<M>, buffer: Bytes)
    requires var (all, tail) := Split(whole);
             && |dispatched| <= |all| && ParseAll(codec, all[..|dispatched|]) == Some(dispatched)
             && Split(buffer) == (all[|dispatched|..], tail) && ParseAll(codec, all[|dispatched|..]).None?
    ensures Decode(codec, buffer).Failure? && InStep(codec, whole, Reader(buffer, dispatched, false))
  {
    SplitSound(buffer);
  }

  lemma DataKeepsStep<M>(codec: Codec<M>, stream: Bytes, reader: Reader<M>, chunk: Bytes)
    requires InStep(codec, stream, reader)
    ensures InStep(codec, stream + chunk, OnData(codec, reader, chunk))
  {
    BufferSplit(codec, stream, reader, chunk);
    if ParseAll(codec, Split(reader.buffer + chunk).0).Some? {
      if !reader.healthy {
        NeverRecovers(codec, stream, reader, chunk);
      }
      CaughtUp(codec, stream + chunk, reader.dispatched, reader.buffer + chunk);
    } else {
      Stuck(codec, stream + chunk, reader.dispatched, reader.buffer + chunk);
    }
  }

  /** In every run, over any chunks at all, the reader keeps its place in the stream: what it
      passed on plus what it still holds is everything it received. */
  lemma {:induction false} RunKeepsStep<M>(codec: Codec<M>, chunks: seq<Bytes>)
    ensures InStep(codec, Flatten(chunks), Run(codec, chunks))
  {
    if chunks != [] {
      var before := chunks[..|chunks| - 1];
      RunKeepsStep(codec, before);
      DataKeepsStep(codec, Flatten(before), Run(codec, before), chunks[|chunks| - 1]);
    }
  }

  /** Chunk invariance. However a stream is cut into chunks, no event throws exactly when one
      decode of the whole stream would not, and then the messages passed on over all events
      and the final buffer are those of that one decode. */
  lemma ChunkInvariance<M>(codec: Codec<M>, chunks: seq<Bytes>)
    ensures var run := Run(codec, chunks);
            var whole := Decode(codec, Flatten(chunks));
            && (run.healthy <==> whole.Success?)
            && (run.healthy ==> run.dispatched == whole.value.messages && run.buffer == whole.value.rest)
  {
    RunKeepsStep(codec, chunks);
    var run := Run(codec, chunks);
    var (bodies, rest) := Split(Flatten(chunks));
    var k := |run.dispatched|;
    assert bodies == bodies[..k] + bodies[k..];
    ParseAllAppend(codec, bodies[..k], bodies[k..]);
    if run.healthy {
      assert bodies[k..] == [] && Stream([]) + rest == rest;
      assert run.dispatched + [] == run.dispatched;
    }
  }

  /** Two cuts of one stream cannot be told apart unless a complete frame does not parse. */
  lemma CutsAgree<M>(codec: Codec<M>, chunks: seq<Bytes>, others: seq<Bytes>)
    requires Flatten(chunks) == Flatten(others)
    ensures Run(codec, chunks).healthy == Run(codec, others).healthy
    ensures Run(codec, chunks).healthy ==> Run(codec, chunks) == Run(codec, others)
  {
    ChunkInvariance(codec, chunks);
    ChunkInvariance(codec, others);
  }

  /** The exact price of a bad frame: from the event that meets it on, every later event
      throws too, nothing more is passed on and the buffer only grows. */
  lemma {:induction false} BadFrameSticks<M>(codec: Codec<M>, chunks: seq<Bytes>, later: seq<Bytes>)
    requires !Run(codec, chunks).healthy
    ensures var stuck := Run(codec, chunks);
            Run(codec, chunks + later) == Reader(stuck.buffer + Flatten(later), stuck.dispatched, false)
  {
    if later == [] {
      assert chunks + later == chunks;
      assert Run(codec, chunks).buffer + [] == Run(codec, chunks).buffer;
    } else {
      var before := later[..|later| - 1];
      var chunk := later[|later| - 1];
      assert (chunks + later)[..|chunks + later| - 1] == chunks + before;
      BadFrameSticks(codec, chunks, before);
      var stuck := Run(codec, chunks + before);
      RunKeepsStep(codec, chunks + before);
      NeverRecovers(codec, Flatten(chunks + before), stuck, chunk);
      Assoc(Run(codec, chunks).buffer, Flatten(before), chunk);
    }
  }

  lemma FailedEvent<M>(codec: Codec<M>, chunks: seq<Bytes>)
    requires chunks != [] && !Run(codec, chunks).healthy
    ensures Run(codec, chunks).dispatched == Run(codec, chunks[..|chunks| - 1]).dispatched
  {
    var before, chunk := chunks[..|chunks| - 1], chunks[|chunks| - 1];
    if !Run(codec, before).healthy {
      RunKeepsStep(codec, before);
      NeverRecovers(codec, Flatten(before), Run(codec, before), chunk);
    }
  }

  /** The last event up to which none has thrown: nothing is passed on from there on. */
  lemma {:induction false} LastHealthy<M>(readers: seq<Reader<M>>, last: nat) returns (n: nat)
    requires last < |readers| && readers[0].healthy
    requires forall m :: 0 <= m < last && !readers[m + 1].healthy ==> readers[m + 1].dispatched == readers[m].dispatched
    ensures n <= last && readers[n].healthy && readers[last].dispatched == readers[n].dispatched
    ensures forall m :: n < m <= last ==> !readers[m].healthy
  {
    n := last;
    if !readers[last].healthy {
      n := LastHealthy(readers, last - 1);
    }
  }

  /** The reader before every event and after the last. */
  ghost function Readers<M(!new)>(codec: Codec<M>, chunks: seq<Bytes>): (readers: seq<Reader<M>>)
    ensures |readers| == |chunks| + 1
    ensures forall m :: 0 <= m <= |chunks| ==> readers[m] == Run(codec, chunks[..m])
  {
    seq(|chunks| + 1, m requires 0 <= m <= |chunks| => Run(codec, chunks[..m]))
  }

  lemma FailedAt<M>(codec: Codec<M>, chunks: seq<Bytes>, m: nat)
    requires m < |chunks| && !Run(codec, chunks[..m + 1]).healthy
    ensures Run(codec, chunks[..m + 1]).dispatched == Run(codec, chunks[..m]).dispatched
  {
    assert chunks[..m + 1][..m] == chunks[..m];
    FailedEvent(codec, chunks[..m + 1]);
  }

  lemma ReadersFail<M(!new)>(codec: Codec<M>, chunks: seq<Bytes>)
    ensures var readers := Readers(codec, chunks);
            forall m :: 0 <= m < |chunks| && !readers[m + 1].healthy ==> readers[m + 1].dispatched == readers[m].dispatched
  {
    var readers := Readers(codec, chunks);
    forall m | 0 <= m < |chunks| && !readers[m + 1].healthy
      ensures readers[m + 1].dispatched == readers[m].dispatched
    {
      FailedAt(codec, chunks, m);
    }
  }

  /** What is passed on, in every run: exactly the messages of the longest start of the run that
      decodes as a whole. So good frames that arrive in the event of a bad one, in front of it or
      behind it, are never passed on. */
  lemma PassedOnExactly<M(!new)>(codec: Codec<M>, chunks: seq<Bytes>) returns (n: nat)
    ensures n <= |chunks| && Decode(codec, Flatten(chunks[..n])).Success?
    ensures Run(codec, chunks).dispatched == Decode(codec, Flatten(chunks[..n])).value.messages
    ensures forall m :: n < m <= |chunks| ==> Decode(codec, Flatten(chunks[..m])).Failure?
  {
    var readers := Readers(codec, chunks);
    ReadersFail(codec, chunks);
    assert chunks[..0] == [];
    n := LastHealthy(readers, |chunks|);
    assert chunks[..|chunks|] == chunks;
    ChunkInvariance(codec, chunks[..n]);
    forall m | n < m <= |chunks|
      ensures Decode(codec, Flatten(chunks[..m])).Failure?
    {
      ChunkInvariance(codec, chunks[..m]);
    }
  }

  /** End to end: messages a peer encodes arrive once each and in order, in any chunks. */
  lemma Delivery<M(!new)>(codec: Codec<M>, messages: seq<M>, chunks: seq<Bytes>)
    requires Inverts(codec)
    requires forall m :: m in messages ==> |codec.stringify(m)| < LENGTH_LIMIT
    requires Frameable(Map(messages, codec.stringify)) && Flatten(chunks) == Stream(Map(messages, codec.stringify))
    ensures Run(codec, chunks) == Reader([], messages, true)
  {
    FrameRoundTrip(codec, messages);
    ChunkInvariance(codec, chunks);
  }
}
