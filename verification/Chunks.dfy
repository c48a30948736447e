/** Bolt message chunking: the incremental decoder, the encoder, and the whole wire stack. */
module Chunks {
  import opened Bytes
  import opened PackStream
  import opened PackStreamCodec
  import opened PackStreamProofs

  /** The messages a decoder has delivered, and the bytes it still holds. */
  datatype Drained = Drained(messages: seq<seq<byte>>, pending: seq<byte>, current: seq<byte>)

  /** The 16-bit size in front of a chunk. */
  function ChunkSize(pending: seq<byte>): nat
    requires |pending| >= 2
  {
    256 * (pending[0] as int) + pending[1] as int
  }

  /** Consume every complete chunk of `pending`; a zero-size chunk ends the message in `current`. */
  function Drain(pending: seq<byte>, current: seq<byte>): Drained
    decreases |pending|
  {
    if |pending| < 2 then Drained([], pending, current) else
    var size := ChunkSize(pending);
    if size == 0 then
      var r := Drain(pending[2..], []);
      if current == [] then r else r.(messages := [current] + r.messages)
    else if |pending| < 2 + size then Drained([], pending, current)
    else Drain(pending[2 + size..], current + pending[2..2 + size])
  }

  class BoltChunkDecoder {
    var pending: seq<byte>
    var current: seq<byte>

    constructor ()
      ensures pending == [] && current == []
    {
      pending, current := [], [];
    }

    method Push(data: seq<byte>) returns (messages: seq<seq<byte>>)
      modifies this
      ensures Drained(messages, pending, current) == Drain(old(pending) + data, old(current))
    {
      pending := pending + data;
      messages := [];
      ghost var all := Drain(pending, current);
      while true
        invariant all == var r := Drain(pending, current); r.(messages := messages + r.messages)
        decreases |pending|
      {
        if |pending| < 2 {
          break;
        }
        var size := ChunkSize(pending);
        if size == 0 {
          pending := pending[2..];
          if current != [] {
            messages := messages + [current];
            current := [];
          }
          continue;
        }
        var chunkEnd := 2 + size;
        if |pending| < chunkEnd {
          break;
        }
        current := current + pending[2..chunkEnd];
        pending := pending[chunkEnd..];
      }
      assert messages + [] == messages;
    }
  }

  // ---------- Independence from the cuts ----------

  lemma DrainEnd(pending: seq<byte>, current: seq<byte>)
    requires |pending| >= 2 && ChunkSize(pending) == 0
    ensures var r := Drain(pending[2..], []);
      Drain(pending, current) == if current == [] then r else r.(messages := [current] + r.messages)
  {
  }

  lemma DrainChunk(pending: seq<byte>, current: seq<byte>)
    requires |pending| >= 2 && 0 < ChunkSize(pending) <= |pending| - 2
    ensures var end := 2 + ChunkSize(pending);
      Drain(pending, current) == Drain(pending[end..], current + pending[2..end])
  {
  }

  lemma DrainStops(pending: seq<byte>, current: seq<byte>)
    requires |pending| < 2 || 0 <= |pending| - 2 < ChunkSize(pending)
    ensures Drain(pending, current) == Drained([], pending, current)
  {
  }

  /** Draining with more bytes behind is draining, then draining the rest with what was left. */
  lemma {:induction false} DrainAppend(pending: seq<byte>, current: seq<byte>, data: seq<byte>)
    ensures var first := Drain(pending, current);
      var second := Drain(first.pending + data, first.current);
      Drain(pending + data, current) == Drained(first.messages + second.messages, second.pending, second.current)
    decreases |pending|
  {
    hide Drain;
    var all := pending + data;
    if |pending| < 2 || |pending| - 2 < ChunkSize(pending) {
      DrainStops(pending, current);
    } else if ChunkSize(pending) == 0 {
      DrainEnd(pending, current);
      DrainEnd(all, current);
      assert all[2..] == pending[2..] + data;
      DrainAppend(pending[2..], [], data);
    } else {
      var end := 2 + ChunkSize(pending);
      DrainChunk(pending, current);
      DrainChunk(all, current);
      assert all[end..] == pending[end..] + data && all[2..end] == pending[2..end];
      DrainAppend(pending[end..], current + pending[2..end], data);
    }
  }

  function Flatten(pieces: seq<seq<byte>>): seq<byte> {
    if pieces == [] then [] else pieces[0] + Flatten(pieces[1..])
  }

  /** Push the pieces one after the other. */
  function PushAll(pieces: seq<seq<byte>>, pending: seq<byte>, current: seq<byte>): Drained
    decreases |pieces|
  {
    if pieces == [] then Drained([], pending, current) else
    var first := Drain(pending + pieces[0], current);
    var more := PushAll(pieces[1..], first.pending, first.current);
    more.(messages := first.messages + more.messages)
  }

  /** What a connection does with the reads it gets: push each, collect the messages. */
  method ReceiveAll(decoder: BoltChunkDecoder, pieces: seq<seq<byte>>) returns (messages: seq<seq<byte>>)
    modifies decoder
    ensures Drained(messages, decoder.pending, decoder.current)
         == PushAll(pieces, old(decoder.pending), old(decoder.current))
  {
    hide Drain;
    messages := [];
    ghost var all := PushAll(pieces, decoder.pending, decoder.current);
    for i := 0 to |pieces|
      invariant all == var r := PushAll(pieces[i..], decoder.pending, decoder.current);
                       r.(messages := messages + r.messages)
    {
      var more := decoder.Push(pieces[i]);
      assert pieces[i..][1..] == pieces[i + 1..];
      assert forall r: seq<seq<byte>> :: messages + (more + r) == messages + more + r;
      messages := messages + more;
    }
    assert messages + [] == messages;
  }

  /** No complete chunk waits in `pending`. */
  predicate Stuck(pending: seq<byte>, current: seq<byte>) {
    Drain(pending, current) == Drained([], pending, current)
  }

  lemma {:induction false} DrainLeavesStuck(pending: seq<byte>, current: seq<byte>)
    ensures var r := Drain(pending, current); Stuck(r.pending, r.current)
    decreases |pending|
  {
    if |pending| >= 2 {
      var size := ChunkSize(pending);
      if size == 0 {
        DrainLeavesStuck(pending[2..], []);
      } else if |pending| >= 2 + size {
        DrainLeavesStuck(pending[2 + size..], current + pending[2..2 + size]);
      }
    }
  }

  /** However the bytes are cut, the messages and the final state of the decoder are the same. */
  lemma {:induction false} CutsDoNotMatter(pieces: seq<seq<byte>>, pending: seq<byte>, current: seq<byte>)
    requires Stuck(pending, current)
    ensures PushAll(pieces, pending, current) == Drain(pending + Flatten(pieces), current)
    decreases |pieces|
  {
    hide Drain;
    if pieces == [] {
      assert pending + [] == pending;
    } else {
      var first := Drain(pending + pieces[0], current);
      DrainLeavesStuck(pending + pieces[0], current);
      CutsDoNotMatter(pieces[1..], first.pending, first.current);
      DrainAppend(pending + pieces[0], current, Flatten(pieces[1..]));
      assert pending + pieces[0] + Flatten(pieces[1..]) == pending + Flatten(pieces);
    }
  }

  // ---------- Chunking ----------

  const MAX_CHUNK: nat := 0xFFFF

  function Chunked(data: seq<byte>): seq<byte>
    decreases |data|
  {
    if data == [] then [0, 0]
    else
      var n := if |data| <= MAX_CHUNK then |data| else MAX_CHUNK;
      BigEndian(2, n) + data[..n] + Chunked(data[n..])
  }

  /** Appends the chunks to what the buffer holds. */
  method EncodeBoltChunksInto(out: BytesMut, data: seq<byte>)
    modifies out
    ensures out.bytes == old(out.bytes) + Chunked(data)
  {
    var remaining := data;
    while remaining != []
      invariant old(out.bytes) + Chunked(data) == out.bytes + Chunked(remaining)
      decreases |remaining|
    {
      var chunkSize := if |remaining| <= MAX_CHUNK then |remaining| else MAX_CHUNK;
      ghost var before := out.bytes;
      out.Put(BigEndian(2, chunkSize));
      out.Put(remaining[..chunkSize]);
      assert before + (BigEndian(2, chunkSize) + remaining[..chunkSize] + Chunked(remaining[chunkSize..]))
          == out.bytes + Chunked(remaining[chunkSize..]);
      remaining := remaining[chunkSize..];
    }
    out.Put([0, 0]);
  }

  method EncodeBoltChunks(data: seq<byte>) returns (chunks: seq<byte>)
    ensures chunks == Chunked(data)
  {
    var out := new BytesMut();
    EncodeBoltChunksInto(out, data);
    chunks := out.bytes;
  }

  lemma OneChunk(chunk: seq<byte>, current: seq<byte>, more: seq<byte>)
    requires 0 < |chunk| <= MAX_CHUNK
    ensures Drain(BigEndian(2, |chunk|) + chunk + more, current) == Drain(more, current + chunk)
  {
    var n := |chunk|;
    var stream := BigEndian(2, n) + chunk + more;
    assert BigEndian(1, n / 256) == [] + [n / 256 % 256];
    assert ChunkSize(stream) == n;
    assert stream[2..2 + n] == chunk;
    assert stream[2 + n..] == more;
  }

  lemma Terminator(current: seq<byte>, rest: seq<byte>)
    ensures var r := Drain(rest, []);
      Drain([0, 0] + rest, current) == if current == [] then r else r.(messages := [current] + r.messages)
  {
    assert ([0, 0] + rest)[2..] == rest;
  }

  /** A chunked message is delivered whole, however many chunks it takes; an empty one is dropped. */
  lemma {:induction false} ChunkedRoundTrip(data: seq<byte>, current: seq<byte>, rest: seq<byte>)
    ensures var r := Drain(rest, []);
      Drain(Chunked(data) + rest, current) ==
      if current + data == [] then r else r.(messages := [current + data] + r.messages)
    decreases |data|
  {
    hide Drain, BigEndian;
    if data == [] {
      Terminator(current, rest);
      assert current + [] == current;
    } else {
      var n := if |data| <= MAX_CHUNK then |data| else MAX_CHUNK;
      var more := Chunked(data[n..]) + rest;
      assert Chunked(data) + rest == BigEndian(2, |data[..n]|) + data[..n] + more;
      OneChunk(data[..n], current, more);
      ChunkedRoundTrip(data[n..], current + data[..n], rest);
      assert current + data[..n] + data[n..] == current + data;
    }
  }

  function ChunkedAll(messages: seq<seq<byte>>): seq<byte> {
    if messages == [] then [] else Chunked(messages[0]) + ChunkedAll(messages[1..])
  }

  function NonEmpty(messages: seq<seq<byte>>): seq<seq<byte>> {
    if messages == [] then []
    else if messages[0] == [] then NonEmpty(messages[1..])
    else [messages[0]] + NonEmpty(messages[1..])
  }

  lemma {:induction false} MessagesRoundTrip(messages: seq<seq<byte>>)
    ensures Drain(ChunkedAll(messages), []) == Drained(NonEmpty(messages), [], [])
  {
    if messages != [] {
      MessagesRoundTrip(messages[1..]);
      ChunkedRoundTrip(messages[0], [], ChunkedAll(messages[1..]));
      assert [] + messages[0] == messages[0];
    }
  }

  lemma {:induction false} NonEmptyKeepsAll(messages: seq<seq<byte>>)
    ensures |NonEmpty(messages)| <= |messages|
    ensures NonEmpty(messages) == messages <==> forall m | m in messages :: m != []
  {
    if messages != [] {
      var rest := messages[1..];
      NonEmptyKeepsAll(rest);
      assert messages == [messages[0]] + rest;
      assert forall m :: m in messages <==> m == messages[0] || m in rest;
      if messages[0] != [] {
        assert NonEmpty(messages)[1..] == NonEmpty(rest);
        assert NonEmpty(messages) == messages <==> NonEmpty(rest) == rest;
      } else {
        assert messages[0] in messages;
        assert |NonEmpty(messages)| < |messages|;
      }
    }
  }

  /** Chunked messages, cut anywhere, are recovered in order exactly when none of them is empty. */
  lemma MessagesSurviveCuts(messages: seq<seq<byte>>, pieces: seq<seq<byte>>)
    requires Flatten(pieces) == ChunkedAll(messages)
    ensures PushAll(pieces, [], []) == Drained(NonEmpty(messages), [], [])
    ensures PushAll(pieces, [], []).messages == messages <==> forall m | m in messages :: m != []
  {
    CutsDoNotMatter(pieces, [], []);
    assert [] + Flatten(pieces) == Flatten(pieces);
    MessagesRoundTrip(messages);
    NonEmptyKeepsAll(messages);
  }

  // ---------- The whole stack ----------

  function Encoded(values: seq<Value>): (r: seq<seq<byte>>)
    ensures |r| == |values|
  {
    seq(|values|, i requires 0 <= i < |values| => Encode(values[i]))
  }

  /** Values encoded, chunked, and cut into arbitrary pieces arrive as their encodings, in order;
      each decodes to the normal form of the value sent and leaves no byte over. */
  lemma WireRoundTrip(values: seq<Value>, pieces: seq<seq<byte>>)
    requires forall v | v in values :: Fits(v)
    requires Flatten(pieces) == ChunkedAll(Encoded(values))
    ensures var r := PushAll(pieces, [], []);
      && r.pending == [] && r.current == []
      && |r.messages| == |values|
      && forall i | 0 <= i < |values| ::
           Decode(r.messages[i]) == Done(Norm(values[i]), |r.messages[i]|)
  {
    hide Encode, Decode, Norm, Fits;
    var sent := Encoded(values);
    assert forall m | m in sent :: m != [];
    MessagesSurviveCuts(sent, pieces);
    forall i | 0 <= i < |values|
      ensures Decode(sent[i]) == Done(Norm(values[i]), |sent[i]|)
    {
      RoundTrip(values[i], []);
      assert sent[i] + [] == sent[i];
    }
  }

  // ---------- The chunk format by its bytes ----------

  /** A size in two bytes, most significant first, and so many bytes. */
  ghost predicate IsChunk(s: seq<byte>, data: seq<byte>) {
    && 2 <= |s| && 0 < |data| <= 0xFFFF
    && s[0] == |data| / 0x100 && s[1] == |data| % 0x100 && s[2..] == data
  }

  /** Chunks of these data, and two zero bytes. */
  ghost predicate IsMessage(s: seq<byte>, chunks: seq<seq<byte>>)
    decreases |chunks|
  {
    if chunks == [] then s == [0, 0]
    else
      var n := 2 + |chunks[0]|;
      n <= |s| && IsChunk(s[..n], chunks[0]) && IsMessage(s[n..], chunks[1..])
  }

  /** However a message is cut into chunks, the decoder delivers what they hold together. */
  lemma {:induction false} ChunksAreDelivered(s: seq<byte>, chunks: seq<seq<byte>>, current: seq<byte>, rest: seq<byte>)
    requires IsMessage(s, chunks)
    ensures var r, message := Drain(rest, []), current + Flatten(chunks);
      Drain(s + rest, current) == if message == [] then r else r.(messages := [message] + r.messages)
    decreases |chunks|
  {
    hide Drain;
    if chunks == [] {
      Terminator(current, rest);
      assert current + [] == current;
    } else {
      var n := 2 + |chunks[0]|;
      ChunksAreDelivered(s[n..], chunks[1..], current + chunks[0], rest);
      var all := s + rest;
      assert all[0] == s[..n][0] && all[1] == s[..n][1];
      DrainChunk(all, current);
      assert all[2..n] == s[..n][2..] && all[n..] == s[n..] + rest;
      assert current + chunks[0] + Flatten(chunks[1..]) == current + Flatten(chunks);
    }
  }

  /** A chunk that is not complete waits. */
  lemma IncompleteWaits(s: seq<byte>, current: seq<byte>)
    requires |s| < 2 || |s| < 2 + 0x100 * (s[0] as int) + s[1] as int
    ensures Drain(s, current) == Drained([], s, current)
  {
  }

  /** The encoder fills every chunk but the last to 65535 bytes. */
  lemma {:induction false} ChunkedIsMessage(data: seq<byte>) returns (chunks: seq<seq<byte>>)
    ensures IsMessage(Chunked(data), chunks) && Flatten(chunks) == data
    ensures forall i | 0 <= i < |chunks| - 1 :: |chunks[i]| == 0xFFFF
    decreases |data|
  {
    hide BigEndian;
    if data == [] {
      chunks := [];
    } else {
      var n := if |data| <= 0xFFFF then |data| else 0xFFFF;
      var more := ChunkedIsMessage(data[n..]);
      chunks := [data[..n]] + more;
      SizeBytes(n);
      var s := Chunked(data);
      assert s[2..n + 2] == data[..n] && s[n + 2..] == Chunked(data[n..]);
      assert s[..n + 2][2..] == data[..n];
      assert chunks[1..] == more;
      if more != [] {
        NotEmptyBehind(data[n..], more);
      }
    }
  }

  lemma NotEmptyBehind(data: seq<byte>, chunks: seq<seq<byte>>)
    requires chunks != [] && Flatten(chunks) == data && IsMessage(Chunked(data), chunks)
    ensures data != []
  {
  }

  lemma SizeBytes(n: nat)
    requires n <= 0xFFFF
    ensures BigEndian(2, n) == [n / 0x100, n % 0x100]
  {
    assert BigEndian(1, n / 0x100) == [n / 0x100];
  }
}
