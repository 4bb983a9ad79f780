/**
 Fixed-size frames on a byte stream: the frame loop of the clients, which starts afresh with
 every recv and drops what is left at its end, and the server's dispatch, which takes at most
 one message from a recv. The frame size is a parameter and frames are opaque.
 */
module Framing {
  import opened Words

  type Bytes = seq<bv8>

  // Division.

  lemma DivMod(size: nat, x: nat)
    requires size > 0
    ensures x == size * (x / size) + x % size
  {
  }

  lemma Distribute(k: nat, a: nat, b: nat)
    ensures k * (a + b) == k * a + k * b
  {
  }

  /** The quotient and the remainder of a division are unique. */
  lemma QuotientIs(size: nat, x: nat, q: nat, r: nat)
    requires r < size && x == size * q + r
    ensures x / size == q && x % size == r
  {
    DivMod(size, x);
    Cancel(size, q, x / size, x % size);
    Cancel(size, x / size, q, r);
  }

  lemma MultiplesAdd(size: nat, a: nat, b: nat)
    requires size > 0 && a % size == 0 && b % size == 0
    ensures (a + b) % size == 0
  {
    DivMod(size, a);
    DivMod(size, b);
    Distribute(size, a / size, b / size);
    QuotientIs(size, a + b, a / size + b / size, 0);
  }

  lemma LedgerStep(size: nat, bytes: nat, parsed: nat, dropped: nat, length: nat)
    requires size > 0 && bytes == size * parsed + dropped
    ensures bytes + length == size * (parsed + length / size) + (dropped + length % size)
  {
    DivMod(size, length);
    Distribute(size, parsed, length / size);
  }

  lemma LostFrames(size: nat, bytes: nat, parsed: nat, dropped: nat)
    requires size > 0 && bytes == size * parsed + dropped
    ensures bytes / size == parsed + dropped / size
    ensures dropped / size == 0 <==> dropped < size
  {
    DivMod(size, dropped);
    Distribute(size, parsed, dropped / size);
    QuotientIs(size, bytes, parsed + dropped / size, dropped % size);
    if dropped < size {
      QuotientIs(size, dropped, 0, dropped);
    }
  }

  // Frames.

  /** The whole frames at the front of the data, in order. */
  function Frames(size: nat, data: Bytes): seq<Bytes>
    requires size > 0
    decreases |data|
  {
    if |data| < size then [] else [data[..size]] + Frames(size, data[size..])
  }

  function Flatten(parts: seq<Bytes>): Bytes {
    if parts == [] then [] else parts[0] + Flatten(parts[1..])
  }

  /** What the client delivers when the stream arrives in these chunks. */
  function ParseChunks(size: nat, chunks: seq<Bytes>): seq<Bytes>
    requires size > 0
  {
    if chunks == [] then [] else ParseChunks(size, chunks[..|chunks| - 1]) + Frames(size, chunks[|chunks| - 1])
  }

  /** Sending these messages and parsing them back delivers them, in order; a partial frame is dropped. */
  lemma {:induction false} RoundTrip(size: nat, messages: seq<Bytes>, residue: Bytes)
    requires size > 0 && |residue| < size
    requires forall i :: 0 <= i < |messages| ==> |messages[i]| == size
    ensures Frames(size, Flatten(messages) + residue) == messages
    decreases |messages|
  {
    if messages == [] {
      assert Flatten(messages) + residue == residue;
    } else {
      var rest := Flatten(messages[1..]) + residue;
      assert Flatten(messages) + residue == messages[0] + rest;
      assert (messages[0] + rest)[..size] == messages[0] && (messages[0] + rest)[size..] == rest;
      RoundTrip(size, messages[1..], residue);
    }
  }

  lemma {:induction false} FramesOfAligned(size: nat, a: Bytes, b: Bytes, k: nat)
    requires size > 0 && |a| == size * k
    ensures Frames(size, a + b) == Frames(size, a) + Frames(size, b)
    decreases k
  {
    if k == 0 {
      assert a + b == b && Frames(size, a) == [];
    } else {
      Distribute(size, k - 1, 1);
      assert (a + b)[..size] == a[..size] && (a + b)[size..] == a[size..] + b;
      FramesOfAligned(size, a[size..], b, k - 1);
      assert Frames(size, a + b) == [a[..size]] + (Frames(size, a[size..]) + Frames(size, b));
    }
  }

  lemma {:induction false} FlattenAppend(parts: seq<Bytes>, last: Bytes)
    ensures Flatten(parts + [last]) == Flatten(parts) + last
    decreases |parts|
  {
    if parts == [] {
      assert parts + [last] == [last] && [last][1..] == [];
    } else {
      FlattenAppend(parts[1..], last);
      assert (parts + [last])[1..] == parts[1..] + [last];
    }
  }

  lemma {:induction false} AlignedLength(size: nat, chunks: seq<Bytes>)
    requires size > 0 && forall i :: 0 <= i < |chunks| ==> |chunks[i]| % size == 0
    ensures |Flatten(chunks)| % size == 0
    decreases |chunks|
  {
    if chunks != [] {
      AlignedLength(size, chunks[1..]);
      MultiplesAdd(size, |chunks[0]|, |Flatten(chunks[1..])|);
    }
  }

  /** If every chunk but the last ends on a frame boundary, chunks do not matter. */
  lemma {:induction false} AlignedChunksDoNotMatter(size: nat, chunks: seq<Bytes>)
    requires size > 0 && forall i :: 0 <= i < |chunks| - 1 ==> |chunks[i]| % size == 0
    ensures ParseChunks(size, chunks) == Frames(size, Flatten(chunks))
    decreases |chunks|
  {
    if chunks != [] {
      var before, last := chunks[..|chunks| - 1], chunks[|chunks| - 1];
      AlignedChunksDoNotMatter(size, before);
      assert chunks == before + [last];
      FlattenAppend(before, last);
      AlignedLength(size, before);
      DivMod(size, |Flatten(before)|);
      FramesOfAligned(size, Flatten(before), last, |Flatten(before)| / size);
    }
  }

  lemma {:induction false} FrameCount(size: nat, data: Bytes)
    requires size > 0
    ensures |Frames(size, data)| == |data| / size
    decreases |data|
  {
    if |data| >= size {
      FrameCount(size, data[size..]);
      LedgerStep(size, size, 1, 0, |data[size..]|);
      DivMod(size, |data[size..]|);
      QuotientIs(size, |data|, 1 + |data[size..]| / size, |data[size..]| % size);
    } else {
      QuotientIs(size, |data|, 0, |data|);
    }
  }

  /** The bytes that are dropped at the ends of the chunks. */
  function Dropped(size: nat, chunks: seq<Bytes>): nat
    requires size > 0
  {
    if chunks == [] then 0 else Dropped(size, chunks[..|chunks| - 1]) + |chunks[|chunks| - 1]| % size
  }

  /** Every byte received is in a delivered frame or is dropped. */
  lemma {:induction false} BytesAreAccountedFor(size: nat, chunks: seq<Bytes>)
    requires size > 0
    ensures |Flatten(chunks)| == size * |ParseChunks(size, chunks)| + Dropped(size, chunks)
    decreases |chunks|
  {
    if chunks != [] {
      var before, last := chunks[..|chunks| - 1], chunks[|chunks| - 1];
      BytesAreAccountedFor(size, before);
      assert chunks == before + [last];
      FlattenAppend(before, last);
      FrameCount(size, last);
      LedgerStep(size, |Flatten(before)|, |ParseChunks(size, before)|, Dropped(size, before), |last|);
    }
  }

  /**
   The number of frames: chunking never makes the client deliver more than the stream holds,
   and it delivers fewer by exactly as many as the dropped bytes would make up. As to which
   bytes are in them, see ChunksDoNotMatterIff.
   */
  lemma FramesLostToChunking(size: nat, chunks: seq<Bytes>)
    requires size > 0
    ensures var whole, parsed := |Frames(size, Flatten(chunks))|, |ParseChunks(size, chunks)|;
      && whole == parsed + Dropped(size, chunks) / size
      && (parsed == whole <==> Dropped(size, chunks) < size)
  {
    BytesAreAccountedFor(size, chunks);
    FrameCount(size, Flatten(chunks));
    LostFrames(size, |Flatten(chunks)|, |ParseChunks(size, chunks)|, Dropped(size, chunks));
  }

  // The contents of the frames.

  /** The frames of the stream that the chunks make up are not what the client delivers. */
  predicate Garbled(size: nat, chunks: seq<Bytes>)
    requires size > 0
  {
    ParseChunks(size, chunks) != Frames(size, Flatten(chunks))
  }

  /** Less than a frame is dropped in all, and after a chunk that is not whole frames none holds a frame. */
  predicate Harmless(size: nat, chunks: seq<Bytes>)
    requires size > 0
  {
    && Dropped(size, chunks) < size
    && forall i, j :: 0 <= i < j < |chunks| && |chunks[i]| % size != 0 ==> |chunks[j]| < size
  }

  lemma {:induction false} FramesPrefix(size: nat, a: Bytes, b: Bytes)
    requires size > 0
    ensures Frames(size, a) <= Frames(size, a + b)
    decreases |a|
  {
    if |a| >= size {
      assert (a + b)[..size] == a[..size] && (a + b)[size..] == a[size..] + b;
      FramesPrefix(size, a[size..], b);
    }
  }

  /** Frame n starts at byte size * n. */
  lemma {:induction false} FrameStart(size: nat, data: Bytes, n: nat)
    requires size > 0 && size * n + size <= |data|
    ensures n < |Frames(size, data)| && |Frames(size, data)[n]| == size
    ensures Frames(size, data)[n][0] == data[size * n]
    decreases n
  {
    Distribute(size, n, 1);
    if n > 0 {
      Distribute(size, n - 1, 1);
      FrameStart(size, data[size..], n - 1);
      assert data[size..][size * (n - 1)] == data[size * n];
    }
  }

  lemma {:induction false} MisalignedDrops(size: nat, chunks: seq<Bytes>, i: nat)
    requires size > 0 && i < |chunks| && |chunks[i]| % size != 0
    ensures Dropped(size, chunks) > 0
    decreases |chunks|
  {
    if i < |chunks| - 1 {
      MisalignedDrops(size, chunks[..|chunks| - 1], i);
    }
  }

  lemma HarmlessPrefix(size: nat, chunks: seq<Bytes>)
    requires size > 0 && chunks != [] && Harmless(size, chunks)
    ensures Harmless(size, chunks[..|chunks| - 1])
  {
  }

  /** Harmless chunks deliver the frames of the stream. */
  lemma {:induction false} HarmlessChunks(size: nat, chunks: seq<Bytes>)
    requires size > 0 && Harmless(size, chunks)
    ensures !Garbled(size, chunks)
    decreases |chunks|
  {
    if chunks != [] {
      var before, last := chunks[..|chunks| - 1], chunks[|chunks| - 1];
      if |last| < size {
        HarmlessPrefix(size, chunks);
        HarmlessChunks(size, before);
        assert chunks == before + [last];
        FlattenAppend(before, last);
        FramesPrefix(size, Flatten(before), last);
        FramesLostToChunking(size, chunks);
      } else {
        AlignedChunksDoNotMatter(size, chunks);
      }
    }
  }

  /** What is garbled stays so, whatever is received afterwards. */
  lemma GarbledStays(size: nat, chunks: seq<Bytes>, last: Bytes)
    requires size > 0 && Garbled(size, chunks)
    ensures Garbled(size, chunks + [last])
  {
    var more := chunks + [last];
    assert more[..|chunks|] == chunks;
    FlattenAppend(chunks, last);
    FramesPrefix(size, Flatten(chunks), last);
    FramesLostToChunking(size, chunks);
    FramesLostToChunking(size, more);
  }

  function Fill(length: nat, b: bv8): (chunk: Bytes)
    ensures |chunk| == length && forall i :: 0 <= i < length ==> chunk[i] == b
  {
    seq(length, i => b)
  }

  /** Chunks of the same lengths as these, of bytes b. */
  function Refill(chunks: seq<Bytes>, b: bv8): (filled: seq<Bytes>)
    ensures SameLengths(chunks, filled)
    ensures forall i :: 0 <= i < |filled| ==> filled[i] == Fill(|chunks[i]|, b)
  {
    seq(|chunks|, i requires 0 <= i < |chunks| => Fill(|chunks[i]|, b))
  }

  predicate SameLengths(a: seq<Bytes>, b: seq<Bytes>) {
    |a| == |b| && forall i :: 0 <= i < |a| ==> |a[i]| == |b[i]|
  }

  lemma {:induction false} FlattenFilled(chunks: seq<Bytes>, b: bv8)
    requires forall i :: 0 <= i < |chunks| ==> chunks[i] == Fill(|chunks[i]|, b)
    ensures Flatten(chunks) == Fill(|Flatten(chunks)|, b)
    decreases |chunks|
  {
    if chunks != [] {
      FlattenFilled(chunks[1..], b);
    }
  }

  /** Ones up to a boundary inside a frame, and then a frame of zeros: that frame is no frame of the stream. */
  lemma ZerosAfterOnes(size: nat, before: seq<Bytes>, last: Bytes, i: nat)
    requires size > 0 && Dropped(size, before) < size <= |last|
    requires i < |before| && |before[i]| % size != 0
    requires forall k :: 0 <= k < |before| ==> before[k] == Fill(|before[k]|, 1)
    requires last == Fill(|last|, 0)
    ensures Garbled(size, before + [last])
  {
    var n, ones, all := |ParseChunks(size, before)|, Flatten(before), before + [last];
    BytesAreAccountedFor(size, before);
    MisalignedDrops(size, before, i);
    FlattenFilled(before, 1);
    FlattenAppend(before, last);
    FrameStart(size, ones + last, n);
    assert (ones + last)[size * n] == ones[size * n] == 1;
    assert all[..|before|] == before;
    FrameStart(size, last, 0);
    assert ParseChunks(size, all)[n] == Frames(size, last)[0];
  }

  /** Chunks that are not harmless garble some stream that is received in chunks of these lengths. */
  lemma {:induction false} HarmfulChunks(size: nat, chunks: seq<Bytes>) returns (garbled: seq<Bytes>)
    requires size > 0 && !Harmless(size, chunks)
    ensures SameLengths(chunks, garbled) && Garbled(size, garbled)
    decreases |chunks|
  {
    var before, last := chunks[..|chunks| - 1], chunks[|chunks| - 1];
    if !Harmless(size, before) {
      garbled := HarmfulChunks(size, before);
      GarbledStays(size, garbled, last);
      garbled := garbled + [last];
    } else if Dropped(size, chunks) >= size {
      garbled := chunks;
      FramesLostToChunking(size, chunks);
    } else {
      var i :| 0 <= i < |before| && |before[i]| % size != 0 && |last| >= size;
      var ones := Refill(before, 1);
      DroppedByLength(size, before, ones);
      ZerosAfterOnes(size, ones, Fill(|last|, 0), i);
      garbled := ones + [Fill(|last|, 0)];
    }
  }

  lemma {:induction false} DroppedByLength(size: nat, a: seq<Bytes>, b: seq<Bytes>)
    requires size > 0 && SameLengths(a, b)
    ensures Dropped(size, a) == Dropped(size, b)
    decreases |a|
  {
    if a != [] {
      DroppedByLength(size, a[..|a| - 1], b[..|b| - 1]);
    }
  }

  /**
   Exactly when the boundaries between recvs do not matter: the client delivers the frames of
   every stream that arrives in chunks of these lengths, if and only if less than a frame is
   dropped in all and, after the first chunk that is not whole frames, no chunk holds a frame.
   */
  lemma ChunksDoNotMatterIff(size: nat, chunks: seq<Bytes>)
    requires size > 0
    ensures (forall other :: SameLengths(chunks, other) ==> ParseChunks(size, other) == Frames(size, Flatten(other)))
            <==> Harmless(size, chunks)
  {
    if Harmless(size, chunks) {
      forall other | SameLengths(chunks, other) ensures ParseChunks(size, other) == Frames(size, Flatten(other)) {
        DroppedByLength(size, chunks, other);
        HarmlessChunks(size, other);
      }
    } else {
      var garbled := HarmfulChunks(size, chunks);
    }
  }

  /** A run in which the number of frames is right and the second frame is not one of the stream. */
  lemma MisalignedFrame()
    ensures var chunks: seq<Bytes> := [[0, 0, 0, 0, 1], [0, 0, 0, 0, 0, 0]];
      && Dropped(4, chunks) == 3
      && ParseChunks(4, chunks) == [[0, 0, 0, 0], [0, 0, 0, 0]]
      && Frames(4, Flatten(chunks)) == [[0, 0, 0, 0], [1, 0, 0, 0]]
  {
    var a: Bytes, b: Bytes := [0, 0, 0, 0, 1], [0, 0, 0, 0, 0, 0];
    var zeros: Bytes := [0, 0, 0, 0];
    assert [a, b][..1] == [a] && [a][..0] == [] && [a, b][1..] == [b] && [b][1..] == [];
    assert Frames(4, a) == [zeros] by {
      assert a[..4] == zeros && a[4..] == [1];
    }
    assert Frames(4, b) == [zeros] by {
      assert b[..4] == zeros && b[4..] == [0, 0];
    }
    assert ParseChunks(4, [a]) == [zeros];
    assert Flatten([b]) == b && Flatten([a, b]) == a + b;
    var rest: Bytes := [1, 0, 0, 0, 0, 0, 0];
    assert Frames(4, a + b) == [zeros] + Frames(4, rest) by {
      assert (a + b)[..4] == zeros && (a + b)[4..] == rest;
    }
    assert Frames(4, rest) == [[1, 0, 0, 0]] by {
      assert rest[..4] == [1, 0, 0, 0] && rest[4..] == [0, 0, 0];
    }
  }

  /** The receiving side of the clients. */
  class Receiver {
    var bytesReceived: nat
    var messagesReceived: nat
    var delivered: seq<Bytes>

    constructor ()
      ensures bytesReceived == messagesReceived == 0 && delivered == []
    {
      bytesReceived, messagesReceived, delivered := 0, 0, [];
    }

    /** process_received_data: the frame loop over the first `count` bytes of the buffer. */
    method ProcessReceivedData(size: nat, buffer: array<bv8>, count: nat)
      requires 0 < size && count <= buffer.Length
      modifies this`messagesReceived, this`delivered
      ensures delivered == old(delivered) + Frames(size, buffer[..count])
      ensures messagesReceived == old(messagesReceived) + |Frames(size, buffer[..count])|
    {
      var offset := 0;
      while offset + size <= count
        invariant offset <= count
        invariant delivered + Frames(size, buffer[offset..count]) == old(delivered) + Frames(size, buffer[..count])
        invariant messagesReceived + |Frames(size, buffer[offset..count])|
               == old(messagesReceived) + |Frames(size, buffer[..count])|
        decreases count - offset
      {
        var frame := buffer[offset..offset + size];
        assert buffer[offset..count][..size] == frame;
        assert buffer[offset..count][size..] == buffer[offset + size..count];
        delivered := delivered + [frame];
        messagesReceived := messagesReceived + 1;
        offset := offset + size;
      }
    }

    /** One successful recv, which has put the chunk at the front of the buffer. */
    method Receive(size: nat, buffer: array<bv8>, count: nat)
      requires 0 < size && count <= buffer.Length
      modifies this
      ensures bytesReceived == old(bytesReceived) + count
      ensures delivered == old(delivered) + Frames(size, buffer[..count])
      ensures messagesReceived == old(messagesReceived) + |Frames(size, buffer[..count])|
    {
      bytesReceived := bytesReceived + count;
      ProcessReceivedData(size, buffer, count);
    }

    /** A receive loop over any chunks that fit the buffer: what is delivered, counted and dropped. */
    method ReceiveAll(size: nat, buffer: array<bv8>, chunks: seq<Bytes>)
      requires 0 < size
      requires forall i :: 0 <= i < |chunks| ==> |chunks[i]| <= buffer.Length
      modifies this, buffer
      ensures delivered == old(delivered) + ParseChunks(size, chunks)
      ensures messagesReceived == old(messagesReceived) + |ParseChunks(size, chunks)|
      ensures bytesReceived == old(bytesReceived) + size * |ParseChunks(size, chunks)| + Dropped(size, chunks)
    {
      for i := 0 to |chunks|
        invariant delivered == old(delivered) + ParseChunks(size, chunks[..i])
        invariant messagesReceived == old(messagesReceived) + |ParseChunks(size, chunks[..i])|
        invariant bytesReceived == old(bytesReceived) + |Flatten(chunks[..i])|
      {
        forall k | 0 <= k < |chunks[i]| {
          buffer[k] := chunks[i][k];
        }
        assert buffer[..|chunks[i]|] == chunks[i];
        Receive(size, buffer, |chunks[i]|);
        assert chunks[..i + 1] == chunks[..i] + [chunks[i]];
        FlattenAppend(chunks[..i], chunks[i]);
      }
      assert chunks[..|chunks|] == chunks;
      BytesAreAccountedFor(size, chunks);
    }
  }

  // The server's dispatch.

  datatype MessageType = OrderNew | OrderCancel | OrderReplace | OrderFill | OrderReject
                       | MarketData | Heartbeat | Login | Logout | Error

  /** The sizes of the plain, the order and the market data message; the latter two extend the first. */
  datatype Sizes = Sizes(message: nat, order: nat, marketData: nat)

  predicate ValidSizes(z: Sizes) {
    0 < z.message < z.order && z.message < z.marketData
  }

  /** One recv of the server: its length, and the type in the header if there is one. */
  datatype Chunk = Chunk(length: nat, kind: MessageType)

  /** The bytes that a recv must have for its message to be handled. */
  function Needed(z: Sizes, kind: MessageType): nat {
    match kind
    case OrderNew => z.order
    case OrderCancel => z.order
    case OrderReplace => z.order
    case MarketData => z.marketData
    case _ => z.message
  }

  /** The number of frames that a client's frame loop would find in these recvs. */
  function ClientCount(z: Sizes, chunks: seq<Chunk>): nat
    requires ValidSizes(z)
  {
    if chunks == [] then 0 else ClientCount(z, chunks[..|chunks| - 1]) + chunks[|chunks| - 1].length / z.message
  }

  /** handle_client_events' reading loop: the number of messages it passes on. */
  method Dispatch(z: Sizes, chunks: seq<Chunk>) returns (processed: nat, incomplete: nat)
    requires ValidSizes(z)
    ensures processed == ServerCount(z, chunks)
    ensures processed + incomplete == |chunks|
  {
    processed, incomplete := 0, 0;
    for i := 0 to |chunks|
      invariant processed == ServerCount(z, chunks[..i])
      invariant processed + incomplete == i
    {
      var c := chunks[i];
      assert chunks[..i + 1][..i] == chunks[..i];
      if c.length >= z.message {
        if c.kind == OrderNew || c.kind == OrderCancel || c.kind == OrderReplace {
          if c.length >= z.order {
            processed := processed + 1;
          } else {
            incomplete := incomplete + 1;
          }
        } else if c.kind == MarketData {
          if c.length >= z.marketData {
            processed := processed + 1;
          } else {
            incomplete := incomplete + 1;
          }
        } else {
          processed := processed + 1;
        }
      } else {
        incomplete := incomplete + 1;
      }
    }
    assert chunks[..|chunks|] == chunks;
  }

  /** The recvs that are long enough for the message at their front. */
  function ServerCount(z: Sizes, chunks: seq<Chunk>): nat {
    if chunks == [] then 0
    else
      var c := chunks[|chunks| - 1];
      ServerCount(z, chunks[..|chunks| - 1]) + if c.length >= Needed(z, c.kind) then 1 else 0
  }

  /** A recv is handled if it has the length of a message of its type. */
  lemma ServerHandles(z: Sizes, n: nat, kind: MessageType)
    requires ValidSizes(z)
    ensures kind == OrderNew || kind == OrderCancel || kind == OrderReplace ==>
      ServerCount(z, [Chunk(n, kind)]) == if n >= z.order then 1 else 0
    ensures kind == MarketData ==> ServerCount(z, [Chunk(n, kind)]) == if n >= z.marketData then 1 else 0
    ensures kind == OrderFill || kind == OrderReject || kind == Heartbeat || kind == Login || kind == Logout || kind == Error ==>
      ServerCount(z, [Chunk(n, kind)]) == if n >= z.message then 1 else 0
  {
    var chunks := [Chunk(n, kind)];
    assert chunks[..0] == [];
  }

  /** Each recv is handled on its own. */
  lemma {:induction false} ServerCountAdds(z: Sizes, a: seq<Chunk>, b: seq<Chunk>)
    ensures ServerCount(z, a + b) == ServerCount(z, a) + ServerCount(z, b)
    decreases |b|
  {
    if b == [] {
      assert a + b == a;
    } else {
      var last := |b| - 1;
      ServerCountAdds(z, a, b[..last]);
      assert (a + b)[..|a| + last] == a + b[..last];
    }
  }

  /** What ClientCount counts are the frames that the client's loop delivers from bytes of these lengths. */
  lemma {:induction false} ClientCountIsParsed(z: Sizes, chunks: seq<Chunk>, data: seq<Bytes>)
    requires ValidSizes(z) && |chunks| == |data| && forall i :: 0 <= i < |data| ==> |data[i]| == chunks[i].length
    ensures ClientCount(z, chunks) == |ParseChunks(z.message, data)|
    decreases |data|
  {
    if data != [] {
      var last := |data| - 1;
      ClientCountIsParsed(z, chunks[..last], data[..last]);
      FrameCount(z.message, data[last]);
    }
  }

  /** A recv on which server and client agree: no frame, or one that is complete for its type. */
  predicate Agreeable(z: Sizes, c: Chunk) {
    c.length < z.message || Needed(z, c.kind) <= c.length < 2 * z.message
  }

  lemma CountsOfOne(z: Sizes, c: Chunk)
    requires ValidSizes(z)
    ensures var server := if c.length >= Needed(z, c.kind) then 1 else 0;
      server <= c.length / z.message && (server == c.length / z.message <==> Agreeable(z, c))
  {
    DivMod(z.message, c.length);
    if c.length < z.message {
      QuotientIs(z.message, c.length, 0, c.length);
    } else if c.length < 2 * z.message {
      QuotientIs(z.message, c.length, 1, c.length - z.message);
    } else {
      Cancel(z.message, 2, c.length / z.message, c.length % z.message);
    }
  }

  /**
   The server never handles more messages than a client would find in the same recvs, and it
   handles as many if and only if every recv holds no frame, or just one that is long enough
   for its type.
   */
  lemma {:induction false} ServerAgreesExactlyOnSingleFrames(z: Sizes, chunks: seq<Chunk>)
    requires ValidSizes(z)
    ensures ServerCount(z, chunks) <= ClientCount(z, chunks)
    ensures ServerCount(z, chunks) == ClientCount(z, chunks) <==>
      forall i :: 0 <= i < |chunks| ==> Agreeable(z, chunks[i])
  {
    if chunks != [] {
      var before, last := chunks[..|chunks| - 1], chunks[|chunks| - 1];
      ServerAgreesExactlyOnSingleFrames(z, before);
      CountsOfOne(z, last);
    }
  }

  /**
   An order in plain message frames: when k of them come in one recv, whose first is an order,
   the server handles one order if and only if the recv is long enough for an order message,
   whatever its later bytes are, and nothing else. A client would parse k frames.
   */
  lemma CoalescedOrders(z: Sizes, k: nat, kind: MessageType)
    requires ValidSizes(z) && (kind == OrderNew || kind == OrderCancel || kind == OrderReplace)
    ensures ServerCount(z, [Chunk(k * z.message, kind)]) == if k * z.message >= z.order then 1 else 0
    ensures ClientCount(z, [Chunk(k * z.message, kind)]) == k
  {
    QuotientIs(z.message, k * z.message, k, 0);
    var chunks := [Chunk(k * z.message, kind)];
    assert chunks[..0] == [];
  }

  /** In particular an order in a plain message frame, alone in its recv, is not handled. */
  lemma LoneOrderIsNotHandled(z: Sizes)
    requires ValidSizes(z)
    ensures ServerCount(z, [Chunk(z.message, OrderNew)]) == 0
    ensures ClientCount(z, [Chunk(z.message, OrderNew)]) == 1
  {
    QuotientIs(z.message, z.message, 1, 0);
    var chunks := [Chunk(z.message, OrderNew)];
    assert chunks[..0] == [];
  }
}
