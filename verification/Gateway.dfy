/** The gateway's hand-written length header and message-ID decoding, against the frame codec. */
module Gateway {
  import opened Common
  import opened Frame

  /** Fills a fresh buffer byte by byte: length header, then the response. */
  method SendResponse(responseBytes: Bytes) returns (message: array<byte>)
    ensures message[..] == Encode(responseBytes)
  {
    var length := |responseBytes|;
    message := new byte[HEADER_SIZE + length](_ => 0);
    message[0] := length / 0x1000000 % 256;
    message[1] := length / 0x10000 % 256;
    message[2] := length / 0x100 % 256;
    message[3] := length % 256;
    BytesAreShifts(length);
    forall i | 0 <= i < length {
      message[HEADER_SIZE + i] := responseBytes[i];
    }
  }

  /** The connection's own length check; its bound is the frame limit plus the header, in 32 bits. */
  predicate ConnectionAccepts(message: Bytes, limit: Limit) {
    var maxWriteSize := (limit + HEADER_SIZE) % TWO_32;
    maxWriteSize == 0 || |message| % TWO_32 <= maxWriteSize
  }

  /** The sender checks nothing itself: its message is a readable frame exactly when the response fits one. */
  lemma ResponseReadableIff(responseBytes: Bytes, limit: Limit)
    ensures Parse(Encode(responseBytes), limit) == (Frame.Frame(responseBytes), []) <==> Fits(responseBytes, limit)
  {
    if Fits(responseBytes, limit) {
      ParseOfFrame(responseBytes, [], limit);
      assert Encode(responseBytes) + [] == Encode(responseBytes);
    }
  }

  /**
   Of the responses the connection lets out under the same limit, the readable ones are those that are not
   empty and shorter than 2^32 - 4 bytes: an empty response goes out as a header the frame reader rejects, and
   from 2^32 - 4 bytes on the connection compares a length that has been cut to 32 bits. For a limit that is
   itself at least 2^32 - 4, the connection's own bound wraps (to no bound, or to one that lets only cut lengths
   through); then those up to the limit are readable. (Every present caller sends a response with a message
   text, so none is empty.)
   */
  lemma SentResponseReadableIff(responseBytes: Bytes, limit: Limit)
    requires limit > 0 && ConnectionAccepts(Encode(responseBytes), limit)
    ensures Parse(Encode(responseBytes), limit) == (Frame.Frame(responseBytes), [])
            <==> responseBytes != [] && |responseBytes| < Max(TWO_32 - HEADER_SIZE, limit + 1)
  {
    ResponseReadableIff(responseBytes, limit);
  }

  lemma EmptyResponseIsRejected(limit: Limit)
    ensures limit < TWO_32 - HEADER_SIZE ==> ConnectionAccepts(Encode([]), limit)
    ensures Parse(Encode([]), limit).0 == BadLength(0)
  {
    HeaderHoldsLowBits(0);
    assert Encode([])[..HEADER_SIZE] == PutUint32(0);
  }

  datatype Decoded = TooShort | Message(id: nat, body: Bytes)

  function DecodeMessage(data: Bytes): Decoded {
    if |data| < HEADER_SIZE then TooShort
    else Message(Uint32(data[..HEADER_SIZE]), data[HEADER_SIZE..])
  }

  /**
   What a client sends as one frame holding a message ID and a body, the gateway decodes to that ID and
   that body; and no frame holding fewer than four bytes decodes to anything.
   */
  lemma FramedMessageDecodes(id: nat, body: Bytes, limit: Limit)
    requires id < TWO_32 && Fits(PutUint32(id) + body, limit)
    ensures var read := Parse(Encode(PutUint32(id) + body), limit).0;
            read.Frame? && DecodeMessage(read.payload) == Message(id, body)
  {
    var payload := PutUint32(id) + body;
    ResponseReadableIff(payload, limit);
    HeaderHoldsLowBits(id);
    assert payload[..HEADER_SIZE] == PutUint32(id);
    assert payload[HEADER_SIZE..] == body;
  }
}
