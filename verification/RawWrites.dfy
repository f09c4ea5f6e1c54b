/**
 Streams that hold bytes which did not come from the frame writer, as a broadcast puts there: what a reader of
 frames takes from them, and exactly when such bytes leave the frames around them alone.
 */
module RawWrites {
  import opened Common
  import opened Frame

  /** The bytes are whole frames that a reader takes. A sender can check this before it writes them. */
  predicate Framed(data: Bytes, limit: Limit) {
    data == EncodeAll(ParseAll(data, limit).0)
  }

  lemma {:induction false} EncodedThenRest(payloads: seq<Bytes>, rest: Bytes, limit: Limit)
    requires AllFit(payloads, limit)
    ensures ParseAll(EncodeAll(payloads) + rest, limit) == (payloads + ParseAll(rest, limit).0, ParseAll(rest, limit).1)
  {
    hide Parse, Encode;
    if payloads == [] {
      assert EncodeAll(payloads) + rest == rest;
      assert payloads + ParseAll(rest, limit).0 == ParseAll(rest, limit).0;
    } else {
      var more := EncodeAll(payloads[1..]) + rest;
      assert EncodeAll(payloads) + rest == Encode(payloads[0]) + more;
      ParseOfFrame(payloads[0], more, limit);
      EncodedThenRest(payloads[1..], rest, limit);
      var later := ParseAll(rest, limit).0;
      assert [payloads[0]] + (payloads[1..] + later) == payloads + later;
    }
  }

  /** A stream is the frames a reader takes from it, then something that begins with no frame. */
  lemma {:induction false} FramesThenLeftover(stream: Bytes, limit: Limit) returns (rest: Bytes)
    ensures stream == EncodeAll(ParseAll(stream, limit).0) + rest && !Parse(rest, limit).0.Frame?
    ensures AllFit(ParseAll(stream, limit).0, limit)
    decreases |stream|
  {
    var (read, after) := Parse(stream, limit);
    if read.Frame? {
      rest := FramesThenLeftover(after, limit);
      FrameIsEncoded(stream, limit);
    } else {
      rest := stream;
    }
  }

  /** What a reader takes as a frame is the encoding of what it takes. */
  lemma FrameIsEncoded(stream: Bytes, limit: Limit)
    requires Parse(stream, limit).0.Frame?
    ensures var (read, rest) := Parse(stream, limit);
            stream == Encode(read.payload) + rest && Fits(read.payload, limit)
  {
    var header := stream[..HEADER_SIZE];
    var payload := Parse(stream, limit).0.payload;
    HeaderIsOfLength(header, |payload|);
    assert stream == header + payload + Parse(stream, limit).1;
  }

  lemma HeaderIsOfLength(header: Bytes, n: nat)
    requires |header| == HEADER_SIZE && Uint32(header) == n
    ensures PutUint32(n) == header
  {
    BytesAreShifts(n);
    var a: int, b: int, c: int, d: int := header[0], header[1], header[2], header[3];
    DigitsAreBytes(a, b, c, d);
  }

  lemma DigitsAreBytes(a: byte, b: byte, c: byte, d: byte)
    ensures var n := a * 0x1000000 + b * 0x10000 + c * 0x100 + d;
            n / 0x1000000 % 0x100 == a && n / 0x10000 % 0x100 == b && n / 0x100 % 0x100 == c && n % 0x100 == d
  {
    var n := a * 0x1000000 + b * 0x10000 + c * 0x100 + d;
    assert n / 0x100 == a * 0x10000 + b * 0x100 + c;
    assert n / 0x10000 == a * 0x100 + b;
    assert n / 0x1000000 == a;
  }

  /** More bytes behind a stream take no frame away. */
  lemma AppendKeepsFrames(stream: Bytes, more: Bytes, limit: Limit)
    ensures ParseAll(stream, limit).0 <= ParseAll(stream + more, limit).0
  {
    hide ParseAll, EncodeAll, Parse;
    var payloads := ParseAll(stream, limit).0;
    var rest := FramesThenLeftover(stream, limit);
    EncodedThenRest(payloads, rest + more, limit);
    assert stream + more == EncodeAll(payloads) + (rest + more);
  }

  // ---------------------------------------------------------------- between other frames

  /** Written between any frames, the bytes show as what a reader takes from them alone, and nothing else changes. */
  ghost predicate Transparent(data: Bytes, limit: Limit) {
    forall before: seq<Bytes>, after: seq<Bytes> {:trigger AllFit(before, limit), AllFit(after, limit)} ::
      AllFit(before, limit) && AllFit(after, limit) ==> ShowsBetween(before, data, after, limit)
  }

  predicate ShowsBetween(before: seq<Bytes>, data: Bytes, after: seq<Bytes>, limit: Limit) {
    ParseAll(EncodeAll(before) + data + EncodeAll(after), limit).0 == before + ParseAll(data, limit).0 + after
  }

  /** Exactly whole frames may be written between frames without harm to them. */
  lemma RawBytesAreTransparentIff(data: Bytes, limit: Limit)
    ensures Transparent(data, limit) <==> Framed(data, limit)
  {
    if Framed(data, limit) {
      forall before: seq<Bytes>, after: seq<Bytes> | AllFit(before, limit) && AllFit(after, limit)
        ensures ShowsBetween(before, data, after, limit)
      {
        FramedShows(before, data, after, limit);
      }
    } else {
      LeftoverHidesTheNext(data, limit);
      assert AllFit([], limit) && AllFit([[1]], limit);
    }
  }

  lemma FramedShows(before: seq<Bytes>, data: Bytes, after: seq<Bytes>, limit: Limit)
    requires Framed(data, limit) && AllFit(before, limit) && AllFit(after, limit)
    ensures ShowsBetween(before, data, after, limit)
  {
    hide ParseAll, EncodeAll;
    var own := ParseAll(data, limit).0;
    var rest := FramesThenLeftover(data, limit);
    StreamRoundTrip(after, limit);
    EncodedThenRest(own, EncodeAll(after), limit);
    EncodedThenRest(before, data + EncodeAll(after), limit);
    assert EncodeAll(before) + data + EncodeAll(after) == EncodeAll(before) + (data + EncodeAll(after));
  }

  /** What is left over swallows the next frame: a frame of the one byte 1 behind the bytes is not read. */
  lemma LeftoverHidesTheNext(data: Bytes, limit: Limit)
    requires !Framed(data, limit)
    ensures !ShowsBetween([], data, [[1]], limit)
  {
    hide ParseAll;
    var own := ParseAll(data, limit).0;
    var rest := FramesThenLeftover(data, limit);
    var next := Encode([1]);
    assert EncodeAll([[1]]) == next + [];
    assert rest != [] by {
      assert rest == [] ==> EncodeAll(own) + rest == EncodeAll(own);
    }
    EncodedThenRest(own, rest + next, limit);
    assert EncodeAll([]) + data + EncodeAll([[1]]) == EncodeAll(own) + (rest + next);
    LeftoverSwallows(rest, limit);
    var taken := ParseAll(rest + next, limit).0;
    assert [] + own + [[1]] == own + [[1]];
    assert (own + taken)[|own|..] == taken && (own + [[1]])[|own|..] == [[1]];
  }

  lemma LeftoverSwallows(rest: Bytes, limit: Limit)
    requires rest != [] && !Parse(rest, limit).0.Frame?
    ensures ParseAll(rest + Encode([1]), limit).0 != [[1]]
  {
    var stream := rest + Encode([1]);
    EncodeOne();
    if |rest| < HEADER_SIZE {
      ShortLeftoverSwallows(rest, limit);
    } else {
      LongLeftoverSwallows(rest, limit);
    }
  }

  lemma EncodeOne()
    ensures Encode([1]) == [0, 0, 0, 1, 1]
  {
    BytesAreShifts(1);
  }

  /** Less than a header is left: the zeros that follow make the length nothing, or far too much for what is there. */
  lemma ShortLeftoverSwallows(rest: Bytes, limit: Limit)
    requires 0 < |rest| < HEADER_SIZE
    ensures ParseAll(rest + Encode([1]), limit).0 == []
  {
    var stream := rest + Encode([1]);
    EncodeOne();
    var n := Uint32(stream[..HEADER_SIZE]);
    assert stream[3] == 0;
    assert n == 0 || n >= 0x100;
    assert !Parse(stream, limit).0.Frame?;
  }

  /** A header is left: the reader refuses it still, or takes its frame out of the next one. */
  lemma LongLeftoverSwallows(rest: Bytes, limit: Limit)
    requires |rest| >= HEADER_SIZE && !Parse(rest, limit).0.Frame?
    ensures ParseAll(rest + Encode([1]), limit).0 != [[1]]
  {
    var stream, n := rest + Encode([1]), Uint32(rest[..HEADER_SIZE]);
    EncodeOne();
    assert stream[..HEADER_SIZE] == rest[..HEADER_SIZE];
    var read := Parse(stream, limit).0;
    if read.Frame? {
      assert |read.payload| == n > |rest| - HEADER_SIZE;
      assert n == 1 ==> read.payload == [stream[HEADER_SIZE]] == [0];
      assert ParseAll(stream, limit).0[0] == read.payload;
    }
  }

  /** Nothing fails, and yet: a header broadcast before a response of one byte makes the reader take another byte. */
  lemma BroadcastMisdelivers(limit: Limit)
    ensures ParseAll([0, 0, 0, 1] + Encode([2]), limit).0 != [[2]]
    ensures ParseAll([0, 0, 0, 1] + Encode([2]), limit).0[..1] == [[0]]
    ensures !Framed([0, 0, 0, 1], limit)
  {
    BytesAreShifts(1);
    assert PutUint32(1) == [0, 0, 0, 1];
    var stream := [0, 0, 0, 1] + Encode([2]);
    assert stream == Encode([0]) + [0, 0, 1, 2];
    ParseOfFrame([0], [0, 0, 1, 2], limit);
    assert ParseAll(stream, limit).0[0] == [0] && [0][0] != [2][0];
    assert !Parse([0, 0, 0, 1], limit).0.Frame?;
  }
}
