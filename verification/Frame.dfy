/**
 Length-prefixed frames over a byte stream: the codec, the loops that move it through short
 reads and short writes, and what a reader gets back from a stream cut anywhere.
 */
module Frame {
  import opened Common

  type Bytes = seq<byte>

  const HEADER_SIZE := 4
  const DEFAULT_MAX_FRAME: nat := 1024 * 1024
  const TWO_32: nat := 0x1_0000_0000

  /** A frame-size limit as the options carry it: an unsigned 32-bit number, 0 meaning "use the default". */
  type Limit = n: nat | n < TWO_32 witness 0

  function EffectiveLimit(limit: Limit): Limit {
    if limit == 0 then DEFAULT_MAX_FRAME else limit
  }

  // ---------------------------------------------------------------- codec

  /** Byte k of n, counted from the least significant. */
  function ByteAt(n: nat, k: nat): byte {
    if k == 0 then n % 0x100 else ByteAt(n / 0x100, k - 1)
  }

  /** The four big-endian bytes of the low 32 bits of n. */
  function PutUint32(n: nat): (h: Bytes)
    ensures |h| == HEADER_SIZE
  {
    [ByteAt(n, 3), ByteAt(n, 2), ByteAt(n, 1), ByteAt(n, 0)]
  }

  function Uint32(h: Bytes): (n: nat)
    requires |h| == HEADER_SIZE
    ensures n < TWO_32
  {
    var a: int, b: int, c: int, d: int := h[0], h[1], h[2], h[3];
    a * 0x1000000 + b * 0x10000 + c * 0x100 + d
  }

  lemma HeaderHoldsLowBits(n: nat)
    ensures Uint32(PutUint32(n)) == n % TWO_32
  {
    BytesAreShifts(n);
    LowBytes(n);
  }

  /** ByteAt is the truncated shift of the source. */
  lemma BytesAreShifts(n: nat)
    ensures ByteAt(n, 0) == n % 0x100 && ByteAt(n, 1) == n / 0x100 % 0x100
    ensures ByteAt(n, 2) == n / 0x10000 % 0x100 && ByteAt(n, 3) == n / 0x1000000 % 0x100
  {
    DivideTwice(n);
    DivideTwice(n / 0x100);
    assert ByteAt(n, 1) == ByteAt(n / 0x100, 0);
    assert ByteAt(n, 2) == ByteAt(n / 0x100, 1) == ByteAt(n / 0x100 / 0x100, 0);
    assert ByteAt(n, 3) == ByteAt(n / 0x100, 2) == ByteAt(n / 0x100 / 0x100, 1);
  }

  lemma DivideTwice(n: nat)
    ensures n / 0x100 / 0x100 == n / 0x10000 && n / 0x100 / 0x10000 == n / 0x1000000
    ensures ByteAt(n / 0x100 / 0x100, 1) == ByteAt(n / 0x100 / 0x100 / 0x100, 0)
  {
  }

  lemma LowBytes(n: nat)
    ensures n % TWO_32 == n / 0x1000000 % 0x100 * 0x1000000 + n / 0x10000 % 0x100 * 0x10000
                          + n / 0x100 % 0x100 * 0x100 + n % 0x100
  {
    assert n / 0x100 == n / 0x10000 * 0x100 + n / 0x100 % 0x100;
    assert n / 0x10000 == n / 0x1000000 * 0x100 + n / 0x10000 % 0x100;
    assert n / 0x1000000 == n / TWO_32 * 0x100 + n / 0x1000000 % 0x100;
  }

  function Encode(payload: Bytes): (frame: Bytes)
    ensures |frame| == HEADER_SIZE + |payload|
  {
    PutUint32(|payload|) + payload
  }

  function EncodeAll(payloads: seq<Bytes>): Bytes {
    if payloads == [] then [] else Encode(payloads[0]) + EncodeAll(payloads[1..])
  }

  /** What one attempt to read a frame can come to. */
  datatype Read = Frame(payload: Bytes) | HeaderCut | BadLength(length: nat) | BodyCut

  /** The meaning of reading one frame from the bytes that are still to come. */
  function Parse(stream: Bytes, limit: Limit): (r: (Read, Bytes))
    ensures r.0.Frame? ==> |r.1| < |stream|
  {
    if |stream| < HEADER_SIZE then (HeaderCut, [])
    else
      var n := Uint32(stream[..HEADER_SIZE]);
      var body := stream[HEADER_SIZE..];
      if n == 0 || n > EffectiveLimit(limit) then (BadLength(n), body)
      else if |body| < n then (BodyCut, [])
      else (Frame(body[..n]), body[n..])
  }

  /** Reading frames until the first failure: the payloads, then the failure. */
  function ParseAll(stream: Bytes, limit: Limit): (seq<Bytes>, Read)
    decreases |stream|
  {
    var (read, rest) := Parse(stream, limit);
    if read.Frame? then
      var (more, end) := ParseAll(rest, limit);
      ([read.payload] + more, end)
    else
      ([], read)
  }

  /** The lengths a frame may have under a limit. */
  predicate Fits(payload: Bytes, limit: Limit) {
    0 < |payload| <= EffectiveLimit(limit)
  }

  predicate AllFit(payloads: seq<Bytes>, limit: Limit) {
    forall i :: 0 <= i < |payloads| ==> Fits(payloads[i], limit)
  }

  /** Parse of a header followed by other bytes, in terms of the length the header names. */
  lemma ParseOfHeader(header: Bytes, body: Bytes, limit: Limit)
    requires |header| == HEADER_SIZE && 0 < Uint32(header) <= EffectiveLimit(limit)
    ensures var n := Uint32(header);
            Parse(header + body, limit) == if |body| < n then (BodyCut, []) else (Frame(body[..n]), body[n..])
  {
    assert (header + body)[..HEADER_SIZE] == header;
    assert (header + body)[HEADER_SIZE..] == body;
  }

  lemma ParseOfCutHeader(header: Bytes, body: Bytes, cut: nat, limit: Limit)
    requires |header| == HEADER_SIZE && Uint32(header) == |body| && 0 < |body| <= EffectiveLimit(limit)
    requires cut < HEADER_SIZE + |body|
    ensures Parse((header + body)[..cut], limit) == (if cut < HEADER_SIZE then HeaderCut else BodyCut, [])
  {
    if HEADER_SIZE <= cut {
      ParseOfHeader(header, body[..cut - HEADER_SIZE], limit);
      assert (header + body)[..cut] == header + body[..cut - HEADER_SIZE];
    }
  }

  lemma ParseOfFrame(payload: Bytes, rest: Bytes, limit: Limit)
    requires Fits(payload, limit)
    ensures Parse(Encode(payload) + rest, limit) == (Frame(payload), rest)
  {
    var header := PutUint32(|payload|);
    HeaderHoldsLowBits(|payload|);
    ParseOfHeader(header, payload + rest, limit);
    assert Encode(payload) + rest == header + (payload + rest);
  }

  lemma ParseOfCutFrame(payload: Bytes, cut: nat, limit: Limit)
    requires Fits(payload, limit)
    requires cut < |Encode(payload)|
    ensures Parse(Encode(payload)[..cut], limit) == (if cut < HEADER_SIZE then HeaderCut else BodyCut, [])
  {
    HeaderHoldsLowBits(|payload|);
    ParseOfCutHeader(PutUint32(|payload|), payload, cut, limit);
  }

  /** The number of whole frames among the first `cut` bytes of the encoded stream. */
  function WholeFrames(payloads: seq<Bytes>, cut: nat): (k: nat)
    ensures k <= |payloads|
  {
    if payloads == [] || cut < |Encode(payloads[0])| then 0
    else 1 + WholeFrames(payloads[1..], cut - |Encode(payloads[0])|)
  }

  /** WholeFrames is the number it claims to be: the largest k whose frames end at or before the cut. */
  lemma {:induction false} WholeFramesIsLargest(payloads: seq<Bytes>, cut: nat)
    requires cut <= |EncodeAll(payloads)|
    ensures var k := WholeFrames(payloads, cut);
            && |EncodeAll(payloads[..k])| <= cut
            && (k < |payloads| ==> cut < |EncodeAll(payloads[..k + 1])|)
  {
    if payloads != [] && |Encode(payloads[0])| <= cut {
      WholeFramesIsLargest(payloads[1..], cut - |Encode(payloads[0])|);
      var k := WholeFrames(payloads, cut);
      PrefixOfCons(payloads, k);
      if k < |payloads| {
        PrefixOfCons(payloads, k + 1);
      }
    } else if payloads != [] {
      assert payloads[..1][1..] == [];
      assert EncodeAll(payloads[..1]) == Encode(payloads[0]) + [];
    }
  }

  lemma CutInFirstFrame(payloads: seq<Bytes>, cut: nat, limit: Limit)
    requires AllFit(payloads, limit) && payloads != [] && cut < |Encode(payloads[0])|
    ensures ParseAll(EncodeAll(payloads)[..cut], limit) == ([], if cut < HEADER_SIZE then HeaderCut else BodyCut)
  {
    hide Parse, PutUint32;
    assert EncodeAll(payloads)[..cut] == Encode(payloads[0])[..cut];
    ParseOfCutFrame(payloads[0], cut, limit);
  }

  /**
   Cutting an encoded stream at any byte gives the reader exactly the frames that are whole, and
   then an error that says where the cut fell: at or inside a header, or inside a body. It never
   gives it a payload that was not written.
   */
  lemma {:induction false} CutStreamYieldsWholeFrames(payloads: seq<Bytes>, cut: nat, limit: Limit)
    requires AllFit(payloads, limit)
    requires cut <= |EncodeAll(payloads)|
    ensures var k := WholeFrames(payloads, cut);
            && |EncodeAll(payloads[..k])| <= cut
            && ParseAll(EncodeAll(payloads)[..cut], limit)
               == (payloads[..k], if cut - |EncodeAll(payloads[..k])| < HEADER_SIZE then HeaderCut else BodyCut)
  {
    if payloads == [] {
    } else if cut < |Encode(payloads[0])| {
      CutInFirstFrame(payloads, cut, limit);
    } else {
      hide Parse, PutUint32;
      var first, rest, left := Encode(payloads[0]), payloads[1..], cut - |Encode(payloads[0])|;
      CutStreamYieldsWholeFrames(rest, left, limit);
      assert EncodeAll(payloads)[..cut] == first + EncodeAll(rest)[..left];
      ParseOfFrame(payloads[0], EncodeAll(rest)[..left], limit);
      PrefixOfCons(payloads, WholeFrames(payloads, cut));
    }
  }

  lemma PrefixOfCons(payloads: seq<Bytes>, k: nat)
    requires 1 <= k <= |payloads|
    ensures payloads[..k] == [payloads[0]] + payloads[1..][..k - 1]
    ensures EncodeAll(payloads[..k]) == Encode(payloads[0]) + EncodeAll(payloads[1..][..k - 1])
  {
    assert payloads[..k][1..] == payloads[1..][..k - 1];
  }

  /** The whole stream reads back as the payloads that were written, then a clean end. */
  lemma StreamRoundTrip(payloads: seq<Bytes>, limit: Limit)
    requires AllFit(payloads, limit)
    ensures ParseAll(EncodeAll(payloads), limit) == (payloads, HeaderCut)
  {
    var n := |EncodeAll(payloads)|;
    CutStreamYieldsWholeFrames(payloads, n, limit);
    WholeFramesIsLargest(payloads, n);
    var k := WholeFrames(payloads, n);
    if k < |payloads| {
      EncodeAllSplits(payloads, k + 1);
    }
    assert EncodeAll(payloads)[..n] == EncodeAll(payloads);
    assert payloads[..|payloads|] == payloads;
  }

  lemma {:induction false} EncodeAllSplits(payloads: seq<Bytes>, k: nat)
    requires k <= |payloads|
    ensures EncodeAll(payloads) == EncodeAll(payloads[..k]) + EncodeAll(payloads[k..])
  {
    if k > 0 {
      EncodeAllSplits(payloads[1..], k - 1);
      assert payloads[..k][1..] == payloads[1..][..k - 1];
    }
  }

  // ---------------------------------------------------------------- the length check on writing

  /** The writer's check. It compares the length after truncation to 32 bits. */
  predicate WriteAccepts(payload: Bytes, limit: Limit) {
    |payload| != 0 && |payload| % TWO_32 <= EffectiveLimit(limit)
  }

  /**
   What a reader under the same limit reads back as itself is what the writer accepts that is shorter than
   2^32 bytes: the check accepts longer payloads whose length is small modulo 2^32, and the header then names
   another length.
   */
  lemma AcceptedFrameReadsBackIff(payload: Bytes, limit: Limit)
    ensures Parse(Encode(payload), limit) == (Frame(payload), []) <==> WriteAccepts(payload, limit) && |payload| < TWO_32
  {
    if |payload| < TWO_32 && WriteAccepts(payload, limit) {
      ParseOfFrame(payload, [], limit);
      assert Encode(payload) + [] == Encode(payload);
    } else {
      HeaderHoldsLowBits(|payload|);
      assert Encode(payload)[..HEADER_SIZE] == PutUint32(|payload|);
    }
  }

  /** A payload of exactly 2^32 bytes is accepted and cannot be read back. */
  lemma OversizedPayloadIsAccepted(payload: Bytes, limit: Limit)
    requires |payload| == TWO_32
    ensures WriteAccepts(payload, limit) && Parse(Encode(payload), limit).0 == BadLength(0)
  {
    HeaderHoldsLowBits(TWO_32);
    assert Encode(payload)[..HEADER_SIZE] == PutUint32(TWO_32);
  }

  // ---------------------------------------------------------------- writing through short writes

  /** How one call of the underlying Write behaves: it takes at most `n` bytes and may then report an error. */
  datatype Accept = Accept(n: nat, fails: bool)

  /** The underlying writer. `plan` is how its next calls behave; past its end they take everything. */
  class Writer {
    var sent: Bytes
    var plan: seq<Accept>

    constructor (plan: seq<Accept>)
      ensures this.plan == plan && sent == []
    {
      this.plan := plan;
      sent := [];
    }

    ghost predicate NeverFails()
      reads this
    {
      forall i :: 0 <= i < |plan| ==> plan[i].n > 0 && !plan[i].fails
    }

    method Write(data: Bytes) returns (n: nat, failed: bool)
      modifies this
      ensures n <= |data| && sent == old(sent) + data[..n]
      ensures old(NeverFails()) ==> NeverFails() && !failed && (data != [] ==> n > 0)
    {
      if plan == [] {
        n, failed := |data|, false;
      } else {
        n, failed := Min(plan[0].n, |data|), plan[0].fails;
        plan := plan[1..];
      }
      sent := sent + data[..n];
    }
  }

  function Sum(takes: seq<nat>): nat {
    if takes == [] then 0 else Sum(takes[..|takes| - 1]) + takes[|takes| - 1]
  }

  /** The socket took something each time, except perhaps the last if the write failed then. */
  predicate Took(takes: seq<nat>, failed: bool) {
    (failed ==> takes != []) && forall i :: 0 <= i < |takes| && (failed ==> i < |takes| - 1) ==> takes[i] > 0
  }

  lemma TakesOn(data: Bytes, done: nat, n: nat)
    requires done + n <= |data|
    ensures data[..done] + data[done..][..n] == data[..done + n] && data[done..][n..] == data[done + n..]
  {
  }

  lemma NothingTaken()
    ensures Sum([]) == 0
  {
  }

  lemma SumGrows(takes: seq<nat>, n: nat)
    ensures Sum(takes + [n]) == Sum(takes) + n
  {
    assert (takes + [n])[..|takes|] == takes;
  }

  /** Keeps writing until everything is taken or a call fails or takes nothing; `takes` is what each call took. */
  method WriteFull(w: Writer, data: Bytes) returns (ok: bool, ghost takes: seq<nat>)
    modifies w
    ensures Took(takes, !ok) && Sum(takes) <= |data| && w.sent == old(w.sent) + data[..Sum(takes)]
    ensures ok ==> Sum(takes) == |data|
    ensures old(w.NeverFails()) ==> ok && w.NeverFails()
  {
    hide Sum;
    NothingTaken();
    var rest := data;
    takes := [];
    while |rest| > 0
      invariant Took(takes, false) && Sum(takes) <= |data| && rest == data[Sum(takes)..]
      invariant w.sent == old(w.sent) + data[..Sum(takes)]
      invariant old(w.NeverFails()) ==> w.NeverFails()
    {
      var n, failed := w.Write(rest);
      TakesOn(data, Sum(takes), n);
      SumGrows(takes, n);
      takes := takes + [n];
      if failed || n <= 0 {
        return false, takes;
      }
      rest := rest[n..];
    }
    ok := true;
  }

  datatype WriteResult = Written | InvalidLength | WriteFailed

  /**
   Writes one frame. A refused length touches nothing; success puts exactly the frame on the stream;
   a failure leaves some prefix of it there.
   */
  method WriteFrame(w: Writer, payload: Bytes, limit: Limit) returns (r: WriteResult)
    modifies w
    ensures r == InvalidLength <==> !WriteAccepts(payload, limit)
    ensures r == InvalidLength ==> w.sent == old(w.sent)
    ensures r == Written ==> w.sent == old(w.sent) + Encode(payload)
    ensures r == WriteFailed ==> exists k | 0 <= k <= |Encode(payload)| :: w.sent == old(w.sent) + Encode(payload)[..k]
    ensures old(w.NeverFails()) && WriteAccepts(payload, limit) ==> r == Written && w.NeverFails()
  {
    if |payload| == 0 || |payload| % TWO_32 > EffectiveLimit(limit) {
      return InvalidLength;
    }
    var header := PutUint32(|payload|);
    hide Sum, Took;
    var ok, takes := WriteFull(w, header);
    if !ok {
      assert header[..Sum(takes)] == Encode(payload)[..Sum(takes)];
      return WriteFailed;
    }
    assert w.sent == old(w.sent) + header;
    ok, takes := WriteFull(w, payload);
    ghost var taken := Sum(takes);
    assert header + payload[..taken] == Encode(payload)[..HEADER_SIZE + taken];
    assert w.sent == old(w.sent) + (header + payload[..taken]);
    if !ok {
      return WriteFailed;
    }
    assert Encode(payload)[..HEADER_SIZE + |payload|] == Encode(payload);
    return Written;
  }

  // ---------------------------------------------------------------- reading through short reads

  /** The underlying reader: the bytes still to come before the stream ends, and how large its next reads are. */
  class Reader {
    var pending: Bytes
    var chunks: seq<nat>

    constructor (pending: Bytes, chunks: seq<nat>)
      ensures this.pending == pending && this.chunks == chunks
    {
      this.pending := pending;
      this.chunks := chunks;
    }

    /** Reads into buf from position `at`; n == 0 only when nothing is wanted or the stream has ended. */
    method Read(buf: array<byte>, at: nat) returns (n: nat)
      requires at <= buf.Length
      modifies this, buf
      ensures n <= buf.Length - at && n <= |old(pending)|
      ensures at < buf.Length && old(pending) != [] ==> n > 0
      ensures pending == old(pending)[n..]
      ensures buf[..at] == old(buf[..at]) && buf[at..at + n] == old(pending)[..n]
    {
      n := Min(buf.Length - at, |pending|);
      if chunks != [] {
        n := Min(n, Max(1, chunks[0]));
        chunks := chunks[1..];
      }
      forall i | 0 <= i < n {
        buf[at + i] := pending[i];
      }
      forall i | 0 <= i < n ensures buf[at..at + n][i] == pending[..n][i] {
        assert buf[at + i] == pending[i];
      }
      pending := pending[n..];
    }
  }

  /** Fills buf from the reader, or fails because the stream ended first. */
  method ReadFull(r: Reader, buf: array<byte>) returns (ok: bool)
    modifies r, buf
    ensures ok <==> buf.Length <= |old(r.pending)|
    ensures ok ==> buf[..] == old(r.pending)[..buf.Length] && r.pending == old(r.pending)[buf.Length..]
    ensures !ok ==> r.pending == []
  {
    var got := 0;
    while got < buf.Length
      invariant got <= buf.Length && got <= |old(r.pending)|
      invariant buf[..got] == old(r.pending)[..got]
      invariant r.pending == old(r.pending)[got..]
    {
      var n := r.Read(buf, got);
      if n == 0 {
        return false;
      }
      assert buf[..got + n] == buf[..got] + buf[got..got + n];
      assert old(r.pending)[..got + n] == old(r.pending)[..got] + old(r.pending)[got..][..n];
      got := got + n;
    }
    assert buf[..buf.Length] == buf[..];
    ok := true;
  }

  /** Reads one frame: whatever the sizes of the reads, it is the Parse of the bytes to come. */
  method ReadFrame(r: Reader, limit: Limit) returns (read: Read)
    modifies r
    ensures (read, r.pending) == Parse(old(r.pending), limit)
  {
    ghost var before := r.pending;
    var header := new byte[HEADER_SIZE](_ => 0);
    var ok := ReadFull(r, header);
    if !ok {
      return HeaderCut;
    }
    var frameLen := Uint32(header[..]);
    if frameLen == 0 || frameLen > EffectiveLimit(limit) {
      return BadLength(frameLen);
    }
    var frame := new byte[frameLen](_ => 0);
    ok := ReadFull(r, frame);
    if !ok {
      return BodyCut;
    }
    return Frame(frame[..]);
  }

  /** The loop of a connection's reader: frames until the first failure. */
  method ReadFrames(r: Reader, limit: Limit) returns (payloads: seq<Bytes>, end: Read)
    modifies r
    ensures (payloads, end) == ParseAll(old(r.pending), limit)
  {
    payloads := [];
    assert forall all: seq<Bytes> :: [] + all == all;
    while true
      invariant ParseAll(old(r.pending), limit)
                == (payloads + ParseAll(r.pending, limit).0, ParseAll(r.pending, limit).1)
      decreases |r.pending|
    {
      var read := ReadFrame(r, limit);
      if !read.Frame? {
        assert payloads + [] == payloads;
        return payloads, read;
      }
      assert forall more: seq<Bytes> :: payloads + ([read.payload] + more) == (payloads + [read.payload]) + more;
      payloads := payloads + [read.payload];
    }
  }

  /** A writer's loop: the payloads one after the other, through any short writes. */
  method WriteFrames(w: Writer, payloads: seq<Bytes>, limit: Limit)
    requires AllFit(payloads, limit) && w.NeverFails()
    modifies w
    ensures w.sent == old(w.sent) + EncodeAll(payloads)
  {
    for i := 0 to |payloads|
      invariant w.NeverFails() && w.sent == old(w.sent) + EncodeAll(payloads[..i])
    {
      EncodeAllGrows(payloads, i);
      assert WriteAccepts(payloads[i], limit);
      var r := WriteFrame(w, payloads[i], limit);
    }
    assert payloads[..|payloads|] == payloads;
  }

  lemma EncodeAllGrows(payloads: seq<Bytes>, i: nat)
    requires i < |payloads|
    ensures EncodeAll(payloads[..i + 1]) == EncodeAll(payloads[..i]) + Encode(payloads[i])
  {
    EncodeAllSplits(payloads[..i + 1], i);
    assert payloads[..i + 1][..i] == payloads[..i];
    assert payloads[..i + 1][i..] == [payloads[i]];
    assert EncodeAll([payloads[i]]) == Encode(payloads[i]) + [];
  }

  /**
   End to end: payloads written one after the other through any short writes, then cut anywhere and
   read through any short reads, come back as a prefix of themselves.
   */
  method SendAndReceive(payloads: seq<Bytes>, plan: seq<Accept>, cut: nat, chunks: seq<nat>, limit: Limit)
    returns (received: seq<Bytes>, end: Read)
    requires AllFit(payloads, limit)
    requires forall i :: 0 <= i < |plan| ==> plan[i].n > 0 && !plan[i].fails
    requires cut <= |EncodeAll(payloads)|
    ensures received == payloads[..WholeFrames(payloads, cut)]
    ensures end.HeaderCut? || end.BodyCut?
    ensures cut == |EncodeAll(payloads)| ==> received == payloads && end.HeaderCut?
  {
    var w := new Writer(plan);
    WriteFrames(w, payloads, limit);
    assert w.sent == EncodeAll(payloads);
    var reader := new Reader(w.sent[..cut], chunks);
    received, end := ReadFrames(reader, limit);
    CutStreamYieldsWholeFrames(payloads, cut, limit);
    StreamRoundTrip(payloads, limit);
    assert w.sent[..|w.sent|] == w.sent;
  }
}
