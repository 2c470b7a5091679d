/** Splitting a framed request into header and payload view, and the op gate of the decoders. */
module RequestFrame {
  import opened Base
  import opened LittleEndian
  import opened CAbi

  const HEADER_LEN: int := 22

  /**
   * `parse_rsi_request_header`: at least 22 bytes, a known op code, and whatever else
   * lcs-core may check, which is left open as `vet`.
   */
  predicate HeaderAccepted(u: Uapi, vet: bytes -> bool, frame: bytes) {
    |frame| >= HEADER_LEN && AsU16(frame[12..14]) in u.requestOps && vet(frame)
  }

  /** The payload view: the length is cut to 32 bits, as the C field is. */
  function PayloadView(frame: bytes): View<byte>
    requires |frame| >= HEADER_LEN
  {
    At(frame[HEADER_LEN..][..(|frame| - HEADER_LEN) % 0x1_0000_0000])
  }

  function ParseHeader(u: Uapi, vet: bytes -> bool, frame: bytes): Result<Request> {
    if HeaderAccepted(u, vet, frame)
    then Ok(Request(AsU64(frame[4..12]), AsU64(frame[14..22]), PayloadView(frame), AsU16(frame[12..14])))
    else Err(EBADMSG)
  }

  /** The caller's `struct rsi_request`. */
  class RequestSlot {
    var value: Request

    constructor (value: Request)
      ensures this.value == value
    {
      this.value := value;
    }
  }

  /** Fills `*out` on success and leaves it alone otherwise. */
  method ParseRequest(u: Uapi, vet: bytes -> bool, frame: Option<bytes>, out: RequestSlot?) returns (r: Result<()>)
    modifies out
    ensures r == if out == null || frame.None? then Err(EINVAL)
                 else if HeaderAccepted(u, vet, frame.value) then Ok(()) else Err(EBADMSG)
    ensures r.Ok? ==> Ok(out.value) == ParseHeader(u, vet, frame.value)
    ensures r.Err? && out != null ==> out.value == old(out.value)
  {
    if out == null {
      return Err(EINVAL);
    }
    if frame.None? {
      return Err(EINVAL);
    }
    var parsed := ParseHeader(u, vet, frame.value);
    match parsed
    case Ok(req) =>
      out.value := req;
      return Ok(());
    case Err(e) =>
      return Err(EBADMSG);
  }

  /** The op gate in front of every payload decoder. */
  function ReqPayloadFor(req: Option<Request>, expected: u16): (r: Result<bytes>)
    ensures r.Ok? <==> req.Some? && req.value.opCode == expected && Readable(req.value.payload)
    ensures r.Ok? ==> r.value == Elems(req.value.payload)
    ensures r.Err? ==> r.errno == EINVAL
  {
    if req.None? then Err(EINVAL)
    else if req.value.opCode != expected then Err(EINVAL)
    else if req.value.payload.Null? then
      if Count(req.value.payload) == 0 then Ok([]) else Err(EINVAL)
    else Ok(req.value.payload.elems)
  }

  /** A request frame put together from its fields. */
  function RequestBytes(total: u32, id: u64, op: u16, txn: u64, payload: bytes): (frame: bytes)
    ensures |frame| == 22 + |payload|
  {
    U32(total) + U64(id) + U16(op) + U64(txn) + payload
  }

  lemma RequestSlices(total: u32, id: u64, op: u16, txn: u64, payload: bytes)
    ensures var f := RequestBytes(total, id, op, txn, payload);
            && f[4..12] == U64(id) && f[12..14] == U16(op) && f[14..22] == U64(txn) && f[22..] == payload
  {
    hide U16, U32, U64;
  }

  /**
   * Every request of a known op whose payload length fits 32 bits, of whatever length, is
   * parsed to just its fields and its whole payload, unless the header parser's further
   * checks refuse it.
   */
  lemma RequestBack(u: Uapi, vet: bytes -> bool, total: u32, id: u64, op: u16, txn: u64, payload: bytes)
    requires |payload| <= 0xFFFF_FFFF
    ensures var f := RequestBytes(total, id, op, txn, payload);
            ParseHeader(u, vet, f) == (if op in u.requestOps && vet(f) then Ok(Request(id, txn, At(payload), op))
                                       else Err(EBADMSG))
  {
    hide U16, U64, AsU16, AsU64, RequestBytes;
    var f := RequestBytes(total, id, op, txn, payload);
    RequestSlices(total, id, op, txn, payload);
    U64Inverse(id, f[4..12]);
    U16Inverse(op, f[12..14]);
    U64Inverse(txn, f[14..22]);
    assert payload[..|payload|] == payload;
  }

  /** Whatever is parsed has 22 bytes and a known op in bytes 12 and 13, low byte first; all else is EBADMSG. */
  lemma RequestOnly(u: Uapi, vet: bytes -> bool, frame: bytes)
    ensures ParseHeader(u, vet, frame).Ok? <==>
              |frame| >= 22 && frame[12] as int + 256 * (frame[13] as int) in u.requestOps && vet(frame)
    ensures ParseHeader(u, vet, frame).Err? ==> ParseHeader(u, vet, frame) == Err(EBADMSG)
  {
    hide AsU64;
    if |frame| >= 22 {
      var s := frame[12..14];
      assert FromLE(s) == s[0] + 256 * FromLE(s[1..]);
      assert FromLE(s[1..]) == s[1] + 256 * FromLE(s[1..][1..]);
    }
  }

  lemma RequestParts(frame: bytes)
    requires |frame| >= HEADER_LEN
    ensures frame == frame[..4] + frame[4..12] + frame[12..14] + frame[14..22] + frame[22..]
  {
  }

  /**
   * The parsed fields and the payload the matching decoder is given rebuild the frame
   * byte for byte, exactly when the payload length fits the 32-bit field.
   */
  lemma SplitIsLossless(u: Uapi, vet: bytes -> bool, frame: bytes)
    requires ParseHeader(u, vet, frame).Ok?
    ensures var req := ParseHeader(u, vet, frame).value;
            var payload := ReqPayloadFor(Some(req), req.opCode);
            && payload.Ok?
            && (frame == frame[..4] + U64(req.requestId) + U16(req.opCode) + U64(req.txnId) + payload.value
                <==> |frame| - HEADER_LEN <= U32_MAX)
  {
    hide U16, U64, AsU16, AsU64;
    U64Inverse(AsU64(frame[4..12]), frame[4..12]);
    U16Inverse(AsU16(frame[12..14]), frame[12..14]);
    U64Inverse(AsU64(frame[14..22]), frame[14..22]);
    RequestParts(frame);
    var rest := frame[22..];
    if |frame| - HEADER_LEN <= U32_MAX {
      assert rest[..|rest| % 0x1_0000_0000] == rest;
    }
  }

  /**
   * Every accepted frame with more than 2^32-1 payload bytes loses some: the view is the
   * payload's length modulo 2^32, from its start, and the rest is out of the decoder's sight.
   */
  lemma OversizedRequestIsCut(u: Uapi, vet: bytes -> bool, frame: bytes)
    requires ParseHeader(u, vet, frame).Ok? && |frame| - HEADER_LEN > U32_MAX
    ensures var seen := ReqPayloadFor(Some(ParseHeader(u, vet, frame).value), AsU16(frame[12..14]));
            && seen.Ok?
            && |seen.value| == (|frame| - HEADER_LEN) % 0x1_0000_0000 < |frame| - HEADER_LEN
            && seen.value == frame[HEADER_LEN..HEADER_LEN + |seen.value|]
  {
    hide AsU16, AsU64;
    var n := (|frame| - HEADER_LEN) % 0x1_0000_0000;
    assert frame[HEADER_LEN..][..n] == frame[HEADER_LEN..HEADER_LEN + n];
  }

  /** A frame of op `op` with `n` payload bytes. */
  function BlankFrame(op: u16, n: nat): (frame: bytes)
    ensures |frame| == HEADER_LEN + n
  {
    Zeros(12) + U16(op) + Zeros(8 + n)
  }

  /** Nothing in the split itself stands in the way of such a frame, for any known op and any length. */
  lemma OversizedFrameAccepted(u: Uapi, vet: bytes -> bool, op: u16, n: nat)
    requires op in u.requestOps && n > U32_MAX && vet(BlankFrame(op, n))
    ensures var parsed := ParseHeader(u, vet, BlankFrame(op, n));
            parsed.Ok? && parsed.value.opCode == op && |Elems(parsed.value.payload)| < n
  {
    hide U16, AsU16, AsU64, Zeros;
    var frame := BlankFrame(op, n);
    assert frame[12..14] == U16(op);
    U16Inverse(op, frame[12..14]);
  }

  /** The header parser compares the u32 `total_len` with the frame's length. */
  ghost predicate ChecksTotalLen(vet: bytes -> bool) {
    forall f: bytes :: |f| >= HEADER_LEN && vet(f) ==> AsU32(f[..4]) == |f|
  }

  /** A parser that makes that comparison accepts no oversized frame, so nothing is ever cut. */
  lemma TotalLenCheckPreventsCut(u: Uapi, vet: bytes -> bool, frame: bytes)
    requires ChecksTotalLen(vet) && ParseHeader(u, vet, frame).Ok?
    ensures var req := ParseHeader(u, vet, frame).value;
            var payload := ReqPayloadFor(Some(req), req.opCode);
            && payload.Ok?
            && frame == frame[..4] + U64(req.requestId) + U16(req.opCode) + U64(req.txnId) + payload.value
  {
    hide AsU16, AsU32, AsU64, U16, U64;
    SplitIsLossless(u, vet, frame);
  }

  /** No decoder but the one for the parsed op is handed a payload. */
  lemma OnlyOwnDecoder(u: Uapi, vet: bytes -> bool, frame: bytes, expected: u16)
    requires ParseHeader(u, vet, frame).Ok?
    ensures var req := ParseHeader(u, vet, frame).value;
            && (ReqPayloadFor(Some(req), expected).Ok? <==> U16(expected) == frame[12..14])
  {
    U16Inverse(expected, frame[12..14]);
  }
}
