/** Whole response frames: the 18-byte header and status, and the payload behind it. */
module Frames {
  import opened Base
  import opened LittleEndian
  import opened CAbi
  import opened Wire

  const STATUS_FRAME_LEN: int := 18

  datatype Response = Status(status: u32) | Success(payload: Payload)

  datatype Decoded = Decoded(requestId: u64, opCode: u16, response: Response)

  /** `total_len` at 0, `request_id` at 4, response op code at 12, status at 14. */
  function Header(total: u32, id: u64, respOp: u16, status: u32): (h: bytes)
    ensures |h| == STATUS_FRAME_LEN
  {
    U32(total) + U64(id) + U16(respOp) + U32(status)
  }

  function OpOf(u: Uapi, shape: Shape): u16 {
    match shape
    case LookupShape => u.lookup
    case EnumChildrenShape => u.enumChildren
    case ReadKeyShape => u.readKey
    case DeleteLayerShape => u.deleteLayer
    case QueryValuesShape => u.queryValues
  }

  function ShapeFor(u: Uapi, op: u16): (shape: Option<Shape>)
    ensures shape.Some? <==> op in u.PayloadOps()
    ensures forall s :: shape == Some(s) <==> OpOf(u, s) == op
  {
    if op == u.lookup then Some(LookupShape)
    else if op == u.enumChildren then Some(EnumChildrenShape)
    else if op == u.readKey then Some(ReadKeyShape)
    else if op == u.deleteLayer then Some(DeleteLayerShape)
    else if op == u.queryValues then Some(QueryValuesShape)
    else None
  }

  function FrameLen(r: Response): nat {
    if r.Status? then STATUS_FRAME_LEN else STATUS_FRAME_LEN + |EncPayload(r.payload)|
  }

  /** A response an op can carry in a frame whose length fits `total_len`. */
  predicate Fits(u: Uapi, op: u16, r: Response) {
    && op < RESPONSE_BIT
    && FrameLen(r) <= U32_MAX
    && (r.Status? ==> !(r.status == u.ok && op in u.PayloadOps()))
    && (r.Success? ==> op == OpOf(u, ShapeOf(r.payload)))
  }

  function Frame(u: Uapi, id: u64, op: u16, r: Response): (f: bytes)
    requires Fits(u, op, r)
    ensures |f| == FrameLen(r)
  {
    match r
    case Status(status) => Header(STATUS_FRAME_LEN, id, op + RESPONSE_BIT, status)
    case Success(p) => Header(FrameLen(r), id, op + RESPONSE_BIT, u.ok) + EncPayload(p)
  }

  /** The one decoder: keyed on op and status, total on all byte strings. */
  function DecodeFrame(u: Uapi, f: bytes): Option<Decoded> {
    if |f| < STATUS_FRAME_LEN || AsU32(f[..4]) != |f| || AsU16(f[12..14]) < RESPONSE_BIT then None
    else
      var id, op, status := AsU64(f[4..12]), AsU16(f[12..14]) - RESPONSE_BIT, AsU32(f[14..18]);
      if status == u.ok && ShapeFor(u, op).Some? then
        var p :- DecPayload(ShapeFor(u, op).value, f[18..]);
        Some(Decoded(id, op, Success(p)))
      else if |f| == STATUS_FRAME_LEN then Some(Decoded(id, op, Status(status)))
      else None
  }

  /** What the kernel checks of a written response. */
  ghost predicate KernelAccepts(u: Uapi, req: Request, f: bytes) {
    && |f| >= STATUS_FRAME_LEN
    && AsU32(f[..4]) == |f|
    && AsU64(f[4..12]) == req.requestId
    && AsU16(f[12..14]) == req.opCode + RESPONSE_BIT
    && AsU32(f[14..18]) in u.statuses
  }

  lemma HeaderSlices(a: bytes, b: bytes, c: bytes, d: bytes, rest: bytes)
    requires |a| == 4 && |b| == 8 && |c| == 2 && |d| == 4
    ensures var f := a + b + c + d + rest;
            f[..4] == a && f[4..12] == b && f[12..14] == c && f[14..18] == d && f[18..] == rest
  {
  }

  lemma HeaderParts(f: bytes)
    requires |f| >= STATUS_FRAME_LEN
    ensures f == f[..4] + f[4..12] + f[12..14] + f[14..18] + f[18..]
  {
  }

  /** Reading the header fields back. */
  lemma HeaderBack(total: u32, id: u64, respOp: u16, status: u32, rest: bytes)
    ensures var f := Header(total, id, respOp, status) + rest;
            && AsU32(f[..4]) == total && AsU64(f[4..12]) == id && AsU16(f[12..14]) == respOp
            && AsU32(f[14..18]) == status && f[18..] == rest
  {
    var f := Header(total, id, respOp, status) + rest;
    hide U16, U32, U64, AsU16, AsU32, AsU64;
    HeaderSlices(U32(total), U64(id), U16(respOp), U32(status), rest);
    U32Inverse(total, f[..4]);
    U64Inverse(id, f[4..12]);
    U16Inverse(respOp, f[12..14]);
    U32Inverse(status, f[14..18]);
  }

  lemma HeaderOnly(f: bytes)
    requires |f| >= STATUS_FRAME_LEN
    ensures f == Header(AsU32(f[..4]), AsU64(f[4..12]), AsU16(f[12..14]), AsU32(f[14..18])) + f[18..]
  {
    hide U16, U32, U64, AsU16, AsU32, AsU64;
    U32Inverse(AsU32(f[..4]), f[..4]);
    U64Inverse(AsU64(f[4..12]), f[4..12]);
    U16Inverse(AsU16(f[12..14]), f[12..14]);
    U32Inverse(AsU32(f[14..18]), f[14..18]);
    HeaderParts(f);
  }

  lemma FrameFields(u: Uapi, id: u64, op: u16, r: Response)
    requires Fits(u, op, r)
    ensures var f := Frame(u, id, op, r);
            && AsU32(f[..4]) == |f| && AsU64(f[4..12]) == id && AsU16(f[12..14]) == op + RESPONSE_BIT
            && AsU32(f[14..18]) == (if r.Status? then r.status else u.ok)
            && f[18..] == if r.Status? then [] else EncPayload(r.payload)
  {
    hide U16, U32, U64, AsU16, AsU32, AsU64, EncPayload, Header;
    match r
    case Status(status) =>
      HeaderBack(STATUS_FRAME_LEN, id, op + RESPONSE_BIT, status, []);
      assert Frame(u, id, op, r) == Header(STATUS_FRAME_LEN, id, op + RESPONSE_BIT, status) + [];
    case Success(p) =>
      HeaderBack(FrameLen(r), id, op + RESPONSE_BIT, u.ok, EncPayload(p));
  }

  lemma DecodeBack(u: Uapi, id: u64, op: u16, r: Response)
    requires Fits(u, op, r)
    ensures DecodeFrame(u, Frame(u, id, op, r)) == Some(Decoded(id, op, r))
  {
    hide U16, U32, U64, AsU16, AsU32, AsU64, EncPayload, DecPayload, Header;
    FrameFields(u, id, op, r);
    var f := Frame(u, id, op, r);
    match r
    case Status(status) =>
    case Success(p) =>
      assert ShapeFor(u, op) == Some(ShapeOf(p));
      PayloadExact(ShapeOf(p), f[18..], p);
  }

  lemma DecodeOnly(u: Uapi, f: bytes, d: Decoded)
    requires DecodeFrame(u, f) == Some(d)
    ensures Fits(u, d.opCode, d.response) && f == Frame(u, d.requestId, d.opCode, d.response)
  {
    hide U16, U32, U64, AsU16, AsU32, AsU64, EncPayload, DecPayload, Header;
    HeaderOnly(f);
    match d.response
    case Status(status) => assert f[18..] == [];
    case Success(p) =>
      assert OpOf(u, ShapeFor(u, d.opCode).value) == d.opCode;
      PayloadExact(ShapeFor(u, d.opCode).value, f[18..], p);
  }

  /**
   * Whole frames are unambiguous: a byte string decodes to a response exactly when it
   * is the frame of that response.
   */
  lemma FrameExact(u: Uapi, f: bytes, d: Decoded)
    ensures DecodeFrame(u, f) == Some(d) <==>
              Fits(u, d.opCode, d.response) && f == Frame(u, d.requestId, d.opCode, d.response)
  {
    if DecodeFrame(u, f) == Some(d) {
      DecodeOnly(u, f, d);
    }
    if Fits(u, d.opCode, d.response) && f == Frame(u, d.requestId, d.opCode, d.response) {
      DecodeBack(u, d.requestId, d.opCode, d.response);
    }
  }
}
