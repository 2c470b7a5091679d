/**
 * The `rsi_respond_*` helpers. `Outcome` says, for one call and one allocation history,
 * which frame is written or which errno is reported; each helper is proved to do exactly
 * that.
 */
module Respond {
  import opened Base
  import opened LittleEndian
  import opened CAbi
  import opened Heap
  import opened Wire
  import opened Validation
  import opened Frames
  import opened Writer

  /** The source fd: the frames written to it, and what each write(2) answers. */
  class SourceFd {
    /** Bytes accepted by the n-th write, or a negated errno. */
    const results: nat -> int
    var writes: seq<bytes>

    constructor (results: nat -> int)
      ensures this.results == results && writes == []
    {
      this.results := results;
      writes := [];
    }

    method Write(frame: bytes) returns (n: int)
      modifies this
      ensures writes == old(writes) + [frame] && n == results(|old(writes)|)
    {
      n := results(|writes|);
      writes := writes + [frame];
    }
  }

  /** One call of a helper, with its arguments. */
  datatype Call =
    | StatusCall(status: u32)
    | LookupCall(entries: View<CAbi.PathEntry>, metadata: View<CAbi.KeyMetadata>)
    | EnumChildrenCall(children: View<ChildEntry>, childMetadata: View<CAbi.KeyMetadata>)
    | ReadKeyCall(name: View<byte>, parentGuid: Option<Guid>, sd: View<byte>,
                  volatileKey: byte, symlink: byte, lastWriteTime: u64)
    | DeleteLayerCall(orphans: GuidArray)
    | QueryValuesCall(values: View<ValueEntry>, blankets: View<BlanketEntry>)

  function CallShape(call: Call): Shape
    requires !call.StatusCall?
  {
    match call
    case LookupCall(_, _) => LookupShape
    case EnumChildrenCall(_, _) => EnumChildrenShape
    case ReadKeyCall(_, _, _, _, _, _) => ReadKeyShape
    case DeleteLayerCall(_) => DeleteLayerShape
    case QueryValuesCall(_, _) => QueryValuesShape
  }

  function OrphanGuids(orphans: GuidArray): List<Guid> {
    if orphans.NullGuids? then [] else Chunks(orphans.raw)
  }

  /** The payload a call stands for. */
  function PayloadOf(call: Call): (p: Payload)
    requires !call.StatusCall?
    ensures ShapeOf(p) == CallShape(call)
  {
    match call
    case LookupCall(es, ms) => Lookup(WirePaths(es), WireMetadatas(ms))
    case EnumChildrenCall(cs, ms) => EnumChildren(Map(WireChild, Elems(cs)), WireMetadatas(ms))
    case ReadKeyCall(n, g, sd, v, s, t) =>
      ReadKey(Elems(n), if g.Some? then g.value else NIL, Elems(sd), v, s, t)
    case DeleteLayerCall(gs) => DeleteLayer(OrphanGuids(gs))
    case QueryValuesCall(vs, bs) => QueryValues(Map(WireValue, Elems(vs)), Map(WireBlanket, Elems(bs)))
  }

  function ResponseOf(call: Call): Response {
    if call.StatusCall? then Status(call.status) else Success(PayloadOf(call))
  }

  /** The verdict reached before encoding, when no allocation is refused. */
  ghost function Validated(u: Uapi, call: Call): Result<()>
    requires !call.StatusCall?
  {
    match call
    case LookupCall(es, ms) => if LookupAcceptable(es, ms) then Ok(()) else Err(EINVAL)
    case EnumChildrenCall(cs, ms) => if ChildrenAcceptable(cs, ms) then Ok(()) else Err(EINVAL)
    case ReadKeyCall(_, g, _, _, _, _) => if g.Some? then Ok(()) else Err(EINVAL)
    case DeleteLayerCall(gs) =>
      if OrphanVerdict(u.usizeMax, gs).Ok? then Ok(()) else Err(OrphanVerdict(u.usizeMax, gs).errno)
    case QueryValuesCall(vs, bs) => if Readable(vs) && Readable(bs) then Ok(()) else Err(EINVAL)
  }

  /** The verdict of the encoding loops. */
  predicate Encodable(call: Call)
    requires !call.StatusCall?
  {
    match call
    case LookupCall(es, ms) => PathsOk(es) && MetadatasOk(ms)
    case EnumChildrenCall(cs, ms) => (forall c :: c in Elems(cs) ==> ChildOk(c)) && MetadatasOk(ms)
    case ReadKeyCall(n, _, sd, v, s, _) => Readable(n) && Readable(sd) && IsBool(v) && IsBool(s)
    case DeleteLayerCall(_) => true
    case QueryValuesCall(vs, bs) =>
      (forall v :: v in Elems(vs) ==> ValueOk(v)) && (forall b :: b in Elems(bs) ==> BlanketOk(b))
  }

  /** Status-only RSI_OK is for the ops that have no success payload. */
  function ValidateStatusResponse(u: Uapi, req: Request, status: u32): (r: Result<()>)
    ensures r.Ok? ==> Fits(u, req.opCode, Status(status)) || req.opCode !in u.responders
  {
    if status !in u.statuses then Err(EINVAL)
    else if status == u.ok && !(req.opCode in u.statusOnly && u.statusOnly[req.opCode]) then Err(EINVAL)
    else Ok(())
  }

  /**
   * What one call does: the frame handed to write(2), or the errno. `early` and `late`
   * say whether an allocation was refused while validating or while encoding.
   */
  ghost function Outcome(u: Uapi, req: Option<Request>, call: Call, early: bool, late: bool)
    : Result<bytes>
  {
    if req.None? then Err(EINVAL)
    else if call.StatusCall? then
      if req.value.opCode !in u.responders then Err(EINVAL)
      else if ValidateStatusResponse(u, req.value, call.status).Err? then Err(EINVAL)
      else Ok(Frame(u, req.value.requestId, req.value.opCode, Status(call.status)))
    else if req.value.opCode != OpOf(u, CallShape(call)) then Err(EINVAL)
    else if early then Err(ENOMEM)
    else if Validated(u, call).Err? then Err(Validated(u, call).errno)
    else if !Encodable(call) then Err(EINVAL)
    else if late then Err(ENOMEM)
    else if FrameLen(ResponseOf(call)) > U32_MAX then Err(EOVERFLOW)
    else Ok(Frame(u, req.value.requestId, req.value.opCode, ResponseOf(call)))
  }

  /** What the helper returns once `out` is known and write(2) answers `n`. */
  function Returned(out: Result<bytes>, n: int): Result<()> {
    match out
    case Err(e) => Err(e)
    case Ok(frame) => if n < 0 then Err(Os(-n)) else if n == |frame| then Ok(()) else Err(EIO)
  }

  /** The frames a call adds to the fd. */
  function Sent(out: Result<bytes>): seq<bytes> {
    if out.Ok? then [out.value] else []
  }

  // ---- what a call asks of the allocator --------------------------------------

  /** The call is a payload call for the request's own op. */
  predicate Gated(u: Uapi, req: Option<Request>, call: Call) {
    !call.StatusCall? && req.Some? && req.value.opCode == OpOf(u, CallShape(call))
  }

  /** The call passes the gate, the validator and the encoders. */
  ghost predicate Complete(u: Uapi, req: Option<Request>, call: Call) {
    Gated(u, req, call) && Validated(u, call).Ok? && Encodable(call)
  }

  /** Where validation that begins at request `at` leaves the allocator. */
  ghost function ValidationEnd(u: Uapi, schedule: nat -> Answer, call: Call, at: nat): nat {
    match call
    case LookupCall(es, ms) => LookupEnd(schedule, at, es, ms)
    case EnumChildrenCall(cs, ms) => ChildrenEnd(schedule, at, cs, ms)
    case DeleteLayerCall(gs) => OrphansEnd(u.usizeMax, at, gs)
    case _ => at
  }

  /** The most requests validation can make: one per GUID target read, one for the metadata. */
  ghost function ValidationAsks(call: Call): nat {
    match call
    case LookupCall(es, ms) => TargetsRead(Elems(es)) + ReserveAsks(Count(ms))
    case EnumChildrenCall(cs, ms) => ChildTargetsRead(Elems(cs)) + ReserveAsks(Count(ms))
    case DeleteLayerCall(gs) => ReserveAsks(GuidCount(gs))
    case _ => 0
  }

  lemma ValidationBound(u: Uapi, schedule: nat -> Answer, call: Call, at: nat)
    ensures at <= ValidationEnd(u, schedule, call, at) <= at + ValidationAsks(call)
  {
    hide Pushes, TargetsRead, ChildTargetsRead, LegalEntries, LegalChildren;
    match call
    case LookupCall(es, _) => PushesBound(schedule, at, 0, 0, TargetsRead(Elems(es)));
    case EnumChildrenCall(cs, _) => PushesBound(schedule, at, 0, 0, ChildTargetsRead(Elems(cs)));
    case _ =>
  }

  /** A call that is encoded to the end appends this often: placeholder, counts and fields. */
  function Appends(call: Call): nat {
    match call
    case StatusCall(_) => 0
    case LookupCall(es, ms) => 1 + PathsAppends(es) + MetadatasAppends(ms)
    case EnumChildrenCall(cs, ms) => 2 + Sum(ChildAppends, Elems(cs)) + MetadatasAppends(ms)
    case ReadKeyCall(n, _, sd, _, _, _) => 5 + LpfAppends(n) + LpfAppends(sd)
    case DeleteLayerCall(_) => 3
    case QueryValuesCall(vs, bs) => 3 + Sum(ValueAppends, Elems(vs)) + Sum(BlanketAppends, Elems(bs))
  }

  /** The appends a call makes, whether or not a check stops the encoders half way. */
  function AppendsMade(call: Call): nat {
    match call
    case StatusCall(_) => 0
    case LookupCall(es, ms) => 1 + PathsTried(es) + if PathsOk(es) then MetadatasTried(ms) else 0
    case EnumChildrenCall(cs, ms) =>
      2 + TriedMany(ChildOk, ChildTried, Elems(cs))
      + if forall c :: c in Elems(cs) ==> ChildOk(c) then MetadatasTried(ms) else 0
    case ReadKeyCall(n, _, sd, v, s, _) => 1 + ReadKeyTried(n, sd, v, s)
    case DeleteLayerCall(_) => 3
    case QueryValuesCall(vs, bs) =>
      2 + TriedMany(ValueOk, ValueTried, Elems(vs))
      + if forall v :: v in Elems(vs) ==> ValueOk(v) then 1 + TriedMany(BlanketOk, BlanketTried, Elems(bs)) else 0
  }

  lemma AppendsMadeAll(call: Call)
    requires !call.StatusCall? && Encodable(call)
    ensures AppendsMade(call) == Appends(call)
  {
    hide PathsOk, MetadatasOk, ChildOk, PathsTried, MetadatasTried, PathsAppends, MetadatasAppends, TriedMany, Sum;
    match call
    case LookupCall(es, ms) => PathsTriedAll(es); MetadatasTriedAll(ms);
    case EnumChildrenCall(cs, ms) => ChildrenTriedAll(Elems(cs)); MetadatasTriedAll(ms);
    case ReadKeyCall(_, _, _, _, _, _) =>
    case DeleteLayerCall(_) =>
    case QueryValuesCall(vs, bs) =>
      TriedAll(ValueOk, ValueTried, ValueAppends, Elems(vs));
      TriedAll(BlanketOk, BlanketTried, BlanketAppends, Elems(bs));
  }

  /** Where `n` appends from request `at` on leave the allocator: behind the first refusal, if any. */
  function AppendEnd(schedule: nat -> Answer, at: nat, n: nat): nat
    decreases n
  {
    if n == 0 then at else if schedule(at).Refuse? then at + 1 else AppendEnd(schedule, at + 1, n - 1)
  }

  lemma {:induction false} AppendEndIs(schedule: nat -> Answer, at: nat, n: nat, end: nat)
    requires at <= end
    requires if Grants(schedule, at, at + n) then end == at + n
             else at < end <= at + n && Grants(schedule, at, end - 1) && schedule(end - 1).Refuse?
    ensures AppendEnd(schedule, at, n) == end
    decreases n
  {
    if n > 0 && schedule(at).Grant? {
      assert Grants(schedule, at, at + n) <==> Grants(schedule, at + 1, at + 1 + (n - 1));
      AppendEndIs(schedule, at + 1, n - 1, end);
    }
  }

  /**
   * The requests of a call: `start..mid` while validating, `mid..end` while encoding, and
   * whether one of them is refused.
   */
  datatype Requests = Requests(early: bool, late: bool, mid: nat, end: nat)

  /** The schedule and the arguments decide all of it. */
  ghost function RequestsOf(u: Uapi, schedule: nat -> Answer, req: Option<Request>, call: Call, start: nat): Requests {
    if !Gated(u, req, call) then Requests(false, false, start, start)
    else
      var mid := ValidationEnd(u, schedule, call, start);
      var early := !Grants(schedule, start, mid);
      if early || Validated(u, call).Err? then Requests(early, false, mid, mid)
      else
        var n := AppendsMade(call);
        Requests(false, !Grants(schedule, mid, mid + n), mid, AppendEnd(schedule, mid, n))
  }

  /** What a call does under a schedule, when the allocator stands at request `start`. */
  ghost function OutcomeUnder(u: Uapi, schedule: nat -> Answer, start: nat, req: Option<Request>, call: Call)
    : Result<bytes>
  {
    var q := RequestsOf(u, schedule, req, call, start);
    Outcome(u, req, call, q.early, q.late)
  }

  // ---- sending ---------------------------------------------------------------

  /** One write carries one response; a short write is EIO. */
  method WriteFrame(fd: SourceFd, frame: bytes) returns (ret: Result<()>)
    modifies fd
    ensures fd.writes == old(fd.writes) + [frame]
    ensures ret == Returned(Ok(frame), fd.results(|old(fd.writes)|))
    ensures var n := fd.results(|old(fd.writes)|);
            && (n < 0 ==> ret == Err(Os(-n)))
            && (0 <= n && n != |frame| ==> ret == Err(EIO))
            && (n == |frame| ==> ret == Ok(()))
  {
    var n := fd.Write(frame);
    if n < 0 {
      return Err(Os(-n));
    } else if n == |frame| {
      return Ok(());
    } else {
      return Err(EIO);
    }
  }

  /** The gate of a payload helper: a request of its own op. */
  function RequireResponseReq(req: Option<Request>, expected: u16): (r: Result<Request>)
    ensures r.Ok? ==> req == Some(r.value) && r.value.opCode == expected
    ensures r.Err? ==> r.errno == EINVAL && (req.None? || req.value.opCode != expected)
  {
    if req.None? then Err(EINVAL)
    else if req.value.opCode != expected then Err(EINVAL)
    else Ok(req.value)
  }

  /** What the writer holds behind the placeholder is what the frame carries. */
  lemma PatchedIsFrame(u: Uapi, req: Request, p: Payload, log: bytes)
    requires log == PLACEHOLDER + EncPayload(p) && |log| <= U32_MAX
    requires req.opCode == OpOf(u, ShapeOf(p))
    ensures Fits(u, req.opCode, Success(p))
    ensures Header(|log|, req.requestId, req.opCode + RESPONSE_BIT, u.ok) + log[STATUS_FRAME_LEN..]
         == Frame(u, req.requestId, req.opCode, Success(p))
  {
    hide EncPayload, Header;
    assert req.opCode in u.PayloadOps();
    assert log[STATUS_FRAME_LEN..] == EncPayload(p);
  }

  method FinishAndSend(fd: SourceFd, u: Uapi, req: Request, w: FrameWriter, ghost p: Payload)
    returns (ret: Result<()>, ghost out: Result<bytes>)
    requires w.Valid() && w.log == PLACEHOLDER + EncPayload(p)
    requires req.opCode == OpOf(u, ShapeOf(p))
    modifies fd
    ensures out == if w.oom then Err(ENOMEM)
                   else if FrameLen(Success(p)) > U32_MAX then Err(EOVERFLOW)
                   else Ok(Frame(u, req.requestId, req.opCode, Success(p)))
    ensures fd.writes == old(fd.writes) + Sent(out)
    ensures ret == Returned(out, fd.results(|old(fd.writes)|))
  {
    hide EncPayload, Header, Frame, Fits;
    assert req.opCode in u.PayloadOps();
    var built := FinishResponse(u, req, w);
    if |w.log| <= U32_MAX {
      PatchedIsFrame(u, req, p, w.log);
    }
    out := built;
    if built.Err? {
      return Err(built.errno), out;
    }
    ret := WriteFrame(fd, built.value);
  }

  // ---- what the writer holds when the encoders are done ------------------------

  lemma LookupLog(es: View<CAbi.PathEntry>, ms: View<CAbi.KeyMetadata>)
    ensures PLACEHOLDER + EncBlock(EncPathEntry, WirePaths(es)) + EncBlock(EncMetadata, WireMetadatas(ms))
         == PLACEHOLDER + EncPayload(PayloadOf(LookupCall(es, ms)))
  {
    hide EncBlock, WirePaths, WireMetadatas;
  }

  lemma EnumChildrenLog(cs: View<ChildEntry>, ms: View<CAbi.KeyMetadata>)
    ensures PLACEHOLDER + EncBlock(EncChild, Map(WireChild, Elems(cs))) + EncBlock(EncMetadata, WireMetadatas(ms))
         == PLACEHOLDER + EncPayload(PayloadOf(EnumChildrenCall(cs, ms)))
  {
    hide EncBlock, Map, WireMetadatas;
  }

  lemma QueryValuesLog(vs: View<ValueEntry>, bs: View<BlanketEntry>)
    ensures PLACEHOLDER + EncBlock(EncValue, Map(WireValue, Elems(vs)))
              + EncBlock(EncBlanket, Map(WireBlanket, Elems(bs)))
         == PLACEHOLDER + EncPayload(PayloadOf(QueryValuesCall(vs, bs)))
  {
    hide EncBlock, Map;
  }

  lemma {:induction false} GuidBytes(guids: seq<Guid>)
    ensures EncMany(EncGuid, guids) == Flatten(guids)
  {
    if guids != [] {
      GuidBytes(guids[1..]);
    }
  }

  /** The caller's bytes, in the caller's order, behind the count. */
  lemma DeleteLayerBytes(usizeMax: nat, orphans: GuidArray)
    requires OrphanVerdict(usizeMax, orphans).Ok?
    ensures EncPayload(PayloadOf(DeleteLayerCall(orphans)))
         == U32(GuidCount(orphans)) + OrphanVerdict(usizeMax, orphans).value
  {
    hide U32, EncMany;
    GuidBytes(OrphanGuids(orphans));
  }

  // ---- how the allocator treated the call --------------------------------------

  lemma GateRequests(u: Uapi, schedule: nat -> Answer, req: Option<Request>, call: Call, start: nat)
    requires !Gated(u, req, call)
    ensures RequestsOf(u, schedule, req, call, start) == Requests(false, false, start, start)
  {
  }

  /** A call that does not pass validation. */
  lemma StopRequests(u: Uapi, schedule: nat -> Answer, req: Option<Request>, call: Call, start: nat, mid: nat)
    requires Gated(u, req, call) && mid == ValidationEnd(u, schedule, call, start)
    requires Refused(schedule, start) < Refused(schedule, mid) || Validated(u, call).Err?
    ensures RequestsOf(u, schedule, req, call, start)
         == Requests(Refused(schedule, start) < Refused(schedule, mid), false, mid, mid)
  {
    hide Refused, Validated, ValidationEnd;
    ValidationBound(u, schedule, call, start);
    RefusedIff(schedule, start, mid);
  }

  /** A call that got as far as the writer. */
  lemma WriterRequests(u: Uapi, req: Option<Request>, call: Call, w: FrameWriter, start: nat)
    requires w.Valid() && Gated(u, req, call) && Validated(u, call).Ok?
    requires w.start == ValidationEnd(u, w.heap.schedule, call, start)
    requires Refused(w.heap.schedule, start) == Refused(w.heap.schedule, w.start)
    requires |w.appends| == AppendsMade(call)
    ensures RequestsOf(u, w.heap.schedule, req, call, start) == Requests(false, w.oom, w.start, w.heap.asked)
  {
    hide Refused, Validated, ValidationEnd, AppendsMade, FrameWriter.History, AppendEnd;
    ValidationBound(u, w.heap.schedule, call, start);
    RefusedIff(w.heap.schedule, start, w.start);
    w.OomMeansRefused();
    AppendEndIs(w.heap.schedule, w.start, |w.appends|, w.heap.asked);
  }

  // ---- the six helpers -------------------------------------------------------

  /**
   * The promise of every helper: the arguments, the schedule and the answers of write(2)
   * decide the requests made, the frame written and the value returned.
   */
  twostate predicate Answers(fd: SourceFd, heap: Allocator, u: Uapi, req: Option<Request>, call: Call,
                             new ret: Result<()>)
    reads fd, heap
  {
    var out := OutcomeUnder(u, heap.schedule, old(heap.asked), req, call);
    && heap.asked == RequestsOf(u, heap.schedule, req, call, old(heap.asked)).end
    && fd.writes == old(fd.writes) + Sent(out)
    && ret == Returned(out, fd.results(|old(fd.writes)|))
  }

  method RespondStatus(fd: SourceFd, heap: Allocator, u: Uapi, req: Option<Request>, status: u32)
    returns (ret: Result<()>)
    modifies fd
    ensures Answers(fd, heap, u, req, StatusCall(status), ret)
  {
    hide Header;
    if req.None? {
      return Err(EINVAL);
    }
    var code := ResponseOpCode(u, req.value.opCode);
    if code.Err? {
      return Err(EINVAL);
    }
    if ValidateStatusResponse(u, req.value, status).Err? {
      return Err(EINVAL);
    }
    var frame := BuildStatusFrame(req.value.requestId, code.value, status);
    ret := WriteFrame(fd, frame[..]);
  }

  method RespondLookup(fd: SourceFd, heap: Allocator, u: Uapi, req: Option<Request>,
                       entries: View<CAbi.PathEntry>, metadata: View<CAbi.KeyMetadata>)
    returns (ret: Result<()>)
    modifies fd, heap
    ensures Answers(fd, heap, u, req, LookupCall(entries, metadata), ret)
  {
    ghost var call := LookupCall(entries, metadata);
    hide RequestsOf, Refused, PathsTried, MetadatasTried, LookupEnd, FrameWriter.History, EncBlock,
         EncPayload, PayloadOf, Frame, FrameLen, Fits, LookupAcceptable, PathsOk, MetadatasOk, Map;
    var gate := RequireResponseReq(req, u.lookup);
    if gate.Err? {
      GateRequests(u, heap.schedule, req, call, heap.asked);
      return Err(gate.errno);
    }
    var valid := ValidateLookupMetadata(heap, entries, metadata);
    if valid.Err? {
      StopRequests(u, heap.schedule, req, call, old(heap.asked), heap.asked);
      return Err(valid.errno);
    }
    var w := NewWriter(heap);
    var encoded := EncodePathEntryBlock(w, entries);
    if encoded.Ok? {
      encoded := EncodeMetadataBlock(w, metadata);
    }
    WriterRequests(u, req, call, w, old(heap.asked));
    if encoded.Err? {
      return Err(encoded.errno);
    }
    LookupLog(entries, metadata);
    ghost var p := PayloadOf(call);
    ghost var out;
    ret, out := FinishAndSend(fd, u, gate.value, w, p);
  }

  method RespondEnumChildren(fd: SourceFd, heap: Allocator, u: Uapi, req: Option<Request>,
                             children: View<ChildEntry>, metadata: View<CAbi.KeyMetadata>)
    returns (ret: Result<()>)
    modifies fd, heap
    ensures Answers(fd, heap, u, req, EnumChildrenCall(children, metadata), ret)
  {
    ghost var call := EnumChildrenCall(children, metadata);
    hide RequestsOf, Refused, TriedMany, MetadatasTried, ChildrenEnd, FrameWriter.History, EncBlock,
         EncPayload, PayloadOf, Frame, FrameLen, Fits, Covers, LegalEntries, ChildOk, MetadatasOk, Map;
    var gate := RequireResponseReq(req, u.enumChildren);
    if gate.Err? {
      GateRequests(u, heap.schedule, req, call, heap.asked);
      return Err(gate.errno);
    }
    var valid := ValidateEnumChildrenMetadata(heap, children, metadata);
    if valid.Err? {
      StopRequests(u, heap.schedule, req, call, old(heap.asked), heap.asked);
      return Err(valid.errno);
    }
    var w := NewWriter(heap);
    var encoded := EncodeChildren(w, children);
    if encoded.Ok? {
      encoded := EncodeMetadataBlock(w, metadata);
    }
    WriterRequests(u, req, call, w, old(heap.asked));
    if encoded.Err? {
      return Err(encoded.errno);
    }
    EnumChildrenLog(children, metadata);
    ghost var p := PayloadOf(call);
    ghost var out;
    ret, out := FinishAndSend(fd, u, gate.value, w, p);
  }

  method RespondReadKey(fd: SourceFd, heap: Allocator, u: Uapi, req: Option<Request>,
                        name: View<byte>, parentGuid: Option<Guid>, sd: View<byte>,
                        volatileKey: byte, symlink: byte, lastWriteTime: u64)
    returns (ret: Result<()>)
    modifies fd, heap
    ensures Answers(fd, heap, u, req, ReadKeyCall(name, parentGuid, sd, volatileKey, symlink, lastWriteTime), ret)
  {
    ghost var call := ReadKeyCall(name, parentGuid, sd, volatileKey, symlink, lastWriteTime);
    hide RequestsOf, Refused, ReadKeyTried, FrameWriter.History, EncReadKey, Frame, FrameLen,
         Fits;
    var gate := RequireResponseReq(req, u.readKey);
    if gate.Err? {
      GateRequests(u, heap.schedule, req, call, heap.asked);
      return Err(gate.errno);
    }
    if parentGuid.None? {
      StopRequests(u, heap.schedule, req, call, old(heap.asked), heap.asked);
      return Err(EINVAL);
    }
    var w := NewWriter(heap);
    var encoded := EncodeReadKey(w, name, parentGuid.value, sd, volatileKey, symlink, lastWriteTime);
    WriterRequests(u, req, call, w, old(heap.asked));
    if encoded.Err? {
      return Err(encoded.errno);
    }
    ghost var p := PayloadOf(call);
    ghost var out;
    ret, out := FinishAndSend(fd, u, gate.value, w, p);
  }

  method RespondDeleteLayer(fd: SourceFd, heap: Allocator, u: Uapi, req: Option<Request>,
                            orphans: GuidArray)
    returns (ret: Result<()>)
    modifies fd, heap
    ensures Answers(fd, heap, u, req, DeleteLayerCall(orphans), ret)
  {
    ghost var call := DeleteLayerCall(orphans);
    hide RequestsOf, Refused, OrphansEnd, FrameWriter.History, U32, EncPayload, PayloadOf, Frame, FrameLen,
         Fits, OrphanVerdict;
    var gate := RequireResponseReq(req, u.deleteLayer);
    if gate.Err? {
      GateRequests(u, heap.schedule, req, call, heap.asked);
      return Err(gate.errno);
    }
    var orphaned := OrphanedGuidBytes(heap, u.usizeMax, orphans);
    if orphaned.Err? {
      StopRequests(u, heap.schedule, req, call, old(heap.asked), heap.asked);
      return Err(orphaned.errno);
    }
    var w := NewWriter(heap);
    w.PutU32(GuidCount(orphans));
    w.Raw(orphaned.value);
    WriterRequests(u, req, call, w, old(heap.asked));
    DeleteLayerBytes(u.usizeMax, orphans);
    ghost var p := PayloadOf(call);
    ghost var out;
    ret, out := FinishAndSend(fd, u, gate.value, w, p);
  }

  method RespondQueryValues(fd: SourceFd, heap: Allocator, u: Uapi, req: Option<Request>,
                            values: View<ValueEntry>, blankets: View<BlanketEntry>)
    returns (ret: Result<()>)
    modifies fd, heap
    ensures Answers(fd, heap, u, req, QueryValuesCall(values, blankets), ret)
  {
    ghost var call := QueryValuesCall(values, blankets);
    hide RequestsOf, Refused, TriedMany, FrameWriter.History, EncBlock, EncPayload, PayloadOf,
         Frame, FrameLen, Fits, ValueOk, BlanketOk, Map;
    var gate := RequireResponseReq(req, u.queryValues);
    if gate.Err? {
      GateRequests(u, heap.schedule, req, call, heap.asked);
      return Err(gate.errno);
    }
    if RequireView(values).Err? || RequireView(blankets).Err? {
      StopRequests(u, heap.schedule, req, call, old(heap.asked), heap.asked);
      return Err(EINVAL);
    }
    var w := NewWriter(heap);
    var encoded := EncodeValues(w, values);
    if encoded.Ok? {
      encoded := EncodeBlankets(w, blankets);
    }
    WriterRequests(u, req, call, w, old(heap.asked));
    if encoded.Err? {
      return Err(encoded.errno);
    }
    QueryValuesLog(values, blankets);
    ghost var p := PayloadOf(call);
    ghost var out;
    ret, out := FinishAndSend(fd, u, gate.value, w, p);
  }
}
