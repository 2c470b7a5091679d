/** What holds of every frame any helper hands to write(2), for every allocation history. */
module Outcomes {
  import opened Base
  import opened LittleEndian
  import opened CAbi
  import opened Heap
  import opened Wire
  import opened GuidOrder
  import opened Validation
  import opened Frames
  import opened Writer
  import opened Respond

  /** A frame is sent only for a response that passed every check, and carries it whole. */
  lemma SentFrame(u: Uapi, req: Option<Request>, call: Call, early: bool, late: bool)
    requires Outcome(u, req, call, early, late).Ok?
    ensures req.Some? && req.value.opCode in u.responders && Fits(u, req.value.opCode, ResponseOf(call))
    ensures Outcome(u, req, call, early, late).value
         == Frame(u, req.value.requestId, req.value.opCode, ResponseOf(call))
    ensures call.StatusCall? ==> call.status in u.statuses
    ensures !call.StatusCall? ==> !early && !late && Validated(u, call).Ok? && Encodable(call)
  {
    hide Frame, EncPayload, Validated, Encodable;
    if !call.StatusCall? {
      assert req.value.opCode in u.PayloadOps();
    }
  }

  /** Every frame sent passes the kernel's check against the request it answers. */
  lemma KernelAcceptsSent(u: Uapi, req: Option<Request>, call: Call, early: bool, late: bool)
    ensures var out := Outcome(u, req, call, early, late);
            out.Ok? ==> req.Some? && KernelAccepts(u, req.value, out.value)
  {
    hide Frame, EncPayload, Outcome;
    if Outcome(u, req, call, early, late).Ok? {
      SentFrame(u, req, call, early, late);
      FrameFields(u, req.value.requestId, req.value.opCode, ResponseOf(call));
    }
  }

  /** The one decoder recovers the request id, the op and the whole response from any sent frame. */
  lemma SentDecodes(u: Uapi, req: Option<Request>, call: Call, early: bool, late: bool)
    requires Outcome(u, req, call, early, late).Ok?
    ensures req.Some?
    ensures DecodeFrame(u, Outcome(u, req, call, early, late).value)
         == Some(Decoded(req.value.requestId, req.value.opCode, ResponseOf(call)))
  {
    hide Frame, EncPayload, Outcome, DecodeFrame;
    SentFrame(u, req, call, early, late);
    DecodeBack(u, req.value.requestId, req.value.opCode, ResponseOf(call));
  }

  /** Two sent frames are equal only when they answer the same request with the same response. */
  lemma SentUnambiguous(u: Uapi, req: Option<Request>, call: Call, early: bool, late: bool,
                        req': Option<Request>, call': Call, early': bool, late': bool)
    requires Outcome(u, req, call, early, late).Ok?
    requires Outcome(u, req, call, early, late) == Outcome(u, req', call', early', late')
    ensures req.Some? && req'.Some? && req.value.requestId == req'.value.requestId
    ensures req.value.opCode == req'.value.opCode
    ensures ResponseOf(call) == ResponseOf(call')
  {
    hide Frame, EncPayload, Outcome, DecodeFrame, ResponseOf;
    SentDecodes(u, req, call, early, late);
    SentDecodes(u, req', call', early', late');
  }

  // ---- allocation failures ---------------------------------------------------

  /**
   * A call that passes every check fails for want of memory exactly when the schedule
   * refuses one of its requests: those made while validating, then one per append.
   */
  lemma EnomemIffRefused(u: Uapi, schedule: nat -> Answer, start: nat, req: Option<Request>, call: Call)
    requires Complete(u, req, call)
    ensures OutcomeUnder(u, schedule, start, req, call) == Err(ENOMEM) <==>
              !Grants(schedule, start, ValidationEnd(u, schedule, call, start) + Appends(call))
  {
    hide Frame, EncPayload, Encodable, Validated, FrameLen, Appends, AppendsMade, ValidationEnd;
    var mid := ValidationEnd(u, schedule, call, start);
    ValidationBound(u, schedule, call, start);
    AppendsMadeAll(call);
    assert Grants(schedule, start, mid + Appends(call))
      <==> Grants(schedule, start, mid) && Grants(schedule, mid, mid + Appends(call));
  }

  /** The most requests a complete call can make. */
  ghost function Budget(call: Call): nat { ValidationAsks(call) + Appends(call) }

  /** A schedule that grants the call's budget does not disturb it: the outcome is that of the arguments alone. */
  lemma GrantedCallUndisturbed(u: Uapi, schedule: nat -> Answer, start: nat, req: Option<Request>, call: Call)
    requires Grants(schedule, start, start + Budget(call))
    ensures OutcomeUnder(u, schedule, start, req, call) == Outcome(u, req, call, false, false)
  {
    hide Frame, EncPayload, Encodable, Validated, FrameLen, Appends, AppendsMade, ValidationEnd, ValidationAsks;
    ValidationBound(u, schedule, call, start);
    if Complete(u, req, call) {
      AppendsMadeAll(call);
    }
  }

  /** A helper reports EBADMSG for nothing: that errno is the parser's. */
  lemma NeverBadMessage(u: Uapi, req: Option<Request>, call: Call, early: bool, late: bool, n: int)
    ensures Returned(Outcome(u, req, call, early, late), n) != Err(EBADMSG)
  {
    hide Frame, EncPayload, Encodable, FrameLen, LookupAcceptable, ChildrenAcceptable;
  }

  /**
   * A refused allocation can only turn the outcome into ENOMEM: it never yields another
   * frame, and never an error the call would not have had.
   */
  lemma RefusalsOnlyGiveEnomem(u: Uapi, req: Option<Request>, call: Call, early: bool, late: bool)
    ensures var out := Outcome(u, req, call, early, late);
            var undisturbed := Outcome(u, req, call, false, false);
            && (out == undisturbed || out == Err(ENOMEM))
            && undisturbed != Err(ENOMEM)
            && (!call.StatusCall? && (early || late) ==> out.Err?)
  {
    hide Frame, EncPayload, Encodable, Fits;
  }

  /**
   * Precedence once validation is passed: EINVAL outranks a refusal while encoding,
   * which outranks an oversized frame; EINVAL does not depend on the refusals.
   */
  lemma EncodePrecedence(u: Uapi, req: Request, call: Call, late: bool)
    requires !call.StatusCall? && req.opCode == OpOf(u, CallShape(call)) && Validated(u, call).Ok?
    ensures var out := Outcome(u, Some(req), call, false, late);
            && (out == Err(EINVAL) <==> !Encodable(call))
            && (out == Err(ENOMEM) <==> Encodable(call) && late)
            && (out == Err(EOVERFLOW) <==> Encodable(call) && !late && FrameLen(ResponseOf(call)) > U32_MAX)
            && (out.Ok? <==> Encodable(call) && !late && FrameLen(ResponseOf(call)) <= U32_MAX)
  {
    hide Frame, EncPayload, Encodable, Validated, FrameLen;
  }

  // ---- encoder checks after validation ---------------------------------------

  /**
   * After validation no array or target check inside the encoders can fail: only a null
   * field or a bad boolean is left to reject.
   */
  lemma EncoderChecksRedundant(u: Uapi, call: Call)
    requires call.LookupCall? || call.EnumChildrenCall?
    requires Validated(u, call).Ok?
    ensures call.LookupCall? ==>
              (!Encodable(call) <==>
                || (exists e :: e in Elems(call.entries) && !Readable(e.layer))
                || (exists m :: m in Elems(call.metadata) && !MetadataOk(m)))
    ensures call.EnumChildrenCall? ==>
              (!Encodable(call) <==>
                || (exists c :: c in Elems(call.children) && !Readable(c.name))
                || (exists c, e :: c in Elems(call.children) && e in Elems(c.entries) && !Readable(e.layer))
                || (exists m :: m in Elems(call.childMetadata) && !MetadataOk(m)))
  {
  }

  /** A path target on the wire: tag 0 with a nonzero GUID, or tag 1 with a zero one. */
  predicate SoundTarget(e: Wire.PathEntry) {
    (e.targetType == 0 && e.targetGuid != NIL) || (e.targetType == 1 && e.targetGuid == NIL)
  }

  /** No frame carries a GUID-type path target of all zeros, a hidden one with a GUID, or any other tag. */
  lemma NilTargetNeverSent(u: Uapi, req: Option<Request>, call: Call, early: bool, late: bool)
    requires Outcome(u, req, call, early, late).Ok?
    ensures var d := DecodeFrame(u, Outcome(u, req, call, early, late).value);
            && d.Some?
            && (d.value.response.Success? && d.value.response.payload.Lookup? ==>
                  forall e :: e in d.value.response.payload.entries ==> SoundTarget(e))
            && (d.value.response.Success? && d.value.response.payload.EnumChildren? ==>
                  forall c, e :: c in d.value.response.payload.children && e in c.entries ==> SoundTarget(e))
  {
    hide Frame, EncPayload, Outcome, DecodeFrame;
    SentFrame(u, req, call, early, late);
    SentDecodes(u, req, call, early, late);
    if call.LookupCall? {
      NilTargetsExcluded(call.entries, call.metadata);
      assert forall e :: e in Elems(call.entries) ==> SoundTarget(WirePath(e));
    } else if call.EnumChildrenCall? {
      NilChildTargetsExcluded(call.children, call.childMetadata);
      assert forall c, e :: c in Elems(call.children) && e in Elems(c.entries) ==> SoundTarget(WirePath(e));
      assert forall c :: c in Elems(call.children) ==> forall e :: e in WireChild(c).entries ==> SoundTarget(e);
    }
  }

  // ---- sizes -----------------------------------------------------------------

  function PathSize(e: CAbi.PathEntry): nat { 29 + Count(e.layer) }
  function MetadataSize(m: CAbi.KeyMetadata): nat { 30 + Count(m.sd) }
  function ChildSize(c: ChildEntry): nat { 8 + Count(c.name) + Sum(PathSize, Elems(c.entries)) }
  function ValueSize(v: ValueEntry): nat { 24 + Count(v.valueName) + Count(v.layerName) + Count(v.data) }
  function BlanketSize(b: BlanketEntry): nat { 12 + Count(b.layerName) }

  /** The length of the frame, from the counts the caller passed. */
  function FrameSize(call: Call): nat {
    match call
    case StatusCall(_) => 18
    case LookupCall(es, ms) => 26 + Sum(PathSize, Elems(es)) + Sum(MetadataSize, Elems(ms))
    case EnumChildrenCall(cs, ms) => 26 + Sum(ChildSize, Elems(cs)) + Sum(MetadataSize, Elems(ms))
    case ReadKeyCall(n, _, sd, _, _, _) => 52 + Count(n) + Count(sd)
    case DeleteLayerCall(gs) => 22 + 16 * GuidCount(gs)
    case QueryValuesCall(vs, bs) => 26 + Sum(ValueSize, Elems(vs)) + Sum(BlanketSize, Elems(bs))
  }

  lemma PathsSize(entries: View<CAbi.PathEntry>)
    requires PathsOk(entries)
    ensures |EncBlock(EncPathEntry, WirePaths(entries))| == 4 + Sum(PathSize, Elems(entries))
  {
    ManySize(EncPathEntry, WirePath, PathSize, Elems(entries));
  }

  lemma MetadatasSize(metadata: View<CAbi.KeyMetadata>)
    requires MetadatasOk(metadata)
    ensures |EncBlock(EncMetadata, WireMetadatas(metadata))| == 4 + Sum(MetadataSize, Elems(metadata))
  {
    ManySize(EncMetadata, WireMetadata, MetadataSize, Elems(metadata));
  }

  lemma ChildrenSize(children: View<ChildEntry>)
    requires forall c :: c in Elems(children) ==> ChildOk(c)
    ensures |EncBlock(EncChild, Map(WireChild, Elems(children)))| == 4 + Sum(ChildSize, Elems(children))
  {
    forall c | c in Elems(children) ensures |EncChild(WireChild(c))| == ChildSize(c) {
      PathsSize(c.entries);
    }
    ManySize(EncChild, WireChild, ChildSize, Elems(children));
  }

  lemma ValuesSize(values: View<ValueEntry>)
    requires forall v :: v in Elems(values) ==> ValueOk(v)
    ensures |EncBlock(EncValue, Map(WireValue, Elems(values)))| == 4 + Sum(ValueSize, Elems(values))
  {
    ManySize(EncValue, WireValue, ValueSize, Elems(values));
  }

  lemma BlanketsSize(blankets: View<BlanketEntry>)
    requires forall b :: b in Elems(blankets) ==> BlanketOk(b)
    ensures |EncBlock(EncBlanket, Map(WireBlanket, Elems(blankets)))| == 4 + Sum(BlanketSize, Elems(blankets))
  {
    ManySize(EncBlanket, WireBlanket, BlanketSize, Elems(blankets));
  }

  lemma SizeLaw(u: Uapi, call: Call)
    requires !call.StatusCall? ==> Validated(u, call).Ok? && Encodable(call)
    ensures FrameLen(ResponseOf(call)) == FrameSize(call)
  {
    hide EncBlock, EncField, Map, PathsOk, MetadatasOk, ChildOk, ValueOk, BlanketOk, Sum, U64, EncMany, Chunks,
         LookupAcceptable, ChildrenAcceptable;
    match call
    case StatusCall(_) =>
    case LookupCall(es, ms) => PathsSize(es); MetadatasSize(ms);
    case EnumChildrenCall(cs, ms) => ChildrenSize(cs); MetadatasSize(ms);
    case ReadKeyCall(n, _, sd, _, _, _) => FieldSize(Elems(n)); FieldSize(Elems(sd));
    case DeleteLayerCall(gs) => GuidBlockSize(OrphanGuids(gs));
    case QueryValuesCall(vs, bs) => ValuesSize(vs); BlanketsSize(bs);
  }

  lemma FieldSize(f: Field)
    ensures |EncField(f)| == 4 + |f|
  {
  }

  lemma GuidBlockSize(guids: List<Guid>)
    ensures |EncBlock(EncGuid, guids)| == 4 + 16 * |guids|
  {
    GuidBytes(guids);
    FlattenLength(guids);
  }

  /**
   * The exact size and the overflow boundary: an undisturbed build of a valid response
   * is a frame of `FrameSize(call)` bytes, or EOVERFLOW iff that exceeds 2^32-1.
   */
  lemma OverflowBoundary(u: Uapi, req: Request, call: Call)
    requires !call.StatusCall? && req.opCode == OpOf(u, CallShape(call))
    requires Validated(u, call).Ok? && Encodable(call)
    ensures var out := Outcome(u, Some(req), call, false, false);
            if FrameSize(call) > U32_MAX then out == Err(EOVERFLOW) else out.Ok? && |out.value| == FrameSize(call)
  {
    hide EncPayload, Encodable, Validated, FrameSize;
    SizeLaw(u, call);
    EncodePrecedence(u, req, call, false);
  }

  /** A success with a payload never looks like a status-only frame, and a failure always does. */
  lemma ShapePartition(u: Uapi, req: Option<Request>, call: Call, early: bool, late: bool)
    requires Outcome(u, req, call, early, late).Ok?
    ensures var f := Outcome(u, req, call, early, late).value;
            && |f| >= STATUS_FRAME_LEN && req.Some?
            && (AsU32(f[14..18]) != u.ok ==> |f| == STATUS_FRAME_LEN)
            && (AsU32(f[14..18]) == u.ok && |f| == STATUS_FRAME_LEN ==>
                  req.value.opCode in u.statusOnly && u.statusOnly[req.value.opCode])
            && (AsU32(f[14..18]) == u.ok && req.value.opCode in u.PayloadOps() ==> |f| >= 22)
  {
    hide Frame, EncPayload, Encodable, Validated, AsU32, FrameSize;
    SentFrame(u, req, call, early, late);
    FrameFields(u, req.value.requestId, req.value.opCode, ResponseOf(call));
    if !call.StatusCall? {
      SizeLaw(u, call);
      PayloadFramesLong(call);
    }
  }

  lemma PayloadFramesLong(call: Call)
    requires !call.StatusCall?
    ensures FrameSize(call) >= 22
  {
  }

  // ---- DELETE_LAYER ----------------------------------------------------------

  /** Orphan arrays the helper can answer with: unique nonzero GUIDs, and sizes that fit. */
  ghost predicate SendableOrphans(u: Uapi, orphans: GuidArray) {
    && 16 * GuidCount(orphans) <= u.usizeMax
    && 22 + 16 * GuidCount(orphans) <= U32_MAX
    && (GuidCount(orphans) != 0 ==>
          orphans.Guids? && NIL !in Chunks(orphans.raw) && Distinct(Chunks(orphans.raw)))
  }

  /**
   * An undisturbed DELETE_LAYER build succeeds iff the array is sendable, and the frame
   * carries the caller's own bytes in the caller's order.
   */
  lemma DeleteLayerExact(u: Uapi, req: Request, orphans: GuidArray)
    requires req.opCode == u.deleteLayer
    ensures var out := Outcome(u, Some(req), DeleteLayerCall(orphans), false, false);
            && (out.Ok? <==> SendableOrphans(u, orphans))
            && (out.Ok? ==> out.value[18..] == U32(GuidCount(orphans)) + (if orphans.Guids? then orphans.raw else []))
  {
    hide Frame, U32, Chunks, EncPayload, PayloadOf, Distinct, FrameLen;
    var call := DeleteLayerCall(orphans);
    if Validated(u, call).Ok? {
      SizeLaw(u, call);
      EncodePrecedence(u, req, call, false);
      DeleteLayerBytes(u.usizeMax, orphans);
    }
    if Outcome(u, Some(req), call, false, false).Ok? {
      SentFrame(u, Some(req), call, false, false);
      FrameFields(u, req.requestId, req.opCode, ResponseOf(call));
    }
  }
}
