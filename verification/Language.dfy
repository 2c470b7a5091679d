/**
 * The exact language of response frames: which byte strings can reach the fd in answer
 * to a request, stated on the decoded response alone.
 */
module Language {
  import opened Base
  import opened CAbi
  import opened Heap
  import opened Wire
  import opened GuidOrder
  import opened Validation
  import opened Frames
  import opened Writer
  import opened Respond
  import opened Outcomes

  // ---- validity of a response, as its reader sees it ---------------------------

  predicate WireLegal(e: Wire.PathEntry) {
    e.targetType == TARGET_GUID || (e.targetType == TARGET_HIDDEN && e.targetGuid == NIL)
  }

  predicate WireBools(m: Wire.KeyMetadata) { IsBool(m.volatileKey) && IsBool(m.symlink) }

  function WireTargets(es: seq<Wire.PathEntry>): set<Guid> {
    set e | e in es && e.targetType == TARGET_GUID :: e.targetGuid
  }

  function WireChildTargets(cs: seq<Child>): set<Guid> {
    set c, e | c in cs && e in c.entries && e.targetType == TARGET_GUID :: e.targetGuid
  }

  function WireGuids(ms: seq<Wire.KeyMetadata>): seq<Guid> {
    Map((m: Wire.KeyMetadata) => m.guid, ms)
  }

  ghost predicate ValidPayload(u: Uapi, p: Payload) {
    match p
    case Lookup(es, ms) =>
      && (forall e :: e in es ==> WireLegal(e))
      && (forall m :: m in ms ==> WireBools(m))
      && Covers(WireTargets(es), WireGuids(ms))
    case EnumChildren(cs, ms) =>
      && (forall c, e :: c in cs && e in c.entries ==> WireLegal(e))
      && (forall m :: m in ms ==> WireBools(m))
      && Covers(WireChildTargets(cs), WireGuids(ms))
    case ReadKey(_, _, _, v, s, _) => IsBool(v) && IsBool(s)
    case DeleteLayer(gs) => NIL !in gs && Distinct(gs) && 16 * |gs| <= u.usizeMax
    case QueryValues(_, _) => true
  }

  ghost predicate ValidResponse(u: Uapi, op: u16, r: Response) {
    match r
    case Status(s) => s in u.statuses && (s == u.ok ==> op in u.statusOnly && u.statusOnly[op])
    case Success(p) => ValidPayload(u, p)
  }

  // ---- null pointers -----------------------------------------------------------

  /** Every pointer in the arguments may be read for its count. */
  predicate PointersOk(call: Call)
    requires !call.StatusCall?
  {
    match call
    case LookupCall(es, ms) => PathPointers(es) && MetadataPointers(ms)
    case EnumChildrenCall(cs, ms) =>
      && Readable(cs) && (forall c :: c in Elems(cs) ==> Readable(c.name) && PathPointers(c.entries))
      && MetadataPointers(ms)
    case ReadKeyCall(n, g, sd, _, _, _) => Readable(n) && g.Some? && Readable(sd)
    case DeleteLayerCall(gs) => gs.NullGuids? ==> gs.nullCount == 0
    case QueryValuesCall(vs, bs) =>
      && Readable(vs) && (forall v :: v in Elems(vs) ==> ValueOk(v))
      && Readable(bs) && (forall b :: b in Elems(bs) ==> BlanketOk(b))
  }

  predicate PathPointers(es: View<CAbi.PathEntry>) {
    Readable(es) && forall e :: e in Elems(es) ==> Readable(e.layer)
  }

  predicate MetadataPointers(ms: View<CAbi.KeyMetadata>) {
    Readable(ms) && forall m :: m in Elems(ms) ==> Readable(m.sd)
  }

  lemma MapMembers<A, B>(f: A -> B, xs: seq<A>)
    ensures forall x :: x in xs ==> f(x) in Map(f, xs)
    ensures forall y :: y in Map(f, xs) ==> exists x :: x in xs && y == f(x)
  {
    forall x | x in xs ensures f(x) in Map(f, xs) {
      var i :| 0 <= i < |xs| && xs[i] == x;
      assert Map(f, xs)[i] == f(x);
    }
    forall y | y in Map(f, xs) ensures exists x :: x in xs && y == f(x) {
      var i :| 0 <= i < |xs| && Map(f, xs)[i] == y;
      assert xs[i] in xs;
    }
  }

  lemma PathsOnWire(es: View<CAbi.PathEntry>)
    ensures (forall e :: e in Elems(es) ==> LegalTarget(e)) <==> (forall e :: e in WirePaths(es) ==> WireLegal(e))
    ensures TargetSet(Elems(es)) == WireTargets(WirePaths(es))
  {
    MapMembers(WirePath, Elems(es));
    forall e | e in Elems(es) ensures WirePath(e) in WirePaths(es) && (LegalTarget(e) <==> WireLegal(WirePath(e))) {
    }
    forall g ensures g in TargetSet(Elems(es)) <==> g in WireTargets(WirePaths(es)) {
      if g in TargetSet(Elems(es)) {
        var e :| e in Elems(es) && IsGuidTarget(e) && e.targetGuid == g;
        assert WirePath(e) in WirePaths(es);
      }
    }
  }

  lemma MetadatasOnWire(ms: View<CAbi.KeyMetadata>)
    ensures (forall m :: m in Elems(ms) ==> IsBool(m.volatileKey) && IsBool(m.symlink))
       <==> (forall m :: m in WireMetadatas(ms) ==> WireBools(m))
    ensures MetadataGuids(Elems(ms)) == WireGuids(WireMetadatas(ms))
  {
    MapMembers(WireMetadata, Elems(ms));
    forall m | m in Elems(ms) ensures WireMetadata(m) in WireMetadatas(ms) {
    }
  }

  lemma ChildrenOnWire(cs: View<ChildEntry>)
    ensures (forall c, e :: c in Elems(cs) && e in Elems(c.entries) ==> LegalTarget(e))
       <==> (forall c, e :: c in Map(WireChild, Elems(cs)) && e in c.entries ==> WireLegal(e))
    ensures ChildTargetSet(Elems(cs)) == WireChildTargets(Map(WireChild, Elems(cs)))
  {
    var ws := Map(WireChild, Elems(cs));
    MapMembers(WireChild, Elems(cs));
    forall c | c in Elems(cs)
      ensures WireChild(c) in ws
      ensures (forall e :: e in Elems(c.entries) ==> LegalTarget(e))
         <==> (forall e :: e in WireChild(c).entries ==> WireLegal(e))
      ensures TargetSet(Elems(c.entries)) == WireTargets(WireChild(c).entries)
    {
      PathsOnWire(c.entries);
    }
    forall g ensures g in ChildTargetSet(Elems(cs)) <==> g in WireChildTargets(ws) {
      if g in ChildTargetSet(Elems(cs)) {
        var c, e :| c in Elems(cs) && e in Elems(c.entries) && IsGuidTarget(e) && e.targetGuid == g;
        assert g in TargetSet(Elems(c.entries));
        assert WireChild(c) in ws;
      }
      if g in WireChildTargets(ws) {
        var w, e :| w in ws && e in w.entries && e.targetType == TARGET_GUID && e.targetGuid == g;
        var c :| c in Elems(cs) && w == WireChild(c);
        assert g in WireTargets(w.entries) && g in TargetSet(Elems(c.entries));
      }
    }
  }

  lemma LookupValidIff(u: Uapi, es: View<CAbi.PathEntry>, ms: View<CAbi.KeyMetadata>)
    ensures LookupAcceptable(es, ms) && PathsOk(es) && MetadatasOk(ms) <==>
              PathPointers(es) && MetadataPointers(ms) && ValidPayload(u, PayloadOf(LookupCall(es, ms)))
  {
    hide Covers, TargetSet, WireTargets, MetadataGuids, WireGuids, WirePaths, WireMetadatas, LegalTarget;
    PathsOnWire(es);
    MetadatasOnWire(ms);
  }

  lemma EnumChildrenValidIff(u: Uapi, cs: View<ChildEntry>, ms: View<CAbi.KeyMetadata>)
    ensures Validated(u, EnumChildrenCall(cs, ms)).Ok? && Encodable(EnumChildrenCall(cs, ms)) <==>
              PointersOk(EnumChildrenCall(cs, ms)) && ValidPayload(u, PayloadOf(EnumChildrenCall(cs, ms)))
  {
    hide Covers, ChildTargetSet, WireChildTargets, MetadataGuids, WireGuids, Map, WireMetadatas, LegalTarget;
    ChildrenOnWire(cs);
    MetadatasOnWire(ms);
  }

  /**
   * Null pointers aside, whether a call is accepted depends only on the response its
   * reader will see.
   */
  lemma AcceptedIffValid(u: Uapi, call: Call)
    requires !call.StatusCall?
    ensures Validated(u, call).Ok? && Encodable(call) <==> PointersOk(call) && ValidPayload(u, PayloadOf(call))
  {
    hide Distinct, Chunks, LookupAcceptable, ChildrenAcceptable, PathsOk, MetadatasOk, ChildOk, ValueOk, BlanketOk, Map;
    match call
    case LookupCall(es, ms) => LookupValidIff(u, es, ms);
    case EnumChildrenCall(cs, ms) => EnumChildrenValidIff(u, cs, ms);
    case ReadKeyCall(_, _, _, _, _, _) =>
    case DeleteLayerCall(gs) => OrphansValidIff(u, gs);
    case QueryValuesCall(_, _) =>
  }

  lemma OrphansValidIff(u: Uapi, gs: GuidArray)
    ensures Validated(u, DeleteLayerCall(gs)).Ok? <==>
              PointersOk(DeleteLayerCall(gs)) && ValidPayload(u, PayloadOf(DeleteLayerCall(gs)))
  {
    if GuidCount(gs) == 0 {
      assert OrphanGuids(gs) == [];
    }
  }

  // ---- a call for every valid response -----------------------------------------

  function CPath(e: Wire.PathEntry): CAbi.PathEntry {
    CAbi.PathEntry(At(e.layer), e.targetType, e.targetGuid, e.sequence)
  }

  function CMetadata(m: Wire.KeyMetadata): CAbi.KeyMetadata {
    CAbi.KeyMetadata(m.guid, At(m.sd), m.volatileKey, m.symlink, m.lastWriteTime)
  }

  function CPaths(es: List<Wire.PathEntry>): View<CAbi.PathEntry> { At(Map(CPath, es)) }
  function CMetadatas(ms: List<Wire.KeyMetadata>): View<CAbi.KeyMetadata> { At(Map(CMetadata, ms)) }
  function CChild(c: Child): ChildEntry { ChildEntry(At(c.name), CPaths(c.entries)) }

  function CValue(v: Value): ValueEntry {
    ValueEntry(At(v.valueName), At(v.layerName), v.valueType, At(v.data), v.sequence)
  }

  function CBlanket(b: Blanket): BlanketEntry { BlanketEntry(At(b.layerName), b.sequence) }

  /** The arguments that describe a payload. */
  function CallFor(p: Payload): (call: Call)
    ensures !call.StatusCall?
  {
    match p
    case Lookup(es, ms) => LookupCall(CPaths(es), CMetadatas(ms))
    case EnumChildren(cs, ms) => EnumChildrenCall(At(Map(CChild, cs)), CMetadatas(ms))
    case ReadKey(n, g, sd, v, s, t) => ReadKeyCall(At(n), Some(g), At(sd), v, s, t)
    case DeleteLayer(gs) => assert |Flatten(gs)| == 16 * |gs| by { FlattenLength(gs); }
      DeleteLayerCall(Guids(Flatten(gs), |gs|))
    case QueryValues(vs, bs) => QueryValuesCall(At(Map(CValue, vs)), At(Map(CBlanket, bs)))
  }

  lemma {:induction false} ChunksFlatten(gs: seq<Guid>)
    ensures |Flatten(gs)| == 16 * |gs| && Chunks(Flatten(gs)) == gs
  {
    FlattenLength(gs);
    if gs != [] {
      var s := Flatten(gs);
      ChunksFlatten(gs[1..]);
      assert s == gs[0] + Flatten(gs[1..]);
      assert s[..16] == gs[0] && s[16..] == Flatten(gs[1..]);
    }
  }

  lemma PathsInverse(es: List<Wire.PathEntry>)
    ensures WirePaths(CPaths(es)) == es && PathPointers(CPaths(es))
  {
  }

  lemma MetadatasInverse(ms: List<Wire.KeyMetadata>)
    ensures WireMetadatas(CMetadatas(ms)) == ms && MetadataPointers(CMetadatas(ms))
  {
  }

  lemma ChildrenInverse(cs: List<Child>)
    ensures Map(WireChild, Map(CChild, cs)) == cs
    ensures forall c :: c in Map(CChild, cs) ==> Readable(c.name) && PathPointers(c.entries)
  {
    hide WirePaths, CPaths, PathPointers;
    var ds := Map(CChild, cs);
    forall i | 0 <= i < |cs| ensures WireChild(ds[i]) == cs[i] && Readable(ds[i].name) && PathPointers(ds[i].entries) {
      PathsInverse(cs[i].entries);
    }
  }

  lemma CallForMeans(p: Payload)
    ensures PayloadOf(CallFor(p)) == p && PointersOk(CallFor(p))
  {
    hide WirePaths, CPaths, PathPointers, WireMetadatas, CMetadatas, MetadataPointers, Chunks, Flatten;
    match p
    case Lookup(es, ms) => PathsInverse(es); MetadatasInverse(ms);
    case EnumChildren(cs, ms) => ChildrenInverse(cs); MetadatasInverse(ms);
    case ReadKey(_, _, _, _, _, _) =>
    case DeleteLayer(gs) => ChunksFlatten(gs);
    case QueryValues(vs, bs) =>
      assert Map(WireValue, Map(CValue, vs)) == vs;
      assert Map(WireBlanket, Map(CBlanket, bs)) == bs;
  }

  // ---- the language --------------------------------------------------------------

  /** Some helper call, under some schedule, sends `f` in answer to `req`. */
  ghost predicate Sendable(u: Uapi, req: Request, f: bytes) {
    exists schedule: nat -> Answer, start, call :: OutcomeUnder(u, schedule, start, Some(req), call) == Ok(f)
  }

  lemma SendableIsValid(u: Uapi, req: Request, f: bytes, schedule: nat -> Answer, start: nat, call: Call)
    requires OutcomeUnder(u, schedule, start, Some(req), call) == Ok(f)
    ensures DecodeFrame(u, f) == Some(Decoded(req.requestId, req.opCode, ResponseOf(call)))
    ensures req.opCode in u.responders && ValidResponse(u, req.opCode, ResponseOf(call))
  {
    hide DecodeFrame, Frame, EncPayload, ValidPayload, Validated, Encodable, PayloadOf, RequestsOf;
    var q := RequestsOf(u, schedule, Some(req), call, start);
    SentFrame(u, Some(req), call, q.early, q.late);
    SentDecodes(u, Some(req), call, q.early, q.late);
    if !call.StatusCall? {
      AcceptedIffValid(u, call);
    }
  }

  /** A schedule that refuses nothing sends whatever the arguments alone would send. */
  lemma UndisturbedIsSendable(u: Uapi, req: Request, f: bytes, call: Call)
    requires Outcome(u, Some(req), call, false, false) == Ok(f)
    ensures Sendable(u, req, f)
  {
    hide Outcome, RequestsOf;
    var generous: nat -> Answer := _ => Grant(0);
    GrantedCallUndisturbed(u, generous, 0, Some(req), call);
    assert OutcomeUnder(u, generous, 0, Some(req), call) == Ok(f);
  }

  lemma ValidIsSendable(u: Uapi, req: Request, f: bytes, r: Response)
    requires DecodeFrame(u, f) == Some(Decoded(req.requestId, req.opCode, r))
    requires req.opCode in u.responders && ValidResponse(u, req.opCode, r)
    ensures Sendable(u, req, f)
  {
    hide DecodeFrame, Frame, EncPayload, ValidPayload, Validated, Encodable, PayloadOf, CallFor, Sendable;
    DecodeOnly(u, f, Decoded(req.requestId, req.opCode, r));
    match r
    case Status(s) =>
      UndisturbedIsSendable(u, req, f, StatusCall(s));
    case Success(p) =>
      var call := CallFor(p);
      CallForMeans(p);
      AcceptedIffValid(u, call);
      UndisturbedIsSendable(u, req, f, call);
  }

  /**
   * The frames that can be sent in answer to a request are exactly the byte strings that
   * decode to a valid response carrying its id and op.
   */
  lemma SentLanguage(u: Uapi, req: Request, f: bytes)
    ensures Sendable(u, req, f) <==>
              var d := DecodeFrame(u, f);
              && d.Some? && d.value.requestId == req.requestId && d.value.opCode == req.opCode
              && req.opCode in u.responders && ValidResponse(u, req.opCode, d.value.response)
  {
    hide DecodeFrame, ValidResponse, OutcomeUnder;
    if Sendable(u, req, f) {
      var schedule: nat -> Answer, start, call :| OutcomeUnder(u, schedule, start, Some(req), call) == Ok(f);
      SendableIsValid(u, req, f, schedule, start, call);
    }
    var d := DecodeFrame(u, f);
    if d.Some? && d.value.requestId == req.requestId && d.value.opCode == req.opCode
       && req.opCode in u.responders && ValidResponse(u, req.opCode, d.value.response) {
      ValidIsSendable(u, req, f, d.value.response);
    }
  }
}
