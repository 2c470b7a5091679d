/**
 * Which answer each helper gives, as a table over the caller's own arguments: literal tags,
 * counts and sizes, without mention of the validators or the encoders.
 */
module Verdicts {
  import opened Base
  import opened CAbi
  import opened GuidOrder
  import opened Validation
  import opened Frames
  import opened Writer
  import opened Respond
  import opened Outcomes

  // ---- good arguments --------------------------------------------------------------

  /** Not a null pointer with a count. */
  predicate Usable<T>(v: View<T>) {
    v.At? || v.nullCount == 0
  }

  predicate ZeroGuid(g: Guid) {
    forall k :: 0 <= k < 16 ==> g[k] == 0
  }

  /** A GUID target (tag 0) names a key; a hidden one (tag 1) is all zeros; there is no other tag. */
  predicate GoodTarget(e: PathEntry) {
    (e.targetType == 0 && !ZeroGuid(e.targetGuid)) || (e.targetType == 1 && ZeroGuid(e.targetGuid))
  }

  /** Some entry with tag 0 carries `g`. */
  predicate Targeted(es: seq<PathEntry>, g: Guid) {
    exists e :: e in es && e.targetType == 0 && e.targetGuid == g
  }

  predicate Described(ms: seq<KeyMetadata>, g: Guid) {
    exists m :: m in ms && m.guid == g
  }

  /** Every GUID target has its metadata, all metadata has its target, and none is given twice. */
  ghost predicate Matched(es: seq<PathEntry>, ms: seq<KeyMetadata>) {
    && (forall g :: Targeted(es, g) <==> Described(ms, g))
    && (forall i, j :: 0 <= i < j < |ms| ==> ms[i].guid != ms[j].guid)
  }

  ghost predicate GoodTargets(es: seq<PathEntry>, ms: View<KeyMetadata>) {
    (forall e :: e in es ==> GoodTarget(e)) && Usable(ms) && Matched(es, Elems(ms))
  }

  predicate GoodMetadata(m: KeyMetadata) {
    Usable(m.sd) && m.volatileKey <= 1 && m.symlink <= 1
  }

  ghost predicate GoodLookup(es: View<PathEntry>, ms: View<KeyMetadata>) {
    && Usable(es) && GoodTargets(Elems(es), ms)
    && (forall e :: e in Elems(es) ==> Usable(e.layer))
    && (forall m :: m in Elems(ms) ==> GoodMetadata(m))
  }

  /** As for LOOKUP, over all entries of all children together. */
  ghost predicate GoodChildren(cs: View<ChildEntry>, ms: View<KeyMetadata>) {
    && Usable(cs) && GoodTargets(AllEntries(Elems(cs)), ms)
    && (forall c :: c in Elems(cs) ==> Usable(c.name) && Usable(c.entries))
    && (forall c, e :: c in Elems(cs) && e in Elems(c.entries) ==> Usable(e.layer))
    && (forall m :: m in Elems(ms) ==> GoodMetadata(m))
  }

  /** Bytes `16 * i` up to `16 * i + 16`. */
  function RawGuid(raw: bytes, i: nat): Guid
    requires 16 * i + 16 <= |raw|
  {
    raw[16 * i..16 * i + 16]
  }

  ghost predicate GoodOrphans(orphans: GuidArray) {
    GuidCount(orphans) != 0 ==>
      && orphans.Guids?
      && (forall i :: 0 <= i < orphans.count ==> !ZeroGuid(RawGuid(orphans.raw, i)))
      && (forall i, j :: 0 <= i < j < orphans.count ==> RawGuid(orphans.raw, i) != RawGuid(orphans.raw, j))
  }

  predicate GoodValues(vs: View<ValueEntry>, bs: View<BlanketEntry>) {
    && Usable(vs) && Usable(bs)
    && (forall v :: v in Elems(vs) ==> Usable(v.valueName) && Usable(v.layerName) && Usable(v.data))
    && (forall b :: b in Elems(bs) ==> Usable(b.layerName))
  }

  // ---- what acceptance comes to ------------------------------------------------------

  lemma ZeroIsNil(g: Guid)
    ensures ZeroGuid(g) <==> g == NIL
  {
    if ZeroGuid(g) { assert g == NIL; }
  }

  lemma MatchedIsCovers(es: seq<PathEntry>, ms: seq<KeyMetadata>)
    ensures Matched(es, ms) && !Targeted(es, NIL) <==> Covers(TargetSet(es), MetadataGuids(ms))
  {
    var guids := MetadataGuids(ms);
    forall g ensures (g in TargetSet(es) <==> Targeted(es, g)) && (g in guids <==> Described(ms, g)) {
      if Described(ms, g) {
        var m :| m in ms && m.guid == g;
        var i :| 0 <= i < |ms| && ms[i] == m;
        assert guids[i] == g;
      }
    }
    assert Distinct(guids) <==> forall i, j :: 0 <= i < j < |ms| ==> ms[i].guid != ms[j].guid;
  }

  /** Legal tags and covering metadata, in literal terms. */
  lemma GoodTargetsMeans(es: seq<PathEntry>, ms: View<KeyMetadata>)
    ensures GoodTargets(es, ms) <==>
              && (forall e :: e in es ==> LegalTarget(e)) && Readable(ms)
              && Covers(TargetSet(es), MetadataGuids(Elems(ms)))
  {
    hide Covers, Matched, ZeroGuid;
    MatchedIsCovers(es, Elems(ms));
    forall e | e in es ensures ZeroGuid(e.targetGuid) <==> e.targetGuid == NIL {
      ZeroIsNil(e.targetGuid);
    }
  }

  /** The LOOKUP validator accepts exactly this. */
  lemma LookupAcceptableMeans(es: View<PathEntry>, ms: View<KeyMetadata>)
    ensures LookupAcceptable(es, ms) <==> Usable(es) && GoodTargets(Elems(es), ms)
  {
    hide Covers, GoodTargets, LegalTarget;
    GoodTargetsMeans(Elems(es), ms);
  }

  /** The ENUM_CHILDREN validator accepts exactly this. */
  lemma ChildrenAcceptableMeans(cs: View<ChildEntry>, ms: View<KeyMetadata>)
    ensures ChildrenAcceptable(cs, ms) <==>
              && Usable(cs) && (forall c :: c in Elems(cs) ==> Usable(c.entries))
              && GoodTargets(AllEntries(Elems(cs)), ms)
  {
    hide Covers, GoodTargets, LegalTarget, ChildrenAcceptable, LookupAcceptable, AllEntries;
    GoodTargetsMeans(AllEntries(Elems(cs)), ms);
    ChildrenAreConcatenatedLookup(cs, ms);
  }

  /** Hidden entries need no metadata. */
  lemma HiddenAlone(es: List<PathEntry>, ms: View<KeyMetadata>)
    requires forall e :: e in es ==> e.targetType == 1
    ensures LookupAcceptable(At(es), ms) <==>
              (forall e :: e in es ==> ZeroGuid(e.targetGuid)) && (ms.At? ==> ms.elems == []) && Count(ms) == 0
  {
    hide LookupAcceptable;
    LookupAcceptableMeans(At(es), ms);
    if Elems(ms) != [] {
      assert Described(Elems(ms), Elems(ms)[0].guid);
    }
  }

  lemma GoodOrphansMeans(usizeMax: nat, orphans: GuidArray)
    ensures OrphanVerdict(usizeMax, orphans).Ok? <==> 16 * GuidCount(orphans) <= usizeMax && GoodOrphans(orphans)
    ensures OrphanVerdict(usizeMax, orphans) == Err(EOVERFLOW) <==> 16 * GuidCount(orphans) > usizeMax
    ensures OrphanVerdict(usizeMax, orphans).Err? ==> OrphanVerdict(usizeMax, orphans).errno in {EOVERFLOW, EINVAL}
  {
    hide ZeroGuid, Chunks, RawGuid;
    if orphans.Guids? {
      var chunks := Chunks(orphans.raw);
      forall i | 0 <= i < orphans.count
        ensures chunks[i] == RawGuid(orphans.raw, i) && (ZeroGuid(chunks[i]) <==> chunks[i] == NIL)
      {
        ChunkIsRaw(orphans.raw, i);
        ZeroIsNil(chunks[i]);
      }
    }
  }

  lemma ChunkIsRaw(raw: bytes, i: nat)
    requires |raw| % 16 == 0 && 16 * i + 16 <= |raw|
    ensures i < |Chunks(raw)| && Chunks(raw)[i] == RawGuid(raw, i)
  {
    ChunkAt(raw, i);
  }

  // ---- the tables --------------------------------------------------------------------

  /** The gate of a payload helper: a request, and of that op. */
  predicate IsFor(req: Option<Request>, op: u16) {
    req.Some? && req.value.opCode == op
  }

  /**
   * The four answers of a payload helper before write(2): a wrong request first, then a
   * refusal while validating, bad arguments, a refusal while encoding, and the size.
   */
  ghost predicate Decided(out: Result<bytes>, forOp: bool, good: bool, size: nat, early: bool, late: bool) {
    && (out == Err(EINVAL) <==> !forOp || (!early && !good))
    && (out == Err(ENOMEM) <==> forOp && (early || (good && late)))
    && (out == Err(EOVERFLOW) <==> forOp && !early && good && !late && size > 0xFFFF_FFFF)
    && (out.Ok? <==> forOp && !early && good && !late && size <= 0xFFFF_FFFF)
    && (out.Ok? ==> |out.value| == size)
  }

  /** The table, for a call whose validation can only fail with EINVAL. */
  lemma Decides(u: Uapi, req: Option<Request>, call: Call, early: bool, late: bool)
    requires !call.StatusCall? && (Validated(u, call).Err? ==> Validated(u, call).errno == EINVAL)
    ensures Decided(Outcome(u, req, call, early, late), IsFor(req, OpOf(u, CallShape(call))),
                    Validated(u, call).Ok? && Encodable(call), FrameSize(call), early, late)
  {
    hide Wire.EncPayload, Encodable, Validated, FrameSize, FrameLen, OpOf;
    if Validated(u, call).Ok? && Encodable(call) {
      SizeLaw(u, call);
    }
  }

  lemma StatusVerdict(u: Uapi, req: Option<Request>, status: u32, early: bool, late: bool)
    ensures var out := Outcome(u, req, StatusCall(status), early, late);
            && (out.Ok? <==>
                  && req.Some? && req.value.opCode in u.responders && status in u.statuses
                  && (status == u.ok ==> req.value.opCode in u.statusOnly && u.statusOnly[req.value.opCode]))
            && (out.Err? ==> out == Err(EINVAL))
  {
    hide Frame;
  }

  lemma LookupVerdict(u: Uapi, req: Option<Request>, es: View<PathEntry>, ms: View<KeyMetadata>,
                      early: bool, late: bool)
    ensures Decided(Outcome(u, req, LookupCall(es, ms), early, late), IsFor(req, u.lookup), GoodLookup(es, ms),
                    26 + Sum(PathSize, Elems(es)) + Sum(MetadataSize, Elems(ms)), early, late)
  {
    hide Outcome, LookupAcceptable, GoodTargets, Sum, IsFor, Decided;
    Decides(u, req, LookupCall(es, ms), early, late);
    LookupAcceptableMeans(es, ms);
    GoodTargetsMeans(Elems(es), ms);
  }

  lemma EnumChildrenVerdict(u: Uapi, req: Option<Request>, cs: View<ChildEntry>, ms: View<KeyMetadata>,
                            early: bool, late: bool)
    ensures Decided(Outcome(u, req, EnumChildrenCall(cs, ms), early, late), IsFor(req, u.enumChildren),
                    GoodChildren(cs, ms), 26 + Sum(ChildSize, Elems(cs)) + Sum(MetadataSize, Elems(ms)), early, late)
  {
    hide Outcome, ChildrenAcceptable, GoodTargets, Sum, IsFor, Decided, AllEntries, LegalTarget, ChildSize;
    Decides(u, req, EnumChildrenCall(cs, ms), early, late);
    ChildrenAcceptableMeans(cs, ms);
    GoodTargetsMeans(AllEntries(Elems(cs)), ms);
    forall c, e | c in Elems(cs) && e in Elems(c.entries) ensures e in AllEntries(Elems(cs)) {
      AllEntriesMember(Elems(cs), e);
    }
  }

  lemma ReadKeyVerdict(u: Uapi, req: Option<Request>, name: View<byte>, parent: Option<Guid>, sd: View<byte>,
                       volatileKey: byte, symlink: byte, time: u64, early: bool, late: bool)
    ensures Decided(Outcome(u, req, ReadKeyCall(name, parent, sd, volatileKey, symlink, time), early, late),
                    IsFor(req, u.readKey),
                    parent.Some? && Usable(name) && Usable(sd) && volatileKey <= 1 && symlink <= 1,
                    52 + Count(name) + Count(sd), early, late)
  {
    hide Outcome, IsFor, Decided;
    Decides(u, req, ReadKeyCall(name, parent, sd, volatileKey, symlink, time), early, late);
  }

  lemma QueryValuesVerdict(u: Uapi, req: Option<Request>, vs: View<ValueEntry>, bs: View<BlanketEntry>,
                           early: bool, late: bool)
    ensures Decided(Outcome(u, req, QueryValuesCall(vs, bs), early, late), IsFor(req, u.queryValues),
                    GoodValues(vs, bs), 26 + Sum(ValueSize, Elems(vs)) + Sum(BlanketSize, Elems(bs)), early, late)
  {
    hide Outcome, IsFor, Decided, Sum;
    Decides(u, req, QueryValuesCall(vs, bs), early, late);
  }

  /** DELETE_LAYER has a second overflow: the array's size in memory, checked before its GUIDs. */
  lemma DeleteLayerVerdict(u: Uapi, req: Option<Request>, orphans: GuidArray, early: bool, late: bool)
    ensures var out := Outcome(u, req, DeleteLayerCall(orphans), early, late);
            var forOp, n := IsFor(req, u.deleteLayer), 16 * GuidCount(orphans);
            var good := n <= u.usizeMax && GoodOrphans(orphans);
            && (out == Err(EINVAL) <==> !forOp || (!early && n <= u.usizeMax && !GoodOrphans(orphans)))
            && (out == Err(ENOMEM) <==> forOp && (early || (good && late)))
            && (out == Err(EOVERFLOW) <==>
                  forOp && !early && (n > u.usizeMax || (good && !late && 22 + n > 0xFFFF_FFFF)))
            && (out.Ok? <==> forOp && !early && good && !late && 22 + n <= 0xFFFF_FFFF)
            && (out.Ok? ==> |out.value| == 22 + n)
  {
    hide Frame, PayloadOf, FrameLen, OrphanVerdict, GoodOrphans;
    var call := DeleteLayerCall(orphans);
    GoodOrphansMeans(u.usizeMax, orphans);
    if Validated(u, call).Ok? {
      SizeLaw(u, call);
    }
  }
}
