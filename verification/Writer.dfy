/**
 * The fallible frame writer and the encoding loops that run on it. A refused
 * allocation is latched and reported only at finish.
 */
module Writer {
  import opened Base
  import opened LittleEndian
  import opened CAbi
  import opened Heap
  import Wire
  import opened Validation
  import opened Frames

  // ---- wire images of the C structures, and when they can be encoded ----------

  function WirePath(e: PathEntry): Wire.PathEntry {
    Wire.PathEntry(Elems(e.layer), e.targetType, e.targetGuid, e.sequence)
  }

  function WireMetadata(m: KeyMetadata): Wire.KeyMetadata {
    Wire.KeyMetadata(m.guid, Elems(m.sd), m.volatileKey, m.symlink, m.lastWriteTime)
  }

  function WirePaths(entries: View<PathEntry>): List<Wire.PathEntry> {
    Map(WirePath, Elems(entries))
  }

  function WireMetadatas(metadata: View<KeyMetadata>): List<Wire.KeyMetadata> {
    Map(WireMetadata, Elems(metadata))
  }

  function WireChild(c: ChildEntry): Wire.Child {
    Wire.Child(Elems(c.name), WirePaths(c.entries))
  }

  function WireValue(v: ValueEntry): Wire.Value {
    Wire.Value(Elems(v.valueName), Elems(v.layerName), v.valueType, Elems(v.data), v.sequence)
  }

  function WireBlanket(b: BlanketEntry): Wire.Blanket {
    Wire.Blanket(Elems(b.layerName), b.sequence)
  }

  predicate IsBool(x: byte) { x == 0 || x == 1 }

  function RequireBool(x: byte): (r: Result<()>)
    ensures r == if IsBool(x) then Ok(()) else Err(EINVAL)
  {
    if x == 0 || x == 1 then Ok(()) else Err(EINVAL)
  }

  predicate PathOk(e: PathEntry) { Readable(e.layer) && LegalTarget(e) }

  predicate MetadataOk(m: KeyMetadata) {
    Readable(m.sd) && IsBool(m.volatileKey) && IsBool(m.symlink)
  }

  predicate PathsOk(entries: View<PathEntry>) {
    Readable(entries) && forall e :: e in Elems(entries) ==> PathOk(e)
  }

  predicate MetadatasOk(metadata: View<KeyMetadata>) {
    Readable(metadata) && forall m :: m in Elems(metadata) ==> MetadataOk(m)
  }

  predicate ChildOk(c: ChildEntry) { Readable(c.name) && PathsOk(c.entries) }

  predicate ValueOk(v: ValueEntry) { Readable(v.valueName) && Readable(v.layerName) && Readable(v.data) }

  predicate BlanketOk(b: BlanketEntry) { Readable(b.layerName) }

  // ---- how many appends each record takes --------------------------------------

  function LpfAppends(v: View<byte>): nat { if Count(v) == 0 then 1 else 2 }
  function PathAppends(e: PathEntry): nat { LpfAppends(e.layer) + 3 }
  function MetadataAppends(m: KeyMetadata): nat { LpfAppends(m.sd) + 4 }
  function PathsAppends(entries: View<PathEntry>): nat { 1 + Sum(PathAppends, Elems(entries)) }
  function MetadatasAppends(metadata: View<KeyMetadata>): nat { 1 + Sum(MetadataAppends, Elems(metadata)) }
  function ChildAppends(c: ChildEntry): nat { LpfAppends(c.name) + PathsAppends(c.entries) }

  function ValueAppends(v: ValueEntry): nat {
    LpfAppends(v.valueName) + LpfAppends(v.layerName) + LpfAppends(v.data) + 2
  }

  function BlanketAppends(b: BlanketEntry): nat { LpfAppends(b.layerName) + 1 }

  // ---- and how many are made when a check may stop it half way -------------------

  function PathTried(e: PathEntry): nat {
    if !Readable(e.layer) then 0 else LpfAppends(e.layer) + if LegalTarget(e) then 3 else 0
  }

  function MetadataTried(m: KeyMetadata): nat {
    if !Readable(m.sd) then 1
    else 1 + LpfAppends(m.sd) + if IsBool(m.volatileKey) && IsBool(m.symlink) then 3 else 0
  }

  /** Records are written up to and including the first that is not `ok`. */
  function TriedMany<T>(ok: T -> bool, tried: T -> nat, xs: seq<T>): nat {
    if xs == [] then 0 else tried(xs[0]) + if ok(xs[0]) then TriedMany(ok, tried, xs[1..]) else 0
  }

  function PathsTried(entries: View<PathEntry>): nat {
    if Readable(entries) then 1 + TriedMany(PathOk, PathTried, Elems(entries)) else 0
  }

  function MetadatasTried(metadata: View<KeyMetadata>): nat {
    if Readable(metadata) then 1 + TriedMany(MetadataOk, MetadataTried, Elems(metadata)) else 0
  }

  function ChildTried(c: ChildEntry): nat {
    if !Readable(c.name) then 0 else LpfAppends(c.name) + PathsTried(c.entries)
  }

  function ReadKeyTried(name: View<byte>, sd: View<byte>, volatileKey: byte, symlink: byte): nat {
    if !Readable(name) then 0
    else if !Readable(sd) then LpfAppends(name) + 1
    else LpfAppends(name) + 1 + LpfAppends(sd) + if IsBool(volatileKey) && IsBool(symlink) then 3 else 0
  }

  function ValueTried(v: ValueEntry): nat {
    if !Readable(v.valueName) then 0
    else if !Readable(v.layerName) then LpfAppends(v.valueName)
    else LpfAppends(v.valueName) + LpfAppends(v.layerName) + 1 + if Readable(v.data) then LpfAppends(v.data) + 1 else 0
  }

  function BlanketTried(b: BlanketEntry): nat { if Readable(b.layerName) then BlanketAppends(b) else 0 }

  /** Nothing stops a block of good records. */
  lemma {:induction false} TriedAll<T>(ok: T -> bool, tried: T -> nat, full: T -> nat, xs: seq<T>)
    requires forall x :: x in xs ==> ok(x) && tried(x) == full(x)
    ensures TriedMany(ok, tried, xs) == Sum(full, xs)
  {
    if xs != [] {
      TriedAll(ok, tried, full, xs[1..]);
    }
  }

  lemma PathsTriedAll(entries: View<PathEntry>)
    requires PathsOk(entries)
    ensures PathsTried(entries) == PathsAppends(entries)
  {
    TriedAll(PathOk, PathTried, PathAppends, Elems(entries));
  }

  lemma MetadatasTriedAll(metadata: View<KeyMetadata>)
    requires MetadatasOk(metadata)
    ensures MetadatasTried(metadata) == MetadatasAppends(metadata)
  {
    TriedAll(MetadataOk, MetadataTried, MetadataAppends, Elems(metadata));
  }

  lemma ChildrenTriedAll(cs: seq<ChildEntry>)
    requires forall c :: c in cs ==> ChildOk(c)
    ensures TriedMany(ChildOk, ChildTried, cs) == Sum(ChildAppends, cs)
  {
    hide PathsOk, PathsTried, PathsAppends;
    forall c | c in cs ensures ChildTried(c) == ChildAppends(c) { PathsTriedAll(c.entries); }
    TriedAll(ChildOk, ChildTried, ChildAppends, cs);
  }

  /** The record at `i` is the next to be tried. */
  lemma TriedStep<T>(ok: T -> bool, tried: T -> nat, xs: seq<T>, i: nat)
    requires i < |xs|
    ensures TriedMany(ok, tried, xs[i..])
         == tried(xs[i]) + if ok(xs[i]) then TriedMany(ok, tried, xs[i + 1..]) else 0
  {
    assert xs[i..][0] == xs[i] && xs[i..][1..] == xs[i + 1..];
  }

  // ---- the writer ------------------------------------------------------------

  class FrameWriter {
    const heap: Allocator
    var buf: bytes
    var oom: bool
    /** Every append the writer was asked for, and how many were granted. */
    ghost var appends: seq<bytes>
    ghost var taken: nat
    /** All their bytes. */
    ghost var log: bytes
    /** The allocator's counters at creation. */
    ghost const start: nat
    ghost const base: nat

    /**
     * Sticky OOM: without a refusal since creation the buffer is the exact
     * concatenation of all appends; with one the flag is set and the buffer is stuck
     * at a prefix.
     */
    ghost predicate Valid()
      reads this, heap
    {
      && base <= heap.Refusals()
      && (oom <==> base < heap.Refusals())
      && (!oom ==> buf == log)
      && buf <= log
      && History()
    }

    /**
     * The schedule decides everything: the buffer holds the appends before the first
     * refusal, whole, and the allocator was asked once for each of them and for the
     * refused one, never again.
     */
    ghost predicate History()
      reads this, heap
    {
      && taken <= |appends|
      && log == Flatten(appends)
      && buf == Flatten(appends[..taken])
      && (forall k :: start <= k < start + taken ==> heap.schedule(k).Grant?)
      && (if oom
          then taken < |appends| && heap.schedule(start + taken).Refuse? && heap.asked == start + taken + 1
          else taken == |appends| && heap.asked == start + taken)
    }

    constructor (heap: Allocator)
      ensures Valid() && this.heap == heap && log == [] && !oom && base == heap.Refusals() && start == heap.asked
    {
      this.heap := heap;
      base, start := heap.Refusals(), heap.asked;
      buf, oom, log := [], false, [];
      appends, taken := [], 0;
    }

    /** `raw`: appends unless a refusal is latched; then it does not even ask. */
    method Raw(b: bytes)
      requires Valid()
      modifies this, heap
      ensures Valid() && log == old(log) + b && appends == old(appends) + [b]
      ensures old(oom) ==> oom && buf == old(buf) && heap.asked == old(heap.asked)
      ensures oom ==> buf == old(buf)
    {
      hide Refused, Flatten;
      ghost var before := appends;
      FlattenSnoc(before, b);
      if !oom {
        var answer := heap.Ask();
        if answer.Refuse? {
          oom := true;
        } else {
          buf := buf + b;
          taken := taken + 1;
        }
      }
      appends, log := before + [b], log + b;
      assert appends[..taken] == if taken <= |before| then before[..taken] else appends;
      assert before[..|before|] == before;
    }

    method PutU8(x: byte)
      requires Valid()
      modifies this, heap
      ensures Valid() && log == old(log) + [x] && |appends| == |old(appends)| + 1
      ensures oom ==> buf == old(buf)
    {
      Raw([x]);
    }

    method PutU32(x: u32)
      requires Valid()
      modifies this, heap
      ensures Valid() && log == old(log) + U32(x) && |appends| == |old(appends)| + 1
      ensures oom ==> buf == old(buf)
    {
      Raw(U32(x));
    }

    method PutU64(x: u64)
      requires Valid()
      modifies this, heap
      ensures Valid() && log == old(log) + U64(x) && |appends| == |old(appends)| + 1
      ensures oom ==> buf == old(buf)
    {
      Raw(U64(x));
    }

    /** A length-prefixed field; a null pointer with a length is refused before anything is written. */
    method Lpf(v: View<byte>) returns (r: Result<()>)
      requires Valid()
      modifies this, heap
      ensures Valid()
      ensures r == if Readable(v) then Ok(()) else Err(EINVAL)
      ensures r.Ok? ==> log == old(log) + Wire.EncField(Elems(v)) && |appends| == |old(appends)| + LpfAppends(v)
      ensures r.Err? ==> log == old(log) && appends == old(appends)
    {
      hide FrameWriter.History, U32;
      if RequireView(v).Err? {
        return Err(EINVAL);
      }
      PutU32(Count(v));
      if Count(v) != 0 {
        Raw(Elems(v));
      }
      assert log == old(log) + (U32(|Elems(v)|) + Elems(v));
      return Ok(());
    }

    /** The flag says exactly that the schedule refuses one of the requests for these appends. */
    lemma OomMeansRefused()
      requires Valid()
      ensures start <= heap.asked
      ensures oom <==> !Grants(heap.schedule, start, start + |appends|)
      ensures oom <==> !Grants(heap.schedule, start, heap.asked)
      ensures if oom
              then start < heap.asked <= start + |appends| && Grants(heap.schedule, start, heap.asked - 1)
                   && heap.schedule(heap.asked - 1).Refuse?
              else heap.asked == start + |appends|
    {
    }
  }

  const PLACEHOLDER: bytes := Zeros(STATUS_FRAME_LEN)

  /** A fresh writer holding the 18-byte header and status placeholder. */
  method NewWriter(heap: Allocator) returns (w: FrameWriter)
    modifies heap
    ensures fresh(w) && w.Valid() && w.heap == heap && w.base == old(heap.Refusals())
    ensures w.log == PLACEHOLDER && |w.appends| == 1 && w.start == old(heap.asked)
  {
    w := new FrameWriter(heap);
    w.Raw(PLACEHOLDER);
  }

  // ---- encoding loops --------------------------------------------------------

  method EncodePathEntry(w: FrameWriter, e: PathEntry) returns (r: Result<()>)
    requires w.Valid()
    modifies w, w.heap
    ensures w.Valid()
    ensures r == if PathOk(e) then Ok(()) else Err(EINVAL)
    ensures r.Ok? ==> w.log == old(w.log) + Wire.EncPathEntry(WirePath(e))
    ensures |w.appends| == |old(w.appends)| + PathTried(e)
  {
    hide FrameWriter.History, U64, Wire.EncField;
    var _ :- w.Lpf(e.layer);
    var _ :- RequirePathTarget(e);
    w.PutU8(e.targetType);
    w.Raw(e.targetGuid);
    w.PutU64(e.sequence);
    Regroup5(old(w.log), Wire.EncField(Elems(e.layer)), [e.targetType], e.targetGuid, U64(e.sequence));
    return Ok(());
  }

  lemma BlockStart<A, B>(start: bytes, enc: B -> bytes, image: A -> B, ok: A -> bool, tried: A -> nat, xs: seq<A>)
    ensures start == start + Wire.EncMany(enc, Map(image, xs[..0]))
    ensures TriedMany(ok, tried, xs[0..]) == TriedMany(ok, tried, xs)
  {
    assert xs[0..] == xs;
  }

  /** One more record behind the records already written. */
  lemma BlockStep<A, B>(start: bytes, enc: B -> bytes, image: A -> B, xs: seq<A>, i: nat)
    requires i < |xs|
    ensures start + Wire.EncMany(enc, Map(image, xs[..i])) + enc(image(xs[i]))
         == start + Wire.EncMany(enc, Map(image, xs[..i + 1]))
  {
    MapSnoc(image, xs, i);
    Wire.EncManySnoc(enc, Map(image, xs[..i]), image(xs[i]));
  }

  lemma BlockDone<A, B>(start: bytes, enc: B -> bytes, image: A -> B, ok: A -> bool, tried: A -> nat, xs: List<A>)
    ensures TriedMany(ok, tried, xs[|xs|..]) == 0
    ensures start + U32(|xs|) + Wire.EncMany(enc, Map(image, xs[..|xs|]))
         == start + Wire.EncBlock(enc, Map(image, xs))
  {
    hide Map, Wire.EncMany, U32;
    assert xs[..|xs|] == xs && xs[|xs|..] == [];
  }

  /**
   * Whether the block can be encoded does not depend on the allocator; when it can, the
   * writer was handed the whole counted block.
   */
  method EncodePathEntryBlock(w: FrameWriter, entries: View<PathEntry>) returns (r: Result<()>)
    requires w.Valid()
    modifies w, w.heap
    ensures w.Valid()
    ensures r == if PathsOk(entries) then Ok(()) else Err(EINVAL)
    ensures r.Ok? ==> w.log == old(w.log) + Wire.EncBlock(Wire.EncPathEntry, WirePaths(entries))
    ensures |w.appends| == |old(w.appends)| + PathsTried(entries)
  {
    hide FrameWriter.History, U32, Wire.EncPathEntry, Wire.EncMany, Wire.EncBlock, Map, PathOk, PathTried,
         WirePath, TriedMany, Refused;
    var _ :- RequireView(entries);
    var es := Elems(entries);
    w.PutU32(Count(entries));
    ghost var start := w.log;
    BlockStart(start, Wire.EncPathEntry, WirePath, PathOk, PathTried, es);
    for i := 0 to Count(entries)
      invariant w.Valid() && forall e :: e in es[..i] ==> PathOk(e)
      invariant w.log == start + Wire.EncMany(Wire.EncPathEntry, Map(WirePath, es[..i]))
      invariant |w.appends| + TriedMany(PathOk, PathTried, es[i..])
             == |old(w.appends)| + 1 + TriedMany(PathOk, PathTried, es)
    {
      TriedStep(PathOk, PathTried, es, i);
      var _ :- EncodePathEntry(w, es[i]);
      BlockStep(start, Wire.EncPathEntry, WirePath, es, i);
    }
    BlockDone(old(w.log), Wire.EncPathEntry, WirePath, PathOk, PathTried, es);
    return Ok(());
  }

  method EncodeMetadata(w: FrameWriter, m: KeyMetadata) returns (r: Result<()>)
    requires w.Valid()
    modifies w, w.heap
    ensures w.Valid()
    ensures r == if MetadataOk(m) then Ok(()) else Err(EINVAL)
    ensures r.Ok? ==> w.log == old(w.log) + Wire.EncMetadata(WireMetadata(m))
    ensures |w.appends| == |old(w.appends)| + MetadataTried(m)
  {
    hide FrameWriter.History, U64, Wire.EncField;
    w.Raw(m.guid);
    var _ :- w.Lpf(m.sd);
    var _ :- RequireBool(m.volatileKey);
    var _ :- RequireBool(m.symlink);
    w.PutU8(m.volatileKey);
    w.PutU8(m.symlink);
    w.PutU64(m.lastWriteTime);
    Regroup6(old(w.log), m.guid, Wire.EncField(Elems(m.sd)), [m.volatileKey], [m.symlink], U64(m.lastWriteTime));
    return Ok(());
  }

  method EncodeMetadataBlock(w: FrameWriter, metadata: View<KeyMetadata>) returns (r: Result<()>)
    requires w.Valid()
    modifies w, w.heap
    ensures w.Valid()
    ensures r == if MetadatasOk(metadata) then Ok(()) else Err(EINVAL)
    ensures r.Ok? ==> w.log == old(w.log) + Wire.EncBlock(Wire.EncMetadata, WireMetadatas(metadata))
    ensures |w.appends| == |old(w.appends)| + MetadatasTried(metadata)
  {
    hide FrameWriter.History, U32, Wire.EncMetadata, Wire.EncMany, Wire.EncBlock, Map, MetadataOk,
         MetadataTried, WireMetadata, TriedMany, Refused;
    var _ :- RequireView(metadata);
    var ms := Elems(metadata);
    w.PutU32(Count(metadata));
    ghost var start := w.log;
    BlockStart(start, Wire.EncMetadata, WireMetadata, MetadataOk, MetadataTried, ms);
    for i := 0 to Count(metadata)
      invariant w.Valid() && forall m :: m in ms[..i] ==> MetadataOk(m)
      invariant w.log == start + Wire.EncMany(Wire.EncMetadata, Map(WireMetadata, ms[..i]))
      invariant |w.appends| + TriedMany(MetadataOk, MetadataTried, ms[i..])
             == |old(w.appends)| + 1 + TriedMany(MetadataOk, MetadataTried, ms)
    {
      TriedStep(MetadataOk, MetadataTried, ms, i);
      var _ :- EncodeMetadata(w, ms[i]);
      BlockStep(start, Wire.EncMetadata, WireMetadata, ms, i);
    }
    BlockDone(old(w.log), Wire.EncMetadata, WireMetadata, MetadataOk, MetadataTried, ms);
    return Ok(());
  }

  method EncodeChild(w: FrameWriter, c: ChildEntry) returns (r: Result<()>)
    requires w.Valid()
    modifies w, w.heap
    ensures w.Valid()
    ensures r == if ChildOk(c) then Ok(()) else Err(EINVAL)
    ensures r.Ok? ==> w.log == old(w.log) + Wire.EncChild(WireChild(c))
    ensures |w.appends| == |old(w.appends)| + ChildTried(c)
  {
    hide FrameWriter.History, Wire.EncField, Wire.EncBlock, PathsOk;
    var _ :- w.Lpf(c.name);
    var _ :- EncodePathEntryBlock(w, c.entries);
    return Ok(());
  }

  /** The child loop of ENUM_CHILDREN. Its array was checked by the validator. */
  method EncodeChildren(w: FrameWriter, children: View<ChildEntry>) returns (r: Result<()>)
    requires w.Valid() && Readable(children)
    modifies w, w.heap
    ensures w.Valid()
    ensures r == if forall c :: c in Elems(children) ==> ChildOk(c) then Ok(()) else Err(EINVAL)
    ensures r.Ok? ==> w.log == old(w.log) + Wire.EncBlock(Wire.EncChild, Map(WireChild, Elems(children)))
    ensures |w.appends| == |old(w.appends)| + 1 + TriedMany(ChildOk, ChildTried, Elems(children))
  {
    hide FrameWriter.History, U32, Wire.EncChild, Wire.EncMany, Wire.EncBlock, Map, ChildOk, ChildTried,
         WireChild, TriedMany, Refused;
    var cs := Elems(children);
    w.PutU32(Count(children));
    ghost var start := w.log;
    BlockStart(start, Wire.EncChild, WireChild, ChildOk, ChildTried, cs);
    for i := 0 to Count(children)
      invariant w.Valid() && forall c :: c in cs[..i] ==> ChildOk(c)
      invariant w.log == start + Wire.EncMany(Wire.EncChild, Map(WireChild, cs[..i]))
      invariant |w.appends| + TriedMany(ChildOk, ChildTried, cs[i..])
             == |old(w.appends)| + 1 + TriedMany(ChildOk, ChildTried, cs)
    {
      TriedStep(ChildOk, ChildTried, cs, i);
      var _ :- EncodeChild(w, cs[i]);
      BlockStep(start, Wire.EncChild, WireChild, cs, i);
    }
    BlockDone(old(w.log), Wire.EncChild, WireChild, ChildOk, ChildTried, cs);
    return Ok(());
  }

  method EncodeReadKey(w: FrameWriter, name: View<byte>, parentGuid: Guid, sd: View<byte>,
                       volatileKey: byte, symlink: byte, lastWriteTime: u64) returns (r: Result<()>)
    requires w.Valid()
    modifies w, w.heap
    ensures w.Valid()
    ensures r == if Readable(name) && Readable(sd) && IsBool(volatileKey) && IsBool(symlink) then Ok(())
                 else Err(EINVAL)
    ensures r.Ok? ==>
              w.log == old(w.log)
                + Wire.EncReadKey(Elems(name), parentGuid, Elems(sd), volatileKey, symlink, lastWriteTime)
    ensures |w.appends| == |old(w.appends)| + ReadKeyTried(name, sd, volatileKey, symlink)
  {
    hide FrameWriter.History, U64, Wire.EncField;
    var _ :- w.Lpf(name);
    w.Raw(parentGuid);
    var _ :- w.Lpf(sd);
    var _ :- RequireBool(volatileKey);
    var _ :- RequireBool(symlink);
    w.PutU8(volatileKey);
    w.PutU8(symlink);
    w.PutU64(lastWriteTime);
    ghost var n, s := Wire.EncField(Elems(name)), Wire.EncField(Elems(sd));
    Regroup7(old(w.log), n, parentGuid, s, [volatileKey], [symlink], U64(lastWriteTime));
    return Ok(());
  }

  method EncodeValue(w: FrameWriter, v: ValueEntry) returns (r: Result<()>)
    requires w.Valid()
    modifies w, w.heap
    ensures w.Valid()
    ensures r == if ValueOk(v) then Ok(()) else Err(EINVAL)
    ensures r.Ok? ==> w.log == old(w.log) + Wire.EncValue(WireValue(v))
    ensures |w.appends| == |old(w.appends)| + ValueTried(v)
  {
    hide FrameWriter.History, U32, U64, Wire.EncField;
    var _ :- w.Lpf(v.valueName);
    var _ :- w.Lpf(v.layerName);
    w.PutU32(v.valueType);
    var _ :- w.Lpf(v.data);
    w.PutU64(v.sequence);
    Regroup6(old(w.log), Wire.EncField(Elems(v.valueName)), Wire.EncField(Elems(v.layerName)), U32(v.valueType),
            Wire.EncField(Elems(v.data)), U64(v.sequence));
    return Ok(());
  }

  method EncodeValues(w: FrameWriter, values: View<ValueEntry>) returns (r: Result<()>)
    requires w.Valid() && Readable(values)
    modifies w, w.heap
    ensures w.Valid()
    ensures r == if forall v :: v in Elems(values) ==> ValueOk(v) then Ok(()) else Err(EINVAL)
    ensures r.Ok? ==> w.log == old(w.log) + Wire.EncBlock(Wire.EncValue, Map(WireValue, Elems(values)))
    ensures |w.appends| == |old(w.appends)| + 1 + TriedMany(ValueOk, ValueTried, Elems(values))
  {
    hide FrameWriter.History, U32, Wire.EncValue, Wire.EncMany, Wire.EncBlock, Map, ValueOk, ValueTried,
         WireValue, TriedMany, Refused;
    var vs := Elems(values);
    w.PutU32(Count(values));
    ghost var start := w.log;
    BlockStart(start, Wire.EncValue, WireValue, ValueOk, ValueTried, vs);
    for i := 0 to Count(values)
      invariant w.Valid() && forall v :: v in vs[..i] ==> ValueOk(v)
      invariant w.log == start + Wire.EncMany(Wire.EncValue, Map(WireValue, vs[..i]))
      invariant |w.appends| + TriedMany(ValueOk, ValueTried, vs[i..])
             == |old(w.appends)| + 1 + TriedMany(ValueOk, ValueTried, vs)
    {
      TriedStep(ValueOk, ValueTried, vs, i);
      var _ :- EncodeValue(w, vs[i]);
      BlockStep(start, Wire.EncValue, WireValue, vs, i);
    }
    BlockDone(old(w.log), Wire.EncValue, WireValue, ValueOk, ValueTried, vs);
    return Ok(());
  }

  method EncodeBlanket(w: FrameWriter, b: BlanketEntry) returns (r: Result<()>)
    requires w.Valid()
    modifies w, w.heap
    ensures w.Valid()
    ensures r == if BlanketOk(b) then Ok(()) else Err(EINVAL)
    ensures r.Ok? ==> w.log == old(w.log) + Wire.EncBlanket(WireBlanket(b))
    ensures |w.appends| == |old(w.appends)| + BlanketTried(b)
  {
    hide FrameWriter.History, U64, Wire.EncField;
    var _ :- w.Lpf(b.layerName);
    w.PutU64(b.sequence);
    return Ok(());
  }

  method EncodeBlankets(w: FrameWriter, blankets: View<BlanketEntry>) returns (r: Result<()>)
    requires w.Valid() && Readable(blankets)
    modifies w, w.heap
    ensures w.Valid()
    ensures r == if forall b :: b in Elems(blankets) ==> BlanketOk(b) then Ok(()) else Err(EINVAL)
    ensures r.Ok? ==> w.log == old(w.log) + Wire.EncBlock(Wire.EncBlanket, Map(WireBlanket, Elems(blankets)))
    ensures |w.appends| == |old(w.appends)| + 1 + TriedMany(BlanketOk, BlanketTried, Elems(blankets))
  {
    hide FrameWriter.History, U32, Wire.EncBlanket, Wire.EncMany, Wire.EncBlock, Map, BlanketOk, BlanketTried,
         WireBlanket, TriedMany, Refused;
    var bs := Elems(blankets);
    w.PutU32(Count(blankets));
    ghost var start := w.log;
    BlockStart(start, Wire.EncBlanket, WireBlanket, BlanketOk, BlanketTried, bs);
    for i := 0 to Count(blankets)
      invariant w.Valid() && forall b :: b in bs[..i] ==> BlanketOk(b)
      invariant w.log == start + Wire.EncMany(Wire.EncBlanket, Map(WireBlanket, bs[..i]))
      invariant |w.appends| + TriedMany(BlanketOk, BlanketTried, bs[i..])
             == |old(w.appends)| + 1 + TriedMany(BlanketOk, BlanketTried, bs)
    {
      TriedStep(BlanketOk, BlanketTried, bs, i);
      var _ :- EncodeBlanket(w, bs[i]);
      BlockStep(start, Wire.EncBlanket, WireBlanket, bs, i);
    }
    BlockDone(old(w.log), Wire.EncBlanket, WireBlanket, BlanketOk, BlanketTried, bs);
    return Ok(());
  }

  // ---- header patching and finish --------------------------------------------

  /** `copy_from_slice` into `buf[at..at + |src|]`. */
  method CopyInto(buf: array<byte>, at: nat, src: bytes)
    requires at + |src| <= buf.Length
    modifies buf
    ensures buf[..] == old(buf[..at]) + src + old(buf[at + |src|..])
  {
    forall i | 0 <= i < |src| {
      buf[at + i] := src[i];
    }
  }

  /** Fills bytes 0..14 and leaves every later byte alone. */
  method PutResponseHeader(buf: array<byte>, total: u32, id: u64, respOp: u16)
    requires buf.Length >= 14
    modifies buf
    ensures buf[..] == U32(total) + U64(id) + U16(respOp) + old(buf[14..])
  {
    hide U16, U32, U64;
    CopyInto(buf, 0, U32(total));
    CopyInto(buf, 4, U64(id));
    CopyInto(buf, 12, U16(respOp));
  }

  method BuildStatusFrame(id: u64, respOp: u16, status: u32) returns (frame: array<byte>)
    ensures fresh(frame) && frame[..] == Header(STATUS_FRAME_LEN, id, respOp, status)
  {
    hide U16, U32, U64;
    frame := new byte[STATUS_FRAME_LEN];
    PutResponseHeader(frame, STATUS_FRAME_LEN, id, respOp);
    CopyInto(frame, 14, U32(status));
  }

  /** `rsi_response_op_code`: the request op with the response bit, or an error. */
  function ResponseOpCode(u: Uapi, op: u16): (r: Result<u16>)
    ensures r.Ok? ==> r.value >= RESPONSE_BIT && r.value - RESPONSE_BIT == op
    ensures r.Err? ==> op !in u.PayloadOps()
  {
    if op in u.responders then Ok(op + RESPONSE_BIT) else Err(EINVAL)
  }

  lemma PatchParts(a: bytes, b: bytes, c: bytes, d: bytes, s: bytes)
    requires |a| == 4 && |b| == 8 && |c| == 2 && |d| == 4 && |s| >= STATUS_FRAME_LEN
    ensures var t := a + b + c + s[14..];
            t[..14] + d + t[18..] == a + b + c + d + s[18..]
  {
  }

  /**
   * Back-patches the header and RSI_OK over the placeholder. A bad op code outranks a
   * latched refusal, which outranks an oversized frame.
   */
  method FinishResponse(u: Uapi, req: Request, w: FrameWriter) returns (r: Result<bytes>)
    requires w.Valid() && STATUS_FRAME_LEN <= |w.log|
    ensures r == if req.opCode !in u.responders then Err(EINVAL)
                 else if w.oom then Err(ENOMEM)
                 else if |w.log| > U32_MAX then Err(EOVERFLOW)
                 else Ok(Header(|w.log|, req.requestId, req.opCode + RESPONSE_BIT, u.ok) + w.log[STATUS_FRAME_LEN..])
  {
    hide FrameWriter.History, U16, U32, U64;
    var code := ResponseOpCode(u, req.opCode);
    if code.Err? {
      return Err(EINVAL);
    }
    if w.oom {
      return Err(ENOMEM);
    }
    if |w.buf| > U32_MAX {
      return Err(EOVERFLOW);
    }
    // The vector's storage, seen as a mutable slice.
    var assembled := w.buf;
    var frame := new byte[|assembled|](i requires 0 <= i < |assembled| => assembled[i]);
    assert frame[..] == assembled;
    PutResponseHeader(frame, |assembled|, req.requestId, code.value);
    CopyInto(frame, 14, U32(u.ok));
    PatchParts(U32(|assembled|), U64(req.requestId), U16(code.value), U32(u.ok), assembled);
    return Ok(frame[..]);
  }
}
