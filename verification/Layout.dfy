/**
 * Where every byte of a sent frame comes from: offsets and base-256 digits of the caller's
 * own arguments, without mention of the encoders, the decoder or the wire types. Each law
 * goes both ways: a byte string laid out like this is the frame.
 */
module Layout {
  import opened Base
  import opened LittleEndian
  import opened CAbi
  import Wire
  import opened GuidOrder
  import opened Validation
  import opened Frames
  import opened Writer
  import opened Respond
  import opened Outcomes

  // ---- what is found at an offset ----------------------------------------------

  predicate BytesAt(f: bytes, o: nat, s: bytes) {
    o + |s| <= |f| && f[o..o + |s|] == s
  }

  predicate Le16At(f: bytes, o: nat, x: u16) {
    o + 2 <= |f| && f[o] == x % 256 && f[o + 1] == x / 0x100
  }

  predicate Le32At(f: bytes, o: nat, x: u32) {
    && o + 4 <= |f|
    && f[o] == x % 256 && f[o + 1] == x / 0x100 % 256
    && f[o + 2] == x / 0x1_0000 % 256 && f[o + 3] == x / 0x100_0000
  }

  predicate Le64At(f: bytes, o: nat, x: u64) {
    && o + 8 <= |f|
    && f[o] == x % 256 && f[o + 1] == x / 0x100 % 256
    && f[o + 2] == x / 0x1_0000 % 256 && f[o + 3] == x / 0x100_0000 % 256
    && f[o + 4] == x / 0x1_0000_0000 % 256 && f[o + 5] == x / 0x100_0000_0000 % 256
    && f[o + 6] == x / 0x1_0000_0000_0000 % 256 && f[o + 7] == x / 0x100_0000_0000_0000
  }

  /** The length, then the bytes the pointer leads to. */
  predicate FieldAt(f: bytes, o: nat, v: View<byte>) {
    Le32At(f, o, Count(v)) && |Elems(v)| == Count(v) && BytesAt(f, o + 4, Elems(v))
  }

  /** Layer, target tag, target GUID, sequence. */
  predicate PathAt(f: bytes, o: nat, e: PathEntry) {
    var n := o + 4 + Count(e.layer);
    FieldAt(f, o, e.layer) && BytesAt(f, n, [e.targetType]) && BytesAt(f, n + 1, e.targetGuid)
    && Le64At(f, n + 17, e.sequence)
  }

  /** GUID, security descriptor, volatile flag, symlink flag, last write time. */
  predicate MetadataAt(f: bytes, o: nat, m: KeyMetadata) {
    var n := o + 20 + Count(m.sd);
    BytesAt(f, o, m.guid) && FieldAt(f, o + 16, m.sd) && BytesAt(f, n, [m.volatileKey])
    && BytesAt(f, n + 1, [m.symlink]) && Le64At(f, n + 2, m.lastWriteTime)
  }

  /** A count, then the records one behind the other: record `i` starts where those before it end. */
  predicate BlockAt<T>(f: bytes, o: nat, size: T -> nat, at: (bytes, nat, T) -> bool, v: View<T>) {
    && Le32At(f, o, Count(v)) && |Elems(v)| == Count(v)
    && forall i :: 0 <= i < |Elems(v)| ==> at(f, o + 4 + Sum(size, Elems(v)[..i]), Elems(v)[i])
  }

  /** Name, then the child's own block of path entries. */
  predicate ChildAt(f: bytes, o: nat, c: ChildEntry) {
    FieldAt(f, o, c.name) && BlockAt(f, o + 4 + Count(c.name), PathSize, PathAt, c.entries)
  }

  /** Value name, layer name, type, data, sequence. */
  predicate ValueAt(f: bytes, o: nat, v: ValueEntry) {
    var layer := o + 4 + Count(v.valueName);
    var kind := layer + 4 + Count(v.layerName);
    FieldAt(f, o, v.valueName) && FieldAt(f, layer, v.layerName) && Le32At(f, kind, v.valueType)
    && FieldAt(f, kind + 4, v.data) && Le64At(f, kind + 8 + Count(v.data), v.sequence)
  }

  /** Layer name, sequence. */
  predicate BlanketAt(f: bytes, o: nat, b: BlanketEntry) {
    FieldAt(f, o, b.layerName) && Le64At(f, o + 4 + Count(b.layerName), b.sequence)
  }

  /** The first 18 bytes: the length, the request's id, its op with bit 15 set, the status. */
  predicate HeaderAt(f: bytes, req: Request, status: u32) {
    && |f| < 0x1_0000_0000 && req.opCode < 0x8000
    && Le32At(f, 0, |f|) && Le64At(f, 4, req.requestId) && Le16At(f, 12, req.opCode + 0x8000)
    && Le32At(f, 14, status)
  }

  // ---- from concatenations to offsets --------------------------------------------

  lemma AtSplit(f: bytes, o: nat, a: bytes, b: bytes)
    ensures BytesAt(f, o, a + b) <==> BytesAt(f, o, a) && BytesAt(f, o + |a|, b)
  {
    if o + |a + b| <= |f| {
      var s := f[o..o + |a + b|];
      assert s[..|a|] == f[o..o + |a|] && s[|a|..] == f[o + |a|..o + |a| + |b|];
      assert s == s[..|a|] + s[|a|..];
      assert (a + b)[..|a|] == a && (a + b)[|a|..] == b;
    }
  }

  lemma U16At(f: bytes, o: nat, x: u16)
    ensures BytesAt(f, o, U16(x)) <==> Le16At(f, o, x)
  {
    hide ToLE;
    DigitsOf(x, 2);
    if o + 2 <= |f| {
      var s := f[o..o + 2];
      assert f[o] == s[0] && f[o + 1] == s[1];
    }
  }

  lemma U32At(f: bytes, o: nat, x: u32)
    ensures BytesAt(f, o, U32(x)) <==> Le32At(f, o, x)
  {
    hide ToLE;
    DigitsOf(x, 4);
    if o + 4 <= |f| {
      var s := f[o..o + 4];
      assert f[o] == s[0] && f[o + 1] == s[1] && f[o + 2] == s[2] && f[o + 3] == s[3];
    }
  }

  lemma U64At(f: bytes, o: nat, x: u64)
    ensures BytesAt(f, o, U64(x)) <==> Le64At(f, o, x)
  {
    hide ToLE;
    DigitsOf(x, 8);
    if o + 8 <= |f| {
      var s := f[o..o + 8];
      assert f[o] == s[0] && f[o + 1] == s[1] && f[o + 2] == s[2] && f[o + 3] == s[3];
      assert f[o + 4] == s[4] && f[o + 5] == s[5] && f[o + 6] == s[6] && f[o + 7] == s[7];
    }
  }

  lemma FieldFound(f: bytes, o: nat, v: View<byte>)
    requires Readable(v)
    ensures BytesAt(f, o, Wire.EncField(Elems(v))) <==> FieldAt(f, o, v)
  {
    hide U32, Le32At;
    AtSplit(f, o, U32(Count(v)), Elems(v));
    U32At(f, o, Count(v));
  }

  /** Record `i` of `xs` is found behind the sizes of those before it. */
  ghost predicate RecordAt<A, B>(f: bytes, o: nat, enc: B -> bytes, image: A -> B, size: A -> nat, xs: seq<A>, i: int) {
    0 <= i < |xs| && BytesAt(f, o + Sum(size, xs[..i]), enc(image(xs[i])))
  }

  lemma RecordShift<A, B>(f: bytes, o: nat, enc: B -> bytes, image: A -> B, size: A -> nat, xs: seq<A>, i: nat)
    requires i < |xs|
    ensures if i == 0 then RecordAt(f, o, enc, image, size, xs, 0) <==> BytesAt(f, o, enc(image(xs[0])))
            else RecordAt(f, o, enc, image, size, xs, i)
                 <==> RecordAt(f, o + size(xs[0]), enc, image, size, xs[1..], i - 1)
  {
    hide BytesAt;
    if i > 0 {
      assert xs[..i][1..] == xs[1..][..i - 1];
    }
  }

  /** A run of records lies at `o` exactly when each of them lies behind those before it. */
  lemma {:induction false} ManyAt<A, B>(f: bytes, o: nat, enc: B -> bytes, image: A -> B, size: A -> nat, xs: seq<A>)
    requires o <= |f| && forall x :: x in xs ==> |enc(image(x))| == size(x)
    ensures BytesAt(f, o, Wire.EncMany(enc, Map(image, xs)))
       <==> forall i :: 0 <= i < |xs| ==> RecordAt(f, o, enc, image, size, xs, i)
    decreases |xs|
  {
    hide RecordAt;
    if xs != [] {
      var tail, next := xs[1..], o + size(xs[0]);
      assert Map(image, xs)[1..] == Map(image, tail);
      AtSplit(f, o, enc(image(xs[0])), Wire.EncMany(enc, Map(image, tail)));
      RecordShift(f, o, enc, image, size, xs, 0);
      if next <= |f| {
        ManyAt(f, next, enc, image, size, tail);
        forall i | 0 <= i < |tail|
          ensures RecordAt(f, o, enc, image, size, xs, i + 1) <==> RecordAt(f, next, enc, image, size, tail, i)
        {
          RecordShift(f, o, enc, image, size, xs, i + 1);
        }
        if BytesAt(f, next, Wire.EncMany(enc, Map(image, tail))) && RecordAt(f, o, enc, image, size, xs, 0) {
          forall i | 0 < i < |xs| ensures RecordAt(f, o, enc, image, size, xs, i) {
            assert RecordAt(f, next, enc, image, size, tail, i - 1);
          }
        }
      }
    }
  }

  // ---- records -------------------------------------------------------------------

  lemma PathFound(f: bytes, o: nat, e: PathEntry)
    requires PathOk(e)
    ensures BytesAt(f, o, Wire.EncPathEntry(WirePath(e))) <==> PathAt(f, o, e)
  {
    hide BytesAt, FieldAt, Le64At, U64;
    var name := Wire.EncField(Elems(e.layer));
    AtSplit(f, o, name + [e.targetType] + e.targetGuid, U64(e.sequence));
    AtSplit(f, o, name + [e.targetType], e.targetGuid);
    AtSplit(f, o, name, [e.targetType]);
    FieldFound(f, o, e.layer);
    U64At(f, o + 4 + Count(e.layer) + 17, e.sequence);
  }

  lemma MetadataFound(f: bytes, o: nat, m: KeyMetadata)
    requires MetadataOk(m)
    ensures BytesAt(f, o, Wire.EncMetadata(WireMetadata(m))) <==> MetadataAt(f, o, m)
  {
    hide BytesAt, FieldAt, Le64At, U64;
    var sd := Wire.EncField(Elems(m.sd));
    AtSplit(f, o, m.guid + sd + [m.volatileKey] + [m.symlink], U64(m.lastWriteTime));
    AtSplit(f, o, m.guid + sd + [m.volatileKey], [m.symlink]);
    AtSplit(f, o, m.guid + sd, [m.volatileKey]);
    AtSplit(f, o, m.guid, sd);
    FieldFound(f, o + 16, m.sd);
    U64At(f, o + 20 + Count(m.sd) + 2, m.lastWriteTime);
  }

  lemma ValueFound(f: bytes, o: nat, v: ValueEntry)
    requires ValueOk(v)
    ensures BytesAt(f, o, Wire.EncValue(WireValue(v))) <==> ValueAt(f, o, v)
  {
    hide BytesAt, FieldAt, Le32At, Le64At, U32, U64;
    var name, layer, data := Wire.EncField(Elems(v.valueName)), Wire.EncField(Elems(v.layerName)),
        Wire.EncField(Elems(v.data));
    AtSplit(f, o, name + layer + U32(v.valueType) + data, U64(v.sequence));
    AtSplit(f, o, name + layer + U32(v.valueType), data);
    AtSplit(f, o, name + layer, U32(v.valueType));
    AtSplit(f, o, name, layer);
    FieldFound(f, o, v.valueName);
    FieldFound(f, o + |name|, v.layerName);
    U32At(f, o + |name| + |layer|, v.valueType);
    FieldFound(f, o + |name| + |layer| + 4, v.data);
    U64At(f, o + |name| + |layer| + 4 + |data|, v.sequence);
  }

  lemma BlanketFound(f: bytes, o: nat, b: BlanketEntry)
    requires BlanketOk(b)
    ensures BytesAt(f, o, Wire.EncBlanket(WireBlanket(b))) <==> BlanketAt(f, o, b)
  {
    hide BytesAt, FieldAt, Le64At, U64;
    AtSplit(f, o, Wire.EncField(Elems(b.layerName)), U64(b.sequence));
    FieldFound(f, o, b.layerName);
    U64At(f, o + 4 + Count(b.layerName), b.sequence);
  }

  // ---- blocks --------------------------------------------------------------------

  /** A block lies at `o` exactly when its count does and its records do one by one. */
  lemma BlockFound<A, B>(f: bytes, o: nat, enc: B -> bytes, image: A -> B, size: A -> nat,
                         at: (bytes, nat, A) -> bool, v: View<A>)
    requires Readable(v)
    requires forall x :: x in Elems(v) ==> |enc(image(x))| == size(x)
    requires forall x, k: nat :: x in Elems(v) ==> (BytesAt(f, k, enc(image(x))) <==> at(f, k, x))
    ensures BytesAt(f, o, Wire.EncBlock(enc, Map(image, Elems(v)))) <==> BlockAt(f, o, size, at, v)
  {
    hide BytesAt, RecordAt, U32, Map, Sum, Wire.EncMany;
    var xs, body := Elems(v), o + 4;
    AtSplit(f, o, U32(|xs|), Wire.EncMany(enc, Map(image, xs)));
    U32At(f, o, |xs|);
    if body <= |f| {
      ManyAt(f, body, enc, image, size, xs);
      if BlockAt(f, o, size, at, v) {
        forall i | 0 <= i < |xs| ensures RecordAt(f, body, enc, image, size, xs, i) {
          RecordIs(f, body, enc, image, size, xs, i);
        }
      }
      if forall i :: 0 <= i < |xs| ==> RecordAt(f, body, enc, image, size, xs, i) {
        forall i | 0 <= i < |xs| ensures at(f, body + Sum(size, xs[..i]), xs[i]) {
          assert RecordAt(f, body, enc, image, size, xs, i);
          RecordIs(f, body, enc, image, size, xs, i);
        }
      }
    }
  }

  lemma RecordIs<A, B>(f: bytes, o: nat, enc: B -> bytes, image: A -> B, size: A -> nat, xs: seq<A>, i: nat)
    requires i < |xs|
    ensures RecordAt(f, o, enc, image, size, xs, i) <==> BytesAt(f, o + Sum(size, xs[..i]), enc(image(xs[i])))
  {
  }

  lemma PathsFound(f: bytes, o: nat, entries: View<PathEntry>)
    requires PathsOk(entries)
    ensures BytesAt(f, o, Wire.EncBlock(Wire.EncPathEntry, WirePaths(entries)))
       <==> BlockAt(f, o, PathSize, PathAt, entries)
  {
    hide BytesAt, BlockAt, Wire.EncBlock, Map, PathAt;
    forall e, k: nat | e in Elems(entries)
      ensures BytesAt(f, k, Wire.EncPathEntry(WirePath(e))) <==> PathAt(f, k, e)
    {
      PathFound(f, k, e);
    }
    BlockFound(f, o, Wire.EncPathEntry, WirePath, PathSize, PathAt, entries);
  }

  lemma MetadatasFound(f: bytes, o: nat, metadata: View<KeyMetadata>)
    requires MetadatasOk(metadata)
    ensures BytesAt(f, o, Wire.EncBlock(Wire.EncMetadata, WireMetadatas(metadata)))
       <==> BlockAt(f, o, MetadataSize, MetadataAt, metadata)
  {
    hide BytesAt, BlockAt, Wire.EncBlock, Map, MetadataAt;
    forall m, k: nat | m in Elems(metadata)
      ensures BytesAt(f, k, Wire.EncMetadata(WireMetadata(m))) <==> MetadataAt(f, k, m)
    {
      MetadataFound(f, k, m);
    }
    BlockFound(f, o, Wire.EncMetadata, WireMetadata, MetadataSize, MetadataAt, metadata);
  }

  lemma ChildFound(f: bytes, o: nat, c: ChildEntry)
    requires ChildOk(c)
    ensures BytesAt(f, o, Wire.EncChild(WireChild(c))) <==> ChildAt(f, o, c)
  {
    hide BytesAt, Wire.EncBlock, Map, PathsOk, FieldAt, BlockAt;
    AtSplit(f, o, Wire.EncField(Elems(c.name)), Wire.EncBlock(Wire.EncPathEntry, WirePaths(c.entries)));
    FieldFound(f, o, c.name);
    PathsFound(f, o + 4 + Count(c.name), c.entries);
  }

  lemma ChildrenFound(f: bytes, o: nat, children: View<ChildEntry>)
    requires Readable(children) && forall c :: c in Elems(children) ==> ChildOk(c)
    ensures BytesAt(f, o, Wire.EncBlock(Wire.EncChild, Map(WireChild, Elems(children))))
       <==> BlockAt(f, o, ChildSize, ChildAt, children)
  {
    hide BytesAt, BlockAt, Wire.EncBlock, Map, ChildAt, PathsOk, Sum;
    forall c | c in Elems(children) ensures |Wire.EncChild(WireChild(c))| == ChildSize(c) {
      PathsSize(c.entries);
    }
    forall c, k: nat | c in Elems(children)
      ensures BytesAt(f, k, Wire.EncChild(WireChild(c))) <==> ChildAt(f, k, c)
    {
      ChildFound(f, k, c);
    }
    BlockFound(f, o, Wire.EncChild, WireChild, ChildSize, ChildAt, children);
  }

  lemma ValuesFound(f: bytes, o: nat, values: View<ValueEntry>)
    requires Readable(values) && forall v :: v in Elems(values) ==> ValueOk(v)
    ensures BytesAt(f, o, Wire.EncBlock(Wire.EncValue, Map(WireValue, Elems(values))))
       <==> BlockAt(f, o, ValueSize, ValueAt, values)
  {
    hide BytesAt, BlockAt, Wire.EncBlock, Map, ValueAt;
    forall v, k: nat | v in Elems(values)
      ensures BytesAt(f, k, Wire.EncValue(WireValue(v))) <==> ValueAt(f, k, v)
    {
      ValueFound(f, k, v);
    }
    BlockFound(f, o, Wire.EncValue, WireValue, ValueSize, ValueAt, values);
  }

  lemma BlanketsFound(f: bytes, o: nat, blankets: View<BlanketEntry>)
    requires Readable(blankets) && forall b :: b in Elems(blankets) ==> BlanketOk(b)
    ensures BytesAt(f, o, Wire.EncBlock(Wire.EncBlanket, Map(WireBlanket, Elems(blankets))))
       <==> BlockAt(f, o, BlanketSize, BlanketAt, blankets)
  {
    hide BytesAt, BlockAt, Wire.EncBlock, Map, BlanketAt;
    forall b, k: nat | b in Elems(blankets)
      ensures BytesAt(f, k, Wire.EncBlanket(WireBlanket(b))) <==> BlanketAt(f, k, b)
    {
      BlanketFound(f, k, b);
    }
    BlockFound(f, o, Wire.EncBlanket, WireBlanket, BlanketSize, BlanketAt, blankets);
  }

  // ---- frames --------------------------------------------------------------------

  /** A frame is its four header fields and its payload, each at its place. */
  lemma FrameFound(u: Uapi, req: Request, r: Response, f: bytes)
    requires Fits(u, req.opCode, r)
    ensures f == Frame(u, req.requestId, req.opCode, r) <==>
              && HeaderAt(f, req, if r.Status? then r.status else u.ok)
              && |f| == FrameLen(r)
              && (r.Success? ==> BytesAt(f, 18, Wire.EncPayload(r.payload)))
  {
    hide U16, U32, U64, Wire.EncPayload, Le16At, Le32At, Le64At;
    var status := if r.Status? then r.status else u.ok;
    var payload := if r.Status? then [] else Wire.EncPayload(r.payload);
    var a, b, c, d := U32(FrameLen(r)), U64(req.requestId), U16(req.opCode + 0x8000), U32(status);
    assert Frame(u, req.requestId, req.opCode, r) == a + b + c + d + payload;
    if |f| == FrameLen(r) {
      WholeAt(f, a + b + c + d + payload);
      AtSplit(f, 0, a + b + c + d, payload);
      AtSplit(f, 0, a + b + c, d);
      AtSplit(f, 0, a + b, c);
      AtSplit(f, 0, a, b);
      U32At(f, 0, FrameLen(r));
      U64At(f, 4, req.requestId);
      U16At(f, 12, req.opCode + 0x8000);
      U32At(f, 14, status);
    }
  }

  lemma WholeAt(f: bytes, s: bytes)
    requires |f| == |s|
    ensures f == s <==> BytesAt(f, 0, s)
  {
    assert f[0..|s|] == f;
  }

  /** Every frame sent, by any helper under any refusals, starts with this header. */
  lemma SentHeader(u: Uapi, req: Option<Request>, call: Call, early: bool, late: bool)
    ensures var out := Outcome(u, req, call, early, late);
            out.Ok? ==> req.Some? && HeaderAt(out.value, req.value, if call.StatusCall? then call.status else u.ok)
  {
    hide Outcome, Frame, HeaderAt, Wire.EncPayload;
    if Outcome(u, req, call, early, late).Ok? {
      SentFrame(u, req, call, early, late);
      FrameFound(u, req.value, ResponseOf(call), Outcome(u, req, call, early, late).value);
    }
  }

  /** What a payload helper sends is determined by the header and the payload bytes. */
  lemma PayloadFound(u: Uapi, req: Request, call: Call, early: bool, late: bool, f: bytes)
    requires !call.StatusCall? && Outcome(u, Some(req), call, early, late).Ok?
    ensures Ok(f) == Outcome(u, Some(req), call, early, late) <==>
              HeaderAt(f, req, u.ok) && |f| == FrameSize(call) && BytesAt(f, 18, Wire.EncPayload(PayloadOf(call)))
  {
    hide Outcome, Frame, FrameLen, FrameSize, BytesAt, HeaderAt, PayloadOf, Wire.EncPayload, Validated, Encodable;
    SentFrame(u, Some(req), call, early, late);
    SizeLaw(u, call);
    FrameFound(u, req, ResponseOf(call), f);
  }

  /** Status frames are the header and nothing more. */
  lemma StatusLayout(u: Uapi, req: Request, status: u32, early: bool, late: bool, f: bytes)
    ensures var out := Outcome(u, Some(req), StatusCall(status), early, late);
            out.Ok? ==> (out == Ok(f) <==> HeaderAt(f, req, status) && |f| == 18)
  {
    hide Outcome, Frame, HeaderAt;
    if Outcome(u, Some(req), StatusCall(status), early, late).Ok? {
      SentFrame(u, Some(req), StatusCall(status), early, late);
      FrameFound(u, req, Status(status), f);
    }
  }

  /** LOOKUP: path entries from byte 18 on, metadata behind them. */
  lemma LookupLayout(u: Uapi, req: Request, es: View<PathEntry>, ms: View<KeyMetadata>, early: bool, late: bool,
                     f: bytes)
    ensures var out := Outcome(u, Some(req), LookupCall(es, ms), early, late);
            out.Ok? ==> (out == Ok(f) <==>
              var second := 22 + Sum(PathSize, Elems(es));
              && HeaderAt(f, req, u.ok)
              && BlockAt(f, 18, PathSize, PathAt, es)
              && BlockAt(f, second, MetadataSize, MetadataAt, ms)
              && |f| == second + 4 + Sum(MetadataSize, Elems(ms)))
  {
    hide Outcome, BytesAt, BlockAt, HeaderAt, Wire.EncBlock, Sum, Map, WirePaths, WireMetadatas;
    if Outcome(u, Some(req), LookupCall(es, ms), early, late).Ok? {
      SentFrame(u, Some(req), LookupCall(es, ms), early, late);
      PayloadFound(u, req, LookupCall(es, ms), early, late, f);
      AtSplit(f, 18, Wire.EncBlock(Wire.EncPathEntry, WirePaths(es)),
              Wire.EncBlock(Wire.EncMetadata, WireMetadatas(ms)));
      PathsSize(es);
      PathsFound(f, 18, es);
      MetadatasFound(f, 22 + Sum(PathSize, Elems(es)), ms);
    }
  }

  /** ENUM_CHILDREN: children with their nested entry blocks from byte 18 on, metadata behind them. */
  lemma EnumChildrenLayout(u: Uapi, req: Request, cs: View<ChildEntry>, ms: View<KeyMetadata>,
                           early: bool, late: bool, f: bytes)
    ensures var out := Outcome(u, Some(req), EnumChildrenCall(cs, ms), early, late);
            out.Ok? ==> (out == Ok(f) <==>
              var second := 22 + Sum(ChildSize, Elems(cs));
              && HeaderAt(f, req, u.ok)
              && BlockAt(f, 18, ChildSize, ChildAt, cs)
              && BlockAt(f, second, MetadataSize, MetadataAt, ms)
              && |f| == second + 4 + Sum(MetadataSize, Elems(ms)))
  {
    hide Outcome, BytesAt, BlockAt, HeaderAt, Wire.EncBlock, Sum, Map, WireMetadatas, ChildOk;
    if Outcome(u, Some(req), EnumChildrenCall(cs, ms), early, late).Ok? {
      SentFrame(u, Some(req), EnumChildrenCall(cs, ms), early, late);
      PayloadFound(u, req, EnumChildrenCall(cs, ms), early, late, f);
      AtSplit(f, 18, Wire.EncBlock(Wire.EncChild, Map(WireChild, Elems(cs))),
              Wire.EncBlock(Wire.EncMetadata, WireMetadatas(ms)));
      ChildrenSize(cs);
      ChildrenFound(f, 18, cs);
      MetadatasFound(f, 22 + Sum(ChildSize, Elems(cs)), ms);
    }
  }

  /** QUERY_VALUES: values from byte 18 on, blankets behind them. */
  lemma QueryValuesLayout(u: Uapi, req: Request, vs: View<ValueEntry>, bs: View<BlanketEntry>,
                          early: bool, late: bool, f: bytes)
    ensures var out := Outcome(u, Some(req), QueryValuesCall(vs, bs), early, late);
            out.Ok? ==> (out == Ok(f) <==>
              var second := 22 + Sum(ValueSize, Elems(vs));
              && HeaderAt(f, req, u.ok)
              && BlockAt(f, 18, ValueSize, ValueAt, vs)
              && BlockAt(f, second, BlanketSize, BlanketAt, bs)
              && |f| == second + 4 + Sum(BlanketSize, Elems(bs)))
  {
    hide Outcome, BytesAt, BlockAt, HeaderAt, Wire.EncBlock, Sum, Map, ValueOk, BlanketOk;
    if Outcome(u, Some(req), QueryValuesCall(vs, bs), early, late).Ok? {
      SentFrame(u, Some(req), QueryValuesCall(vs, bs), early, late);
      PayloadFound(u, req, QueryValuesCall(vs, bs), early, late, f);
      AtSplit(f, 18, Wire.EncBlock(Wire.EncValue, Map(WireValue, Elems(vs))),
              Wire.EncBlock(Wire.EncBlanket, Map(WireBlanket, Elems(bs))));
      ValuesSize(vs);
      ValuesFound(f, 18, vs);
      BlanketsFound(f, 22 + Sum(ValueSize, Elems(vs)), bs);
    }
  }

  /** READ_KEY: name, parent GUID, security descriptor, volatile flag, symlink flag, last write time. */
  lemma ReadKeyLayout(u: Uapi, req: Request, name: View<byte>, parent: Guid, sd: View<byte>,
                      volatileKey: byte, symlink: byte, time: u64, early: bool, late: bool, f: bytes)
    ensures var call := ReadKeyCall(name, Some(parent), sd, volatileKey, symlink, time);
            var out := Outcome(u, Some(req), call, early, late);
            out.Ok? ==> (out == Ok(f) <==>
              var guid := 22 + Count(name);
              var flags := guid + 20 + Count(sd);
              && HeaderAt(f, req, u.ok)
              && FieldAt(f, 18, name) && BytesAt(f, guid, parent) && FieldAt(f, guid + 16, sd)
              && BytesAt(f, flags, [volatileKey]) && BytesAt(f, flags + 1, [symlink]) && Le64At(f, flags + 2, time)
              && |f| == flags + 10)
  {
    hide Outcome, BytesAt, FieldAt, HeaderAt, Le64At, U64;
    var call := ReadKeyCall(name, Some(parent), sd, volatileKey, symlink, time);
    if Outcome(u, Some(req), call, early, late).Ok? {
      SentFrame(u, Some(req), call, early, late);
      PayloadFound(u, req, call, early, late, f);
      var n, d := Wire.EncField(Elems(name)), Wire.EncField(Elems(sd));
      AtSplit(f, 18, n + parent + d + [volatileKey] + [symlink], U64(time));
      AtSplit(f, 18, n + parent + d + [volatileKey], [symlink]);
      AtSplit(f, 18, n + parent + d, [volatileKey]);
      AtSplit(f, 18, n + parent, d);
      AtSplit(f, 18, n, parent);
      FieldFound(f, 18, name);
      FieldFound(f, 38 + Count(name), sd);
      U64At(f, 44 + Count(name) + Count(sd), time);
    }
  }

  /** DELETE_LAYER: the count, then the caller's own bytes in the caller's order. */
  lemma DeleteLayerLayout(u: Uapi, req: Request, orphans: GuidArray, early: bool, late: bool, f: bytes)
    ensures var out := Outcome(u, Some(req), DeleteLayerCall(orphans), early, late);
            out.Ok? ==> (out == Ok(f) <==>
              && HeaderAt(f, req, u.ok)
              && Le32At(f, 18, GuidCount(orphans))
              && (orphans.Guids? ==> BytesAt(f, 22, orphans.raw))
              && |f| == 22 + 16 * GuidCount(orphans))
  {
    hide Outcome, HeaderAt, Le32At, U32, PayloadOf, Wire.EncPayload, Frame, FrameLen, Fits, Chunks, Distinct;
    if Outcome(u, Some(req), DeleteLayerCall(orphans), early, late).Ok? {
      SentFrame(u, Some(req), DeleteLayerCall(orphans), early, late);
      PayloadFound(u, req, DeleteLayerCall(orphans), early, late, f);
      DeleteLayerBytes(u.usizeMax, orphans);
      AtSplit(f, 18, U32(GuidCount(orphans)), if orphans.Guids? then orphans.raw else []);
      U32At(f, 18, GuidCount(orphans));
    }
  }
}
