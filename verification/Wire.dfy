/**
 * The wire image of a success payload: what each record looks like as bytes, and the
 * decoder that reads it back. Every decoder comes with two lemmas: `...Back` (decoding
 * an encoding returns the value and leaves the rest) and `...Only` (whatever decodes is
 * exactly the encoding of what was returned).
 */
module Wire {
  import opened Base
  import opened LittleEndian

  /** A name or data field: at most 2^32-1 bytes, sent with a u32 length in front. */
  type Field = List<byte>

  datatype PathEntry = PathEntry(layer: Field, targetType: byte, targetGuid: Guid, sequence: u64)
  datatype KeyMetadata = KeyMetadata(guid: Guid, sd: Field, volatileKey: byte, symlink: byte, lastWriteTime: u64)
  datatype Child = Child(name: Field, entries: List<PathEntry>)
  datatype Value = Value(valueName: Field, layerName: Field, valueType: u32, data: Field, sequence: u64)
  datatype Blanket = Blanket(layerName: Field, sequence: u64)

  datatype Payload =
    | Lookup(entries: List<PathEntry>, metadata: List<KeyMetadata>)
    | EnumChildren(children: List<Child>, childMetadata: List<KeyMetadata>)
    | ReadKey(name: Field, parentGuid: Guid, sd: Field, volatileKey: byte, symlink: byte, lastWriteTime: u64)
    | DeleteLayer(orphans: List<Guid>)
    | QueryValues(values: List<Value>, blankets: List<Blanket>)

  // ---- encoders --------------------------------------------------------------

  function EncField(f: Field): bytes { U32(|f|) + f }

  function EncGuid(g: Guid): bytes { g }

  function EncPathEntry(e: PathEntry): bytes {
    EncField(e.layer) + [e.targetType] + e.targetGuid + U64(e.sequence)
  }

  function EncMetadata(m: KeyMetadata): bytes {
    m.guid + EncField(m.sd) + [m.volatileKey] + [m.symlink] + U64(m.lastWriteTime)
  }

  function EncMany<T>(enc: T -> bytes, xs: seq<T>): bytes {
    if xs == [] then [] else enc(xs[0]) + EncMany(enc, xs[1..])
  }

  /** A `[count][entries...]` block. */
  function EncBlock<T>(enc: T -> bytes, xs: List<T>): bytes {
    U32(|xs|) + EncMany(enc, xs)
  }

  function EncChild(c: Child): bytes {
    EncField(c.name) + EncBlock(EncPathEntry, c.entries)
  }

  function EncValue(v: Value): bytes {
    EncField(v.valueName) + EncField(v.layerName) + U32(v.valueType) + EncField(v.data) + U64(v.sequence)
  }

  function EncBlanket(b: Blanket): bytes {
    EncField(b.layerName) + U64(b.sequence)
  }

  function EncReadKey(name: Field, parentGuid: Guid, sd: Field, volatileKey: byte, symlink: byte,
                      lastWriteTime: u64): bytes {
    EncField(name) + parentGuid + EncField(sd) + [volatileKey] + [symlink] + U64(lastWriteTime)
  }

  function EncTwoBlocks<A, B>(encA: A -> bytes, xs: List<A>, encB: B -> bytes, ys: List<B>): bytes {
    EncBlock(encA, xs) + EncBlock(encB, ys)
  }

  function EncPayload(p: Payload): bytes {
    match p
    case Lookup(es, ms) => EncTwoBlocks(EncPathEntry, es, EncMetadata, ms)
    case EnumChildren(cs, ms) => EncTwoBlocks(EncChild, cs, EncMetadata, ms)
    case ReadKey(n, g, sd, v, s, t) => EncReadKey(n, g, sd, v, s, t)
    case DeleteLayer(gs) => EncBlock(EncGuid, gs)
    case QueryValues(vs, bs) => EncTwoBlocks(EncValue, vs, EncBlanket, bs)
  }

  /** Appending one record to a block's body. */
  lemma {:induction false} EncManySnoc<T>(enc: T -> bytes, xs: seq<T>, x: T)
    ensures EncMany(enc, xs + [x]) == EncMany(enc, xs) + enc(x)
  {
    if xs == [] {
      assert (xs + [x])[1..] == [];
    } else {
      EncManySnoc(enc, xs[1..], x);
      assert (xs + [x])[1..] == xs[1..] + [x];
    }
  }

  // ---- decoders --------------------------------------------------------------

  /** A decoder consumes a prefix and returns what follows it. */
  type Decoder<T> = bytes -> Option<(T, bytes)>

  function DecU8(s: bytes): Option<(byte, bytes)> {
    if s == [] then None else Some((s[0], s[1..]))
  }

  function DecU32(s: bytes): Option<(u32, bytes)> {
    if |s| < 4 then None else Some((AsU32(s[..4]), s[4..]))
  }

  function DecU64(s: bytes): Option<(u64, bytes)> {
    if |s| < 8 then None else Some((AsU64(s[..8]), s[8..]))
  }

  function DecGuid(s: bytes): Option<(Guid, bytes)> {
    if |s| < 16 then None else Some((s[..16], s[16..]))
  }

  function DecField(s: bytes): Option<(Field, bytes)> {
    var (n, s1) :- DecU32(s);
    if |s1| < n then None else Some((s1[..n], s1[n..]))
  }

  function DecPathEntry(s: bytes): Option<(PathEntry, bytes)> {
    var (layer, s1) :- DecField(s);
    var (tag, s2) :- DecU8(s1);
    var (guid, s3) :- DecGuid(s2);
    var (sequence, s4) :- DecU64(s3);
    Some((PathEntry(layer, tag, guid, sequence), s4))
  }

  function DecMetadata(s: bytes): Option<(KeyMetadata, bytes)> {
    var (guid, s1) :- DecGuid(s);
    var (sd, s2) :- DecField(s1);
    var (vol, s3) :- DecU8(s2);
    var (sym, s4) :- DecU8(s3);
    var (time, s5) :- DecU64(s4);
    Some((KeyMetadata(guid, sd, vol, sym, time), s5))
  }

  function DecMany<T>(dec: Decoder<T>, n: nat, s: bytes): (r: Option<(seq<T>, bytes)>)
    ensures r.Some? ==> |r.value.0| == n
  {
    if n == 0 then Some(([], s))
    else
      var (x, s1) :- dec(s);
      var (xs, s2) :- DecMany(dec, n - 1, s1);
      Some(([x] + xs, s2))
  }

  function DecBlock<T>(dec: Decoder<T>, s: bytes): Option<(List<T>, bytes)> {
    var (n, s1) :- DecU32(s);
    var (xs, s2) :- DecMany(dec, n, s1);
    Some((xs, s2))
  }

  function DecChild(s: bytes): Option<(Child, bytes)> {
    var (name, s1) :- DecField(s);
    var (entries, s2) :- DecBlock(DecPathEntry, s1);
    Some((Child(name, entries), s2))
  }

  function DecValue(s: bytes): Option<(Value, bytes)> {
    var (name, s1) :- DecField(s);
    var (layer, s2) :- DecField(s1);
    var (kind, s3) :- DecU32(s2);
    var (data, s4) :- DecField(s3);
    var (sequence, s5) :- DecU64(s4);
    Some((Value(name, layer, kind, data, sequence), s5))
  }

  function DecBlanket(s: bytes): Option<(Blanket, bytes)> {
    var (layer, s1) :- DecField(s);
    var (sequence, s2) :- DecU64(s1);
    Some((Blanket(layer, sequence), s2))
  }

  function DecReadKey(s: bytes): Option<(Payload, bytes)> {
    var (name, s1) :- DecField(s);
    var (guid, s2) :- DecGuid(s1);
    var (sd, s3) :- DecField(s2);
    var (vol, s4) :- DecU8(s3);
    var (sym, s5) :- DecU8(s4);
    var (time, s6) :- DecU64(s5);
    Some((ReadKey(name, guid, sd, vol, sym, time), s6))
  }

  function DecTwoBlocks<A, B>(decA: Decoder<A>, decB: Decoder<B>, s: bytes): Option<((List<A>, List<B>), bytes)> {
    var (xs, s1) :- DecBlock(decA, s);
    var (ys, s2) :- DecBlock(decB, s1);
    Some(((xs, ys), s2))
  }

  /** Which of the five payload layouts to read. */
  datatype Shape = LookupShape | EnumChildrenShape | ReadKeyShape | DeleteLayerShape | QueryValuesShape

  function ShapeOf(p: Payload): Shape {
    match p
    case Lookup(_, _) => LookupShape
    case EnumChildren(_, _) => EnumChildrenShape
    case ReadKey(_, _, _, _, _, _) => ReadKeyShape
    case DeleteLayer(_) => DeleteLayerShape
    case QueryValues(_, _) => QueryValuesShape
  }

  function DecLookup(s: bytes): Option<(Payload, bytes)> {
    var (p, rest) :- DecTwoBlocks(DecPathEntry, DecMetadata, s);
    Some((Lookup(p.0, p.1), rest))
  }

  function DecEnumChildren(s: bytes): Option<(Payload, bytes)> {
    var (p, rest) :- DecTwoBlocks(DecChild, DecMetadata, s);
    Some((EnumChildren(p.0, p.1), rest))
  }

  function DecQueryValues(s: bytes): Option<(Payload, bytes)> {
    var (p, rest) :- DecTwoBlocks(DecValue, DecBlanket, s);
    Some((QueryValues(p.0, p.1), rest))
  }

  function DecDeleteLayer(s: bytes): Option<(Payload, bytes)> {
    var (gs, rest) :- DecBlock(DecGuid, s);
    Some((DeleteLayer(gs), rest))
  }

  function DecShape(shape: Shape, s: bytes): Option<(Payload, bytes)> {
    match shape
    case LookupShape => DecLookup(s)
    case EnumChildrenShape => DecEnumChildren(s)
    case ReadKeyShape => DecReadKey(s)
    case DeleteLayerShape => DecDeleteLayer(s)
    case QueryValuesShape => DecQueryValues(s)
  }

  /** A whole payload: the layout must account for every byte. */
  function DecPayload(shape: Shape, s: bytes): Option<Payload> {
    var (p, rest) :- DecShape(shape, s);
    if rest == [] then Some(p) else None
  }

  // ---- primitives ------------------------------------------------------------

  lemma U8Back(x: byte, rest: bytes)
    ensures DecU8([x] + rest) == Some((x, rest))
  {
    assert ([x] + rest)[1..] == rest;
  }

  lemma U32Back(x: u32, rest: bytes)
    ensures DecU32(U32(x) + rest) == Some((x, rest))
  {
    var s := U32(x) + rest;
    assert s[..4] == U32(x) && s[4..] == rest;
    U32Inverse(x, s[..4]);
  }

  lemma U64Back(x: u64, rest: bytes)
    ensures DecU64(U64(x) + rest) == Some((x, rest))
  {
    var s := U64(x) + rest;
    assert s[..8] == U64(x) && s[8..] == rest;
    U64Inverse(x, s[..8]);
  }

  lemma GuidBack(g: Guid, rest: bytes)
    ensures DecGuid(EncGuid(g) + rest) == Some((g, rest))
  {
    assert (g + rest)[..16] == g && (g + rest)[16..] == rest;
  }

  lemma FieldBack(f: Field, rest: bytes)
    ensures DecField(EncField(f) + rest) == Some((f, rest))
  {
    assert EncField(f) + rest == U32(|f|) + (f + rest);
    U32Back(|f|, f + rest);
    assert (f + rest)[..|f|] == f && (f + rest)[|f|..] == rest;
  }

  lemma U8Only(s: bytes)
    ensures DecU8(s).Some? ==> s == [DecU8(s).value.0] + DecU8(s).value.1
  {
  }

  lemma U32Only(s: bytes)
    ensures DecU32(s).Some? ==> s == U32(DecU32(s).value.0) + DecU32(s).value.1
  {
    if DecU32(s).Some? {
      U32Inverse(AsU32(s[..4]), s[..4]);
      assert s == s[..4] + s[4..];
    }
  }

  lemma U64Only(s: bytes)
    ensures DecU64(s).Some? ==> s == U64(DecU64(s).value.0) + DecU64(s).value.1
  {
    if DecU64(s).Some? {
      U64Inverse(AsU64(s[..8]), s[..8]);
      assert s == s[..8] + s[8..];
    }
  }

  lemma GuidOnly(s: bytes)
    ensures DecGuid(s).Some? ==> s == EncGuid(DecGuid(s).value.0) + DecGuid(s).value.1
  {
    if DecGuid(s).Some? { assert s == s[..16] + s[16..]; }
  }

  lemma FieldOnly(s: bytes)
    ensures DecField(s).Some? ==> s == EncField(DecField(s).value.0) + DecField(s).value.1
  {
    hide U32, DecU32;
    U32Only(s);
    if DecField(s).Some? {
      var (n, s1) := DecU32(s).value;
      assert s1 == s1[..n] + s1[n..];
      assert s == U32(n) + (s1[..n] + s1[n..]);
    }
  }

  // ---- records ---------------------------------------------------------------

  lemma PathEntryBack(e: PathEntry, rest: bytes)
    ensures DecPathEntry(EncPathEntry(e) + rest) == Some((e, rest))
  {
    var s3 := U64(e.sequence) + rest;
    var s2 := e.targetGuid + s3;
    var s1 := [e.targetType] + s2;
    Regroup5(EncField(e.layer), [e.targetType], e.targetGuid, U64(e.sequence), rest);
    FieldBack(e.layer, s1);
    U8Back(e.targetType, s2);
    GuidBack(e.targetGuid, s3);
    U64Back(e.sequence, rest);
  }

  lemma PathEntryOnly(s: bytes)
    ensures DecPathEntry(s).Some? ==> s == EncPathEntry(DecPathEntry(s).value.0) + DecPathEntry(s).value.1
  {
    if DecPathEntry(s).Some? {
      var (layer, s1) := DecField(s).value; FieldOnly(s);
      var (tag, s2) := DecU8(s1).value; U8Only(s1);
      var (guid, s3) := DecGuid(s2).value; GuidOnly(s2);
      var (n, s4) := DecU64(s3).value; U64Only(s3);
      Regroup5(EncField(layer), [tag], guid, U64(n), s4);
    }
  }

  lemma MetadataBack(m: KeyMetadata, rest: bytes)
    ensures DecMetadata(EncMetadata(m) + rest) == Some((m, rest))
  {
    var s4 := U64(m.lastWriteTime) + rest;
    var s3 := [m.symlink] + s4;
    var s2 := [m.volatileKey] + s3;
    var s1 := EncField(m.sd) + s2;
    Regroup6(m.guid, EncField(m.sd), [m.volatileKey], [m.symlink], U64(m.lastWriteTime), rest);
    GuidBack(m.guid, s1);
    FieldBack(m.sd, s2);
    U8Back(m.volatileKey, s3);
    U8Back(m.symlink, s4);
    U64Back(m.lastWriteTime, rest);
  }

  lemma MetadataOnly(s: bytes)
    ensures DecMetadata(s).Some? ==> s == EncMetadata(DecMetadata(s).value.0) + DecMetadata(s).value.1
  {
    if DecMetadata(s).Some? {
      var (guid, s1) := DecGuid(s).value; GuidOnly(s);
      var (sd, s2) := DecField(s1).value; FieldOnly(s1);
      var (vol, s3) := DecU8(s2).value; U8Only(s2);
      var (sym, s4) := DecU8(s3).value; U8Only(s3);
      var (time, s5) := DecU64(s4).value; U64Only(s4);
      Regroup6(guid, EncField(sd), [vol], [sym], U64(time), s5);
    }
  }

  lemma ValueBack(v: Value, rest: bytes)
    ensures DecValue(EncValue(v) + rest) == Some((v, rest))
  {
    var s4 := U64(v.sequence) + rest;
    var s3 := EncField(v.data) + s4;
    var s2 := U32(v.valueType) + s3;
    var s1 := EncField(v.layerName) + s2;
    Regroup6(EncField(v.valueName), EncField(v.layerName), U32(v.valueType), EncField(v.data), U64(v.sequence), rest);
    FieldBack(v.valueName, s1);
    FieldBack(v.layerName, s2);
    U32Back(v.valueType, s3);
    FieldBack(v.data, s4);
    U64Back(v.sequence, rest);
  }

  lemma ValueOnly(s: bytes)
    ensures DecValue(s).Some? ==> s == EncValue(DecValue(s).value.0) + DecValue(s).value.1
  {
    if DecValue(s).Some? {
      var (name, s1) := DecField(s).value; FieldOnly(s);
      var (layer, s2) := DecField(s1).value; FieldOnly(s1);
      var (kind, s3) := DecU32(s2).value; U32Only(s2);
      var (data, s4) := DecField(s3).value; FieldOnly(s3);
      var (n, s5) := DecU64(s4).value; U64Only(s4);
      Regroup6(EncField(name), EncField(layer), U32(kind), EncField(data), U64(n), s5);
    }
  }

  lemma BlanketBack(b: Blanket, rest: bytes)
    ensures DecBlanket(EncBlanket(b) + rest) == Some((b, rest))
  {
    assert EncBlanket(b) + rest == EncField(b.layerName) + (U64(b.sequence) + rest);
    FieldBack(b.layerName, U64(b.sequence) + rest);
    U64Back(b.sequence, rest);
  }

  lemma BlanketOnly(s: bytes)
    ensures DecBlanket(s).Some? ==> s == EncBlanket(DecBlanket(s).value.0) + DecBlanket(s).value.1
  {
    hide U64, EncField, DecField, DecU64;
    if DecBlanket(s).Some? {
      var (layer, s1) := DecField(s).value; FieldOnly(s);
      var (n, s2) := DecU64(s1).value; U64Only(s1);
      assert EncField(layer) + U64(n) + s2 == EncField(layer) + (U64(n) + s2);
    }
  }

  lemma ReadKeyBack(p: Payload, rest: bytes)
    requires p.ReadKey?
    ensures DecReadKey(EncPayload(p) + rest) == Some((p, rest))
  {
    var s5 := U64(p.lastWriteTime) + rest;
    var s4 := [p.symlink] + s5;
    var s3 := [p.volatileKey] + s4;
    var s2 := EncField(p.sd) + s3;
    var s1 := p.parentGuid + s2;
    Regroup7(EncField(p.name), p.parentGuid, EncField(p.sd), [p.volatileKey], [p.symlink], U64(p.lastWriteTime), rest);
    FieldBack(p.name, s1);
    GuidBack(p.parentGuid, s2);
    FieldBack(p.sd, s3);
    U8Back(p.volatileKey, s4);
    U8Back(p.symlink, s5);
    U64Back(p.lastWriteTime, rest);
  }

  lemma ReadKeyOnly(s: bytes)
    ensures var r := DecReadKey(s);
            r.Some? ==> r.value.0.ReadKey? && s == EncPayload(r.value.0) + r.value.1
  {
    if DecReadKey(s).Some? {
      var (name, s1) := DecField(s).value; FieldOnly(s);
      var (guid, s2) := DecGuid(s1).value; GuidOnly(s1);
      var (sd, s3) := DecField(s2).value; FieldOnly(s2);
      var (vol, s4) := DecU8(s3).value; U8Only(s3);
      var (sym, s5) := DecU8(s4).value; U8Only(s4);
      var (time, s6) := DecU64(s5).value; U64Only(s5);
      Regroup7(EncField(name), guid, EncField(sd), [vol], [sym], U64(time), s6);
    }
  }

  // ---- counted blocks --------------------------------------------------------

  /** `dec` reads `enc` back, whatever follows. */
  ghost predicate Back<T(!new)>(enc: T -> bytes, dec: Decoder<T>) {
    forall x: T, rest: bytes :: dec(enc(x) + rest) == Some((x, rest))
  }

  /** `dec` accepts nothing but what `enc` produces. */
  ghost predicate Only<T>(enc: T -> bytes, dec: Decoder<T>) {
    forall s: bytes :: dec(s).Some? ==> s == enc(dec(s).value.0) + dec(s).value.1
  }

  lemma {:induction false} ManyBack<T(!new)>(enc: T -> bytes, dec: Decoder<T>, xs: seq<T>, rest: bytes)
    requires Back(enc, dec)
    ensures DecMany(dec, |xs|, EncMany(enc, xs) + rest) == Some((xs, rest))
  {
    if xs == [] {
      assert EncMany(enc, xs) + rest == rest;
    } else {
      var tail := EncMany(enc, xs[1..]) + rest;
      Regroup3(enc(xs[0]), EncMany(enc, xs[1..]), rest);
      ManyBack(enc, dec, xs[1..], rest);
      assert xs == [xs[0]] + xs[1..];
    }
  }

  lemma {:induction false} ManyOnly<T(!new)>(enc: T -> bytes, dec: Decoder<T>, n: nat, s: bytes)
    requires Only(enc, dec)
    ensures var r := DecMany(dec, n, s);
            r.Some? ==> s == EncMany(enc, r.value.0) + r.value.1
    decreases n
  {
    var r := DecMany(dec, n, s);
    if r.Some? && n > 0 {
      var (x, s1) := dec(s).value;
      ManyOnly(enc, dec, n - 1, s1);
      var (xs, s2) := DecMany(dec, n - 1, s1).value;
      assert r.value.0[1..] == xs;
      assert enc(x) + EncMany(enc, xs) + s2 == enc(x) + (EncMany(enc, xs) + s2);
    }
  }

  lemma BlockBack<T(!new)>(enc: T -> bytes, dec: Decoder<T>, xs: List<T>, rest: bytes)
    requires Back(enc, dec)
    ensures DecBlock(dec, EncBlock(enc, xs) + rest) == Some((xs, rest))
  {
    var body := EncMany(enc, xs) + rest;
    assert EncBlock(enc, xs) + rest == U32(|xs|) + body;
    U32Back(|xs|, body);
    ManyBack(enc, dec, xs, rest);
  }

  lemma BlockOnly<T(!new)>(enc: T -> bytes, dec: Decoder<T>, s: bytes)
    requires Only(enc, dec)
    ensures var r := DecBlock(dec, s);
            r.Some? ==> s == EncBlock(enc, r.value.0) + r.value.1
  {
    if DecBlock(dec, s).Some? {
      var (n, s1) := DecU32(s).value; U32Only(s);
      var (xs, s2) := DecMany(dec, n, s1).value; ManyOnly(enc, dec, n, s1);
      assert U32(n) + EncMany(enc, xs) + s2 == U32(n) + (EncMany(enc, xs) + s2);
    }
  }

  lemma TwoBlocksBack<A(!new), B(!new)>(encA: A -> bytes, decA: Decoder<A>, encB: B -> bytes, decB: Decoder<B>,
                                        xs: List<A>, ys: List<B>, rest: bytes)
    requires Back(encA, decA) && Back(encB, decB)
    ensures DecTwoBlocks(decA, decB, EncTwoBlocks(encA, xs, encB, ys) + rest) == Some(((xs, ys), rest))
  {
    hide EncBlock, DecBlock;
    var tail := EncBlock(encB, ys) + rest;
    Regroup3(EncBlock(encA, xs), EncBlock(encB, ys), rest);
    BlockBack(encA, decA, xs, tail);
    BlockBack(encB, decB, ys, rest);
  }

  lemma TwoBlocksOnly<A(!new), B(!new)>(encA: A -> bytes, decA: Decoder<A>, encB: B -> bytes, decB: Decoder<B>,
                                        s: bytes)
    requires Only(encA, decA) && Only(encB, decB)
    ensures var r := DecTwoBlocks(decA, decB, s);
            r.Some? ==> s == EncTwoBlocks(encA, r.value.0.0, encB, r.value.0.1) + r.value.1
  {
    hide EncBlock, DecBlock;
    if DecTwoBlocks(decA, decB, s).Some? {
      var (xs, s1) := DecBlock(decA, s).value; BlockOnly(encA, decA, s);
      var (ys, s2) := DecBlock(decB, s1).value; BlockOnly(encB, decB, s1);
      assert EncBlock(encA, xs) + EncBlock(encB, ys) + s2 == EncBlock(encA, xs) + (EncBlock(encB, ys) + s2);
    }
  }

  lemma ChildBack(c: Child, rest: bytes)
    ensures DecChild(EncChild(c) + rest) == Some((c, rest))
  {
    var tail := EncBlock(EncPathEntry, c.entries) + rest;
    assert EncChild(c) + rest == EncField(c.name) + tail;
    FieldBack(c.name, tail);
    PathEntryExact();
    BlockBack(EncPathEntry, DecPathEntry, c.entries, rest);
  }

  lemma ChildOnly(s: bytes)
    ensures DecChild(s).Some? ==> s == EncChild(DecChild(s).value.0) + DecChild(s).value.1
  {
    if DecChild(s).Some? {
      var (name, s1) := DecField(s).value; FieldOnly(s);
      PathEntryExact();
      var (es, s2) := DecBlock(DecPathEntry, s1).value; BlockOnly(EncPathEntry, DecPathEntry, s1);
      assert EncField(name) + EncBlock(EncPathEntry, es) + s2 == EncField(name) + (EncBlock(EncPathEntry, es) + s2);
    }
  }

  lemma PathEntryExact()
    ensures Back(EncPathEntry, DecPathEntry) && Only(EncPathEntry, DecPathEntry)
  {
    forall x, rest { PathEntryBack(x, rest); }
    forall s { PathEntryOnly(s); }
  }

  lemma MetadataExact()
    ensures Back(EncMetadata, DecMetadata) && Only(EncMetadata, DecMetadata)
  {
    forall x, rest { MetadataBack(x, rest); }
    forall s { MetadataOnly(s); }
  }

  lemma GuidExact()
    ensures Back(EncGuid, DecGuid) && Only(EncGuid, DecGuid)
  {
    forall x, rest { GuidBack(x, rest); }
    forall s { GuidOnly(s); }
  }

  lemma ValueExact()
    ensures Back(EncValue, DecValue) && Only(EncValue, DecValue)
  {
    forall x, rest { ValueBack(x, rest); }
    forall s { ValueOnly(s); }
  }

  lemma BlanketExact()
    ensures Back(EncBlanket, DecBlanket) && Only(EncBlanket, DecBlanket)
  {
    forall x, rest { BlanketBack(x, rest); }
    forall s { BlanketOnly(s); }
  }

  lemma ChildExact()
    ensures Back(EncChild, DecChild) && Only(EncChild, DecChild)
  {
    forall x, rest { ChildBack(x, rest); }
    forall s { ChildOnly(s); }
  }

  // ---- payloads --------------------------------------------------------------

  lemma LookupBack(xs: List<PathEntry>, ys: List<KeyMetadata>, rest: bytes)
    ensures DecLookup(EncTwoBlocks(EncPathEntry, xs, EncMetadata, ys) + rest) == Some((Lookup(xs, ys), rest))
  {
    assert DecTwoBlocks(DecPathEntry, DecMetadata, EncTwoBlocks(EncPathEntry, xs, EncMetadata, ys) + rest)
        == Some(((xs, ys), rest)) by {
      PathEntryExact(); MetadataExact();
      TwoBlocksBack(EncPathEntry, DecPathEntry, EncMetadata, DecMetadata, xs, ys, rest);
    }
  }

  lemma LookupOnly(s: bytes)
    ensures var r := DecLookup(s);
            r.Some? ==>
              && r.value.0.Lookup?
              && s == EncTwoBlocks(EncPathEntry, r.value.0.entries, EncMetadata, r.value.0.metadata) + r.value.1
  {
    var r := DecTwoBlocks(DecPathEntry, DecMetadata, s);
    assert r.Some? ==> s == EncTwoBlocks(EncPathEntry, r.value.0.0, EncMetadata, r.value.0.1) + r.value.1 by {
      PathEntryExact(); MetadataExact();
      TwoBlocksOnly(EncPathEntry, DecPathEntry, EncMetadata, DecMetadata, s);
    }
  }

  lemma EnumChildrenBack(xs: List<Child>, ys: List<KeyMetadata>, rest: bytes)
    ensures DecEnumChildren(EncTwoBlocks(EncChild, xs, EncMetadata, ys) + rest) == Some((EnumChildren(xs, ys), rest))
  {
    assert DecTwoBlocks(DecChild, DecMetadata, EncTwoBlocks(EncChild, xs, EncMetadata, ys) + rest)
        == Some(((xs, ys), rest)) by {
      ChildExact(); MetadataExact();
      TwoBlocksBack(EncChild, DecChild, EncMetadata, DecMetadata, xs, ys, rest);
    }
  }

  lemma EnumChildrenOnly(s: bytes)
    ensures var r := DecEnumChildren(s);
            r.Some? ==>
              && r.value.0.EnumChildren?
              && s == EncTwoBlocks(EncChild, r.value.0.children, EncMetadata, r.value.0.childMetadata) + r.value.1
  {
    var r := DecTwoBlocks(DecChild, DecMetadata, s);
    assert r.Some? ==> s == EncTwoBlocks(EncChild, r.value.0.0, EncMetadata, r.value.0.1) + r.value.1 by {
      ChildExact(); MetadataExact();
      TwoBlocksOnly(EncChild, DecChild, EncMetadata, DecMetadata, s);
    }
  }

  lemma QueryValuesBack(xs: List<Value>, ys: List<Blanket>, rest: bytes)
    ensures DecQueryValues(EncTwoBlocks(EncValue, xs, EncBlanket, ys) + rest) == Some((QueryValues(xs, ys), rest))
  {
    assert DecTwoBlocks(DecValue, DecBlanket, EncTwoBlocks(EncValue, xs, EncBlanket, ys) + rest)
        == Some(((xs, ys), rest)) by {
      ValueExact(); BlanketExact();
      TwoBlocksBack(EncValue, DecValue, EncBlanket, DecBlanket, xs, ys, rest);
    }
  }

  lemma QueryValuesOnly(s: bytes)
    ensures var r := DecQueryValues(s);
            r.Some? ==>
              && r.value.0.QueryValues?
              && s == EncTwoBlocks(EncValue, r.value.0.values, EncBlanket, r.value.0.blankets) + r.value.1
  {
    var r := DecTwoBlocks(DecValue, DecBlanket, s);
    assert r.Some? ==> s == EncTwoBlocks(EncValue, r.value.0.0, EncBlanket, r.value.0.1) + r.value.1 by {
      ValueExact(); BlanketExact();
      TwoBlocksOnly(EncValue, DecValue, EncBlanket, DecBlanket, s);
    }
  }

  lemma DeleteLayerBack(gs: List<Guid>, rest: bytes)
    ensures DecDeleteLayer(EncPayload(DeleteLayer(gs)) + rest) == Some((DeleteLayer(gs), rest))
  {
    GuidExact();
    BlockBack(EncGuid, DecGuid, gs, rest);
  }

  lemma DeleteLayerOnly(s: bytes)
    ensures var r := DecDeleteLayer(s);
            r.Some? ==> r.value.0.DeleteLayer? && s == EncPayload(r.value.0) + r.value.1
  {
    GuidExact();
    BlockOnly(EncGuid, DecGuid, s);
  }

  lemma ShapeBack(p: Payload, rest: bytes)
    ensures DecShape(ShapeOf(p), EncPayload(p) + rest) == Some((p, rest))
  {
    hide EncTwoBlocks, EncReadKey, DecLookup, DecEnumChildren, DecReadKey, DecDeleteLayer, DecQueryValues;
    match p
    case Lookup(es, ms) => LookupBack(es, ms, rest);
    case EnumChildren(cs, ms) => EnumChildrenBack(cs, ms, rest);
    case ReadKey(_, _, _, _, _, _) => ReadKeyBack(p, rest);
    case DeleteLayer(gs) => DeleteLayerBack(gs, rest);
    case QueryValues(vs, bs) => QueryValuesBack(vs, bs, rest);
  }

  lemma ShapeOnly(shape: Shape, s: bytes)
    ensures var r := DecShape(shape, s);
            r.Some? ==> ShapeOf(r.value.0) == shape && s == EncPayload(r.value.0) + r.value.1
  {
    hide EncTwoBlocks, EncReadKey, EncBlock, DecLookup, DecEnumChildren, DecReadKey, DecDeleteLayer, DecQueryValues;
    match shape
    case LookupShape => LookupOnly(s);
    case EnumChildrenShape => EnumChildrenOnly(s);
    case ReadKeyShape => ReadKeyOnly(s);
    case DeleteLayerShape => DeleteLayerOnly(s);
    case QueryValuesShape => QueryValuesOnly(s);
  }

  /**
   * The payload language is unambiguous: a byte string decodes to `p` exactly when it is
   * the encoding of `p`, with every byte accounted for.
   */
  lemma PayloadExact(shape: Shape, s: bytes, p: Payload)
    ensures DecPayload(shape, s) == Some(p) <==> ShapeOf(p) == shape && s == EncPayload(p)
  {
    ShapeOnly(shape, s);
    if DecPayload(shape, s) == Some(p) {
      assert s == EncPayload(p) + [];
    }
    if ShapeOf(p) == shape && s == EncPayload(p) {
      ShapeBack(p, []);
      assert s == EncPayload(p) + [];
    }
  }

  // ---- sizes -----------------------------------------------------------------

  lemma {:induction false} ManySize<A, B>(enc: B -> bytes, image: A -> B, size: A -> nat, xs: seq<A>)
    requires forall x :: x in xs ==> |enc(image(x))| == size(x)
    ensures |EncMany(enc, Map(image, xs))| == Sum(size, xs)
  {
    if xs != [] {
      ManySize(enc, image, size, xs[1..]);
      assert Map(image, xs)[1..] == Map(image, xs[1..]);
    }
  }
}
