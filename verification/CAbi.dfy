/** The C structures callers pass in, and the constants and answers of the kernel crates. */
module CAbi {
  import opened Base

  datatype PathEntry = PathEntry(layer: View<byte>, targetType: byte, targetGuid: Guid, sequence: u64)

  datatype KeyMetadata =
    KeyMetadata(guid: Guid, sd: View<byte>, volatileKey: byte, symlink: byte, lastWriteTime: u64)

  datatype ChildEntry = ChildEntry(name: View<byte>, entries: View<PathEntry>)

  datatype ValueEntry =
    ValueEntry(valueName: View<byte>, layerName: View<byte>, valueType: u32, data: View<byte>, sequence: u64)

  datatype BlanketEntry = BlanketEntry(layerName: View<byte>, sequence: u64)

  /** A flat array of `count * 16` bytes, or a null pointer with any count. */
  datatype RawGuidArray = NullGuids(nullCount: u32) | Guids(raw: bytes, count: u32)

  type GuidArray = a: RawGuidArray | a.Guids? ==> |a.raw| == 16 * a.count witness NullGuids(0)

  function GuidCount(a: GuidArray): u32 {
    if a.NullGuids? then a.nullCount else a.count
  }

  /** A parsed request: the header fields and the borrowed payload view. */
  datatype Request = Request(requestId: u64, txnId: u64, payload: View<byte>, opCode: u16)

  const TARGET_GUID: byte := 0
  const TARGET_HIDDEN: byte := 1
  const RESPONSE_BIT: int := 0x8000

  /**
   * What librsi takes from peios-uapi and lcs-core: the numbers of the five payload ops,
   * RSI_OK, the statuses `parse_rsi_status` knows, the ops `rsi_response_op_code`
   * accepts, the answers of `rsi_request_has_status_only_response` (absent: an error),
   * the ops `parse_rsi_request_header` knows, and the platform's `usize::MAX`.
   */
  datatype RawUapi = RawUapi(
    lookup: u16, enumChildren: u16, readKey: u16, deleteLayer: u16, queryValues: u16,
    ok: u32, statuses: set<u32>,
    responders: set<u16>, statusOnly: map<u16, bool>, requestOps: set<u16>,
    usizeMax: nat)
  {
    function PayloadOps(): set<u16> {
      {lookup, enumChildren, readKey, deleteLayer, queryValues}
    }

    predicate Consistent() {
      && lookup != enumChildren && lookup != readKey && lookup != deleteLayer && lookup != queryValues
      && enumChildren != readKey && enumChildren != deleteLayer && enumChildren != queryValues
      && readKey != deleteLayer && readKey != queryValues && deleteLayer != queryValues
      && PayloadOps() <= responders
      && (forall op :: op in responders ==> op < RESPONSE_BIT)
      && (forall op :: op in PayloadOps() ==> op in statusOnly && !statusOnly[op])
      && ok in statuses
    }
  }

  type Uapi = u: RawUapi | u.Consistent()
    witness RawUapi(1, 2, 3, 4, 5, 0, {0}, {1, 2, 3, 4, 5},
                    map[1 := false, 2 := false, 3 := false, 4 := false, 5 := false], {}, 0xFFFF_FFFF)
}
