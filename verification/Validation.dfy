/**
 * Semantic validation of a payload before it is encoded: metadata exactly covers the
 * GUID path targets, and orphan GUIDs are nonzero and unique.
 */
module Validation {
  import opened Base
  import opened CAbi
  import opened GuidOrder
  import opened Heap

  // ---- the specification -----------------------------------------------------

  /** A GUID target may carry any GUID; a hidden one carries only zeros. */
  predicate LegalTarget(e: PathEntry) {
    e.targetType == TARGET_GUID || (e.targetType == TARGET_HIDDEN && e.targetGuid == NIL)
  }

  predicate IsGuidTarget(e: PathEntry) {
    e.targetType == TARGET_GUID
  }

  function TargetSet(entries: seq<PathEntry>): set<Guid> {
    set e | e in entries && IsGuidTarget(e) :: e.targetGuid
  }

  function ChildTargetSet(children: seq<ChildEntry>): set<Guid> {
    set c, e | c in children && e in Elems(c.entries) && IsGuidTarget(e) :: e.targetGuid
  }

  /** All path entries of all children, in order. */
  function AllEntries(children: seq<ChildEntry>): seq<PathEntry> {
    if children == [] then [] else Elems(children[0].entries) + AllEntries(children[1..])
  }

  function MetadataGuids(metadata: seq<KeyMetadata>): seq<Guid> {
    Map((m: KeyMetadata) => m.guid, metadata)
  }

  /** The metadata GUIDs are nonzero, pairwise different, and are exactly `targets`. */
  ghost predicate Covers(targets: set<Guid>, guids: seq<Guid>) {
    && NIL !in guids
    && Distinct(guids)
    && forall g :: g in targets <==> g in guids
  }

  ghost predicate LegalEntries(entries: View<PathEntry>) {
    Readable(entries) && forall e :: e in Elems(entries) ==> LegalTarget(e)
  }

  ghost predicate LegalChildren(children: View<ChildEntry>) {
    Readable(children) && forall c :: c in Elems(children) ==> LegalEntries(c.entries)
  }

  ghost predicate LookupAcceptable(entries: View<PathEntry>, metadata: View<KeyMetadata>) {
    && LegalEntries(entries)
    && Readable(metadata)
    && Covers(TargetSet(Elems(entries)), MetadataGuids(Elems(metadata)))
  }

  ghost predicate ChildrenAcceptable(children: View<ChildEntry>, metadata: View<KeyMetadata>) {
    && LegalChildren(children)
    && Readable(metadata)
    && Covers(ChildTargetSet(Elems(children)), MetadataGuids(Elems(metadata)))
  }

  /** The 16-byte chunks of a flat array. */
  function Chunks(raw: bytes): (guids: seq<Guid>)
    requires |raw| % 16 == 0
    ensures |guids| == |raw| / 16
    ensures Flatten(guids) == raw
  {
    if raw == [] then []
    else
      assert raw == raw[..16] + raw[16..];
      [raw[..16]] + Chunks(raw[16..])
  }

  lemma {:induction false} FlattenLength(gs: seq<Guid>)
    ensures |Flatten(gs)| == 16 * |gs|
  {
    if gs != [] {
      FlattenLength(gs[1..]);
    }
  }

  // ---- the vector of GUIDs ---------------------------------------------------

  /** The requests an empty vector makes when room for `n` elements is reserved. */
  function ReserveAsks(n: nat): nat { if n == 0 then 0 else 1 }

  /** Where a vector and the allocator stand after some pushes. */
  datatype Pushed = Pushed(asked: nat, capacity: nat, ok: bool)

  /**
   * `n` pushes on a vector of this length and capacity, from request `asked` on: one
   * request each time it is full, up to the first refusal; a grant may leave slack.
   */
  function Pushes(schedule: nat -> Answer, asked: nat, len: nat, capacity: nat, n: nat): Pushed
    requires len <= capacity
    decreases n
  {
    if n == 0 then Pushed(asked, capacity, true)
    else if len < capacity then Pushes(schedule, asked, len + 1, capacity, n - 1)
    else match schedule(asked)
      case Refuse => Pushed(asked + 1, capacity, false)
      case Grant(slack) => Pushes(schedule, asked + 1, len + 1, len + 1 + slack, n - 1)
  }

  lemma {:induction false} PushesBound(schedule: nat -> Answer, asked: nat, len: nat, capacity: nat, n: nat)
    requires len <= capacity
    ensures var p := Pushes(schedule, asked, len, capacity, n);
            && asked <= p.asked <= asked + n
            && (p.ok ==> len + n <= p.capacity)
    decreases n
  {
    if n > 0 {
      if len < capacity {
        PushesBound(schedule, asked, len + 1, capacity, n - 1);
      } else if schedule(asked).Grant? {
        PushesBound(schedule, asked + 1, len + 1, len + 1 + schedule(asked).slack, n - 1);
      }
    }
  }

  /** Pushing `n` and then `m` more. */
  lemma {:induction false} PushesSplit(schedule: nat -> Answer, asked: nat, len: nat, capacity: nat, n: nat, m: nat)
    requires len <= capacity
    ensures var p := Pushes(schedule, asked, len, capacity, n);
            && (p.ok ==> len + n <= p.capacity)
            && Pushes(schedule, asked, len, capacity, n + m)
               == if p.ok then Pushes(schedule, p.asked, len + n, p.capacity, m) else p
    decreases n
  {
    if n > 0 {
      if len < capacity {
        PushesSplit(schedule, asked, len + 1, capacity, n - 1, m);
      } else if schedule(asked).Grant? {
        PushesSplit(schedule, asked + 1, len + 1, len + 1 + schedule(asked).slack, n - 1, m);
      }
    }
  }

  /** Where there is room, nothing is asked. */
  lemma {:induction false} PushesWithRoom(schedule: nat -> Answer, asked: nat, len: nat, capacity: nat, n: nat)
    requires len + n <= capacity
    ensures Pushes(schedule, asked, len, capacity, n) == Pushed(asked, capacity, true)
    decreases n
  {
    if n > 0 {
      PushesWithRoom(schedule, asked, len + 1, capacity, n - 1);
    }
  }

  /** A full vector whose grants leave no slack asks once per push, up to the first refusal. */
  lemma {:induction false} PushesWithoutSlack(schedule: nat -> Answer, asked: nat, len: nat, n: nat)
    requires forall k :: asked <= k < asked + n && schedule(k).Grant? ==> schedule(k).slack == 0
    ensures var p := Pushes(schedule, asked, len, len, n);
            if Grants(schedule, asked, asked + n) then p == Pushed(asked + n, len + n, true)
            else !p.ok && p.asked > asked && schedule(p.asked - 1).Refuse? && Grants(schedule, asked, p.asked - 1)
    decreases n
  {
    if n > 0 && schedule(asked).Grant? {
      PushesWithoutSlack(schedule, asked + 1, len + 1, n - 1);
    }
  }

  /** How many GUID targets are read before the first illegal entry. */
  function TargetsRead(entries: seq<PathEntry>): nat {
    if entries == [] || !LegalTarget(entries[0]) then 0
    else (if IsGuidTarget(entries[0]) then 1 else 0) + TargetsRead(entries[1..])
  }

  /** The same over children, which are given up at the first that is not legal throughout. */
  ghost function ChildTargetsRead(children: seq<ChildEntry>): nat {
    if children == [] then 0
    else TargetsRead(Elems(children[0].entries))
         + if LegalEntries(children[0].entries) then ChildTargetsRead(children[1..]) else 0
  }

  /** The allocator's position after the metadata vector is reserved. */
  function MetadataEnd(at: nat, metadata: View<KeyMetadata>): nat {
    at + if Readable(metadata) then ReserveAsks(Count(metadata)) else 0
  }

  /** Its position after LOOKUP validation that began at `at`. */
  ghost function LookupEnd(schedule: nat -> Answer, at: nat,
                           entries: View<PathEntry>, metadata: View<KeyMetadata>): nat
  {
    var p := Pushes(schedule, at, 0, 0, TargetsRead(Elems(entries)));
    if p.ok && LegalEntries(entries) then MetadataEnd(p.asked, metadata) else p.asked
  }

  ghost function ChildrenEnd(schedule: nat -> Answer, at: nat,
                             children: View<ChildEntry>, metadata: View<KeyMetadata>): nat
  {
    var p := Pushes(schedule, at, 0, 0, ChildTargetsRead(Elems(children)));
    if p.ok && LegalChildren(children) then MetadataEnd(p.asked, metadata) else p.asked
  }

  function OrphansEnd(usizeMax: nat, at: nat, orphans: GuidArray): nat {
    if 16 * GuidCount(orphans) > usizeMax || orphans.NullGuids? then at else at + ReserveAsks(GuidCount(orphans))
  }

  /** A `Vec<[u8; 16]>`. Growing it past `capacity` would abort on allocation failure. */
  class GuidVec {
    var items: seq<Guid>
    var capacity: nat

    constructor ()
      ensures items == [] && capacity == 0
    {
      items, capacity := [], 0;
    }

    /** `try_reserve`: no allocation when the room is already there. */
    method TryReserve(heap: Allocator, additional: nat) returns (r: Result<()>)
      requires |items| <= capacity
      modifies this`capacity, heap
      ensures if additional <= old(capacity) - |items|
              then r.Ok? && capacity == old(capacity) && heap.asked == old(heap.asked)
              else heap.asked == old(heap.asked) + 1 && (r.Ok? <==> heap.schedule(old(heap.asked)).Grant?)
                   && (r.Ok? ==> capacity == |items| + additional + heap.schedule(old(heap.asked)).slack)
      ensures r.Ok? ==> |items| + additional <= capacity && heap.Refusals() == old(heap.Refusals())
      ensures r.Err? ==> r.errno == ENOMEM && heap.Refusals() > old(heap.Refusals()) && capacity == old(capacity)
    {
      if additional <= capacity - |items| {
        return Ok(());
      }
      var answer := heap.Ask();
      match answer
      case Refuse => return Err(ENOMEM);
      case Grant(slack) =>
        capacity := |items| + additional + slack;
        return Ok(());
    }

    /** `Vec::push` where it cannot allocate: the precondition is the allocation discipline. */
    method Push(g: Guid)
      requires |items| < capacity
      modifies this`items
      ensures items == old(items) + [g]
    {
      items := items + [g];
    }

    /** `push_guid`: reserve one more slot when full, then push. */
    method PushGuid(heap: Allocator, g: Guid) returns (r: Result<()>)
      requires |items| <= capacity
      modifies this, heap
      ensures |items| <= capacity
      ensures Pushed(heap.asked, capacity, r.Ok?)
           == Pushes(heap.schedule, old(heap.asked), |old(items)|, old(capacity), 1)
      ensures r.Ok? ==> items == old(items) + [g] && heap.Refusals() == old(heap.Refusals())
      ensures r.Err? ==> items == old(items) && r.errno == ENOMEM && heap.Refusals() > old(heap.Refusals())
    {
      if |items| == capacity {
        var _ :- TryReserve(heap, 1);
      }
      Push(g);
      return Ok(());
    }

    method SortUnstable()
      modifies this`items
      ensures items == Sort(old(items))
    {
      items := Sort(items);
    }

    method SortDedup()
      modifies this`items
      ensures items == Dedup(Sort(old(items)))
    {
      SortUnstable();
      items := Dedup(items);
    }

    /** Sorts in place, then looks at the first element and at neighbours only. */
    method ValidateUniqueNonzero() returns (r: Result<()>)
      modifies this`items
      ensures items == Sort(old(items))
      ensures r == if NIL !in old(items) && Distinct(old(items)) then Ok(()) else Err(EINVAL)
    {
      SortUnstable();
      SortedCheckIsAllPairs(old(items));
      if items != [] && items[0] == NIL {
        return Err(EINVAL);
      }
      var i := 0;
      while i + 1 < |items|
        invariant forall k :: 0 <= k < i && k < |items| - 1 ==> items[k] != items[k + 1]
      {
        if items[i] == items[i + 1] {
          return Err(EINVAL);
        }
        i := i + 1;
      }
      return Ok(());
    }
  }

  /** `guid_vec_with_capacity`. */
  method GuidVecWithCapacity(heap: Allocator, capacity: nat) returns (r: Result<GuidVec>)
    modifies heap
    ensures heap.asked == old(heap.asked) + ReserveAsks(capacity)
    ensures r.Ok? ==> fresh(r.value) && r.value.items == [] && capacity <= r.value.capacity
    ensures r.Ok? ==> heap.Refusals() == old(heap.Refusals())
    ensures r.Err? ==> r.errno == ENOMEM && heap.Refusals() > old(heap.Refusals())
  {
    var guids := new GuidVec();
    var _ :- guids.TryReserve(heap, capacity);
    return Ok(guids);
  }

  // ---- the collecting loops --------------------------------------------------

  function RequirePathTarget(e: PathEntry): (r: Result<()>)
    ensures r == if LegalTarget(e) then Ok(()) else Err(EINVAL)
  {
    if e.targetType == TARGET_GUID then Ok(())
    else if e.targetType == TARGET_HIDDEN && e.targetGuid == NIL then Ok(())
    else Err(EINVAL)
  }

  method MetadataGuidSet(heap: Allocator, metadata: View<KeyMetadata>) returns (r: Result<GuidVec>)
    modifies heap
    ensures heap.asked == MetadataEnd(old(heap.asked), metadata)
    ensures r.Ok? <==>
              && heap.Refusals() == old(heap.Refusals()) && Readable(metadata)
              && NIL !in MetadataGuids(Elems(metadata)) && Distinct(MetadataGuids(Elems(metadata)))
    ensures r.Ok? ==> fresh(r.value) && r.value.items == Sort(MetadataGuids(Elems(metadata)))
    ensures heap.Refusals() >= old(heap.Refusals())
    ensures r.Err? ==> r.errno == if heap.Refusals() > old(heap.Refusals()) then ENOMEM else EINVAL
  {
    var _ :- RequireView(metadata);
    var guids :- GuidVecWithCapacity(heap, Count(metadata));
    ghost var all := MetadataGuids(Elems(metadata));
    for i := 0 to Count(metadata)
      invariant guids.items == all[..i] && heap.Refusals() == old(heap.Refusals())
      invariant heap.asked == old(heap.asked) + ReserveAsks(Count(metadata))
      invariant Count(metadata) <= guids.capacity
    {
      guids.Push(Elems(metadata)[i].guid);
    }
    assert all[..Count(metadata)] == all;
    var _ :- guids.ValidateUniqueNonzero();
    return Ok(guids);
  }

  /** What has been collected from the entries read so far. */
  ghost predicate Collected(items: seq<Guid>, targets: set<Guid>) {
    forall g :: g in items <==> g in targets
  }

  lemma TargetSetSnoc(entries: seq<PathEntry>, n: nat)
    requires n < |entries|
    ensures TargetSet(entries[..n + 1])
         == TargetSet(entries[..n]) + if IsGuidTarget(entries[n]) then {entries[n].targetGuid} else {}
  {
    assert entries[..n + 1] == entries[..n] + [entries[n]];
  }

  /** The pushes still to come are those of the entries still to be read. */
  lemma TargetsReadStep(schedule: nat -> Answer, asked: nat, len: nat, capacity: nat, entries: seq<PathEntry>, i: nat)
    requires len <= capacity && i < |entries|
    ensures !LegalTarget(entries[i]) ==> TargetsRead(entries[i..]) == 0
    ensures LegalTarget(entries[i]) && !IsGuidTarget(entries[i]) ==>
              TargetsRead(entries[i..]) == TargetsRead(entries[i + 1..])
    ensures LegalTarget(entries[i]) && IsGuidTarget(entries[i]) ==>
              var p := Pushes(schedule, asked, len, capacity, 1);
              && TargetsRead(entries[i..]) == 1 + TargetsRead(entries[i + 1..])
              && (p.ok ==> len + 1 <= p.capacity)
              && Pushes(schedule, asked, len, capacity, TargetsRead(entries[i..]))
                 == if p.ok then Pushes(schedule, p.asked, len + 1, p.capacity, TargetsRead(entries[i + 1..])) else p
  {
    assert entries[i..][0] == entries[i] && entries[i..][1..] == entries[i + 1..];
    PushesSplit(schedule, asked, len, capacity, 1, TargetsRead(entries[i + 1..]));
  }

  method CollectEntries(heap: Allocator, guids: GuidVec, entries: View<PathEntry>, ghost before: set<Guid>)
    returns (r: Result<()>)
    requires |guids.items| <= guids.capacity && Collected(guids.items, before)
    modifies heap, guids
    ensures |guids.items| <= guids.capacity
    ensures r.Ok? <==> heap.Refusals() == old(heap.Refusals()) && LegalEntries(entries)
    ensures r.Ok? ==> Collected(guids.items, before + TargetSet(Elems(entries)))
    ensures heap.Refusals() >= old(heap.Refusals())
    ensures r.Err? ==> r.errno == if heap.Refusals() > old(heap.Refusals()) then ENOMEM else EINVAL
    ensures var n := TargetsRead(Elems(entries));
            var p := Pushes(heap.schedule, old(heap.asked), |old(guids.items)|, old(guids.capacity), n);
            && heap.asked == p.asked
            && (r.Ok? ==> p.ok && guids.capacity == p.capacity && |guids.items| == |old(guids.items)| + n)
            && (LegalEntries(entries) && p.ok ==> r.Ok?)
  {
    hide Refused, Pushes, TargetsRead;
    var es := Elems(entries);
    NoPushes(heap.schedule, heap.asked, |guids.items|, guids.capacity);
    var _ :- RequireView(entries);
    ghost var all := Pushes(heap.schedule, heap.asked, |guids.items|, guids.capacity, TargetsRead(es));
    assert es[0..] == es;
    for i := 0 to Count(entries)
      invariant |guids.items| <= guids.capacity
      invariant heap.Refusals() == old(heap.Refusals())
      invariant all == Pushes(heap.schedule, heap.asked, |guids.items|, guids.capacity, TargetsRead(es[i..]))
      invariant |guids.items| + TargetsRead(es[i..]) == |old(guids.items)| + TargetsRead(es)
      invariant forall e :: e in es[..i] ==> LegalTarget(e)
      invariant Collected(guids.items, before + TargetSet(es[..i]))
    {
      NoPushes(heap.schedule, heap.asked, |guids.items|, guids.capacity);
      TargetsReadStep(heap.schedule, heap.asked, |guids.items|, guids.capacity, es, i);
      var _ :- RequirePathTarget(es[i]);
      TargetSetSnoc(es, i);
      if IsGuidTarget(es[i]) {
        var _ :- guids.PushGuid(heap, es[i].targetGuid);
      }
    }
    assert es[..Count(entries)] == es && es[Count(entries)..] == [];
    NoPushes(heap.schedule, heap.asked, |guids.items|, guids.capacity);
    return Ok(());
  }

  lemma NoPushes(schedule: nat -> Answer, asked: nat, len: nat, capacity: nat)
    requires len <= capacity
    ensures TargetsRead([]) == 0 && Pushes(schedule, asked, len, capacity, 0) == Pushed(asked, capacity, true)
  {
  }

  method LookupTargetGuidSet(heap: Allocator, entries: View<PathEntry>)
    returns (r: Result<GuidVec>, ghost found: seq<Guid>)
    modifies heap
    ensures var p := Pushes(heap.schedule, old(heap.asked), 0, 0, TargetsRead(Elems(entries)));
            heap.asked == p.asked && (r.Ok? <==> p.ok && LegalEntries(entries))
    ensures r.Ok? <==> heap.Refusals() == old(heap.Refusals()) && LegalEntries(entries)
    ensures r.Ok? ==> fresh(r.value)
    ensures r.Ok? ==> r.value.items == Dedup(Sort(found)) && Collected(found, TargetSet(Elems(entries)))
    ensures heap.Refusals() >= old(heap.Refusals())
    ensures r.Err? ==> r.errno == if heap.Refusals() > old(heap.Refusals()) then ENOMEM else EINVAL
  {
    var guids := new GuidVec();
    var collected := CollectEntries(heap, guids, entries, {});
    found := guids.items;
    if collected.Err? {
      return Err(collected.errno), found;
    }
    guids.SortDedup();
    r := Ok(guids);
  }

  lemma ChildTargetSetSnoc(children: seq<ChildEntry>, n: nat)
    requires n < |children|
    ensures ChildTargetSet(children[..n + 1])
         == ChildTargetSet(children[..n]) + TargetSet(Elems(children[n].entries))
  {
    assert children[..n + 1] == children[..n] + [children[n]];
  }

  lemma NoChildPushes(schedule: nat -> Answer, asked: nat, len: nat, capacity: nat)
    requires len <= capacity
    ensures ChildTargetsRead([]) == 0 && Pushes(schedule, asked, len, capacity, 0) == Pushed(asked, capacity, true)
  {
  }

  lemma ChildTargetsReadStep(schedule: nat -> Answer, asked: nat, len: nat, capacity: nat,
                             children: seq<ChildEntry>, i: nat)
    requires len <= capacity && i < |children|
    ensures var n := TargetsRead(Elems(children[i].entries));
            var p := Pushes(schedule, asked, len, capacity, n);
            && (p.ok ==> len + n <= p.capacity)
            && Pushes(schedule, asked, len, capacity, ChildTargetsRead(children[i..]))
               == if p.ok && LegalEntries(children[i].entries)
                  then Pushes(schedule, p.asked, len + n, p.capacity, ChildTargetsRead(children[i + 1..])) else p
  {
    hide Pushes, TargetsRead, LegalEntries;
    assert children[i..][0] == children[i] && children[i..][1..] == children[i + 1..];
    var n := TargetsRead(Elems(children[i].entries));
    PushesSplit(schedule, asked, len, capacity, n, ChildTargetsRead(children[i + 1..]));
    PushesBound(schedule, asked, len, capacity, n);
  }

  method EnumChildrenTargetGuidSet(heap: Allocator, children: View<ChildEntry>)
    returns (r: Result<GuidVec>, ghost found: seq<Guid>)
    modifies heap
    ensures var p := Pushes(heap.schedule, old(heap.asked), 0, 0, ChildTargetsRead(Elems(children)));
            heap.asked == p.asked && (r.Ok? <==> p.ok && LegalChildren(children))
    ensures r.Ok? <==> heap.Refusals() == old(heap.Refusals()) && LegalChildren(children)
    ensures r.Ok? ==> fresh(r.value)
    ensures r.Ok? ==> r.value.items == Dedup(Sort(found)) && Collected(found, ChildTargetSet(Elems(children)))
    ensures heap.Refusals() >= old(heap.Refusals())
    ensures r.Err? ==> r.errno == if heap.Refusals() > old(heap.Refusals()) then ENOMEM else EINVAL
  {
    hide Refused, Pushes, ChildTargetsRead, TargetsRead;
    found := [];
    ghost var start := heap.asked;
    NoChildPushes(heap.schedule, start, 0, 0);
    if RequireView(children).Err? {
      return Err(EINVAL), found;
    }
    var guids := new GuidVec();
    var cs := Elems(children);
    ghost var all := Pushes(heap.schedule, start, 0, 0, ChildTargetsRead(cs));
    assert cs[0..] == cs;
    for i := 0 to Count(children)
      invariant |guids.items| <= guids.capacity
      invariant heap.Refusals() == old(heap.Refusals())
      invariant all == Pushes(heap.schedule, heap.asked, |guids.items|, guids.capacity, ChildTargetsRead(cs[i..]))
      invariant forall c :: c in cs[..i] ==> LegalEntries(c.entries)
      invariant Collected(guids.items, ChildTargetSet(cs[..i]))
    {
      ChildTargetSetSnoc(cs, i);
      ChildTargetsReadStep(heap.schedule, heap.asked, |guids.items|, guids.capacity, cs, i);
      var collected := CollectEntries(heap, guids, cs[i].entries, ChildTargetSet(cs[..i]));
      if collected.Err? {
        return Err(collected.errno), found;
      }
    }
    assert cs[..Count(children)] == cs && cs[Count(children)..] == [];
    NoChildPushes(heap.schedule, heap.asked, |guids.items|, guids.capacity);
    found := guids.items;
    guids.SortDedup();
    r := Ok(guids);
  }

  // ---- the validators --------------------------------------------------------

  method MatchMetadata(heap: Allocator, targets: GuidVec, metadata: View<KeyMetadata>,
                       ghost found: seq<Guid>, ghost expected: set<Guid>) returns (r: Result<()>)
    requires targets.items == Dedup(Sort(found)) && Collected(found, expected)
    modifies heap
    ensures heap.asked == MetadataEnd(old(heap.asked), metadata)
    ensures heap.Refusals() >= old(heap.Refusals())
    ensures r == if heap.Refusals() > old(heap.Refusals()) then Err(ENOMEM)
                 else if Readable(metadata) && Covers(expected, MetadataGuids(Elems(metadata))) then Ok(())
                 else Err(EINVAL)
  {
    var required :- MetadataGuidSet(heap, metadata);
    VectorEqualityIsSetEquality(MetadataGuids(Elems(metadata)), found);
    if required.items == targets.items {
      return Ok(());
    }
    return Err(EINVAL);
  }

  /** Accepts exactly the acceptable responses, unless an allocation is refused. */
  method ValidateLookupMetadata(heap: Allocator, entries: View<PathEntry>, metadata: View<KeyMetadata>)
    returns (r: Result<()>)
    modifies heap
    ensures heap.asked == LookupEnd(heap.schedule, old(heap.asked), entries, metadata)
    ensures heap.Refusals() >= old(heap.Refusals())
    ensures r == if heap.Refusals() > old(heap.Refusals()) then Err(ENOMEM)
                 else if LookupAcceptable(entries, metadata) then Ok(()) else Err(EINVAL)
  {
    var targets, found := LookupTargetGuidSet(heap, entries);
    if targets.Err? {
      return Err(targets.errno);
    }
    r := MatchMetadata(heap, targets.value, metadata, found, TargetSet(Elems(entries)));
  }

  method ValidateEnumChildrenMetadata(heap: Allocator, children: View<ChildEntry>, metadata: View<KeyMetadata>)
    returns (r: Result<()>)
    modifies heap
    ensures heap.asked == ChildrenEnd(heap.schedule, old(heap.asked), children, metadata)
    ensures heap.Refusals() >= old(heap.Refusals())
    ensures r == if heap.Refusals() > old(heap.Refusals()) then Err(ENOMEM)
                 else if ChildrenAcceptable(children, metadata) then Ok(()) else Err(EINVAL)
  {
    var targets, found := EnumChildrenTargetGuidSet(heap, children);
    if targets.Err? {
      return Err(targets.errno);
    }
    r := MatchMetadata(heap, targets.value, metadata, found, ChildTargetSet(Elems(children)));
  }

  /** Which DELETE_LAYER arrays are accepted when no allocation is refused. */
  ghost function OrphanVerdict(usizeMax: nat, orphans: GuidArray): (r: Result<bytes>) {
    if 16 * GuidCount(orphans) > usizeMax then Err(EOVERFLOW)
    else if GuidCount(orphans) == 0 then Ok([])
    else if orphans.NullGuids? then Err(EINVAL)
    else if NIL !in Chunks(orphans.raw) && Distinct(Chunks(orphans.raw)) then Ok(orphans.raw)
    else Err(EINVAL)
  }

  lemma {:induction false} ChunkAt(raw: bytes, i: nat)
    requires |raw| % 16 == 0 && 16 * i + 16 <= |raw|
    ensures i < |Chunks(raw)| && Chunks(raw)[i] == raw[16 * i..16 * i + 16]
  {
    assert Chunks(raw) == [raw[..16]] + Chunks(raw[16..]);
    if i > 0 {
      ChunkAt(raw[16..], i - 1);
      SliceOfDrop(raw, 16, 16 * (i - 1), 16 * (i - 1) + 16);
    }
  }

  lemma SliceOfDrop<T>(s: seq<T>, k: nat, lo: nat, hi: nat)
    requires lo <= hi && k + hi <= |s|
    ensures s[k..][lo..hi] == s[k + lo..k + hi]
  {
  }

  /**
   * Validates a sorted copy of the GUIDs and returns the caller's bytes as they are.
   * Overflow and null are reported before anything is allocated.
   */
  method OrphanedGuidBytes(heap: Allocator, usizeMax: nat, orphans: GuidArray) returns (r: Result<bytes>)
    modifies heap
    ensures heap.asked == OrphansEnd(usizeMax, old(heap.asked), orphans)
    ensures heap.Refusals() >= old(heap.Refusals())
    ensures r == if heap.Refusals() > old(heap.Refusals()) then Err(ENOMEM) else OrphanVerdict(usizeMax, orphans)
  {
    hide Refused, Chunks, Distinct;
    var length := 16 * GuidCount(orphans);
    if length > usizeMax {
      return Err(EOVERFLOW);
    }
    if length == 0 {
      return Ok([]);
    }
    if orphans.NullGuids? {
      return Err(EINVAL);
    }
    var n := orphans.count;
    var guids :- GuidVecWithCapacity(heap, n);
    ghost var chunks := Chunks(orphans.raw);
    for i := 0 to n
      invariant guids.items == chunks[..i] && heap.Refusals() == old(heap.Refusals())
      invariant heap.asked == old(heap.asked) + ReserveAsks(n)
      invariant n <= guids.capacity
    {
      ChunkAt(orphans.raw, i);
      guids.Push(orphans.raw[16 * i..16 * i + 16]);
    }
    assert chunks[..n] == chunks;
    var _ :- guids.ValidateUniqueNonzero();
    return Ok(orphans.raw);
  }

  // ---- what the specification implies ----------------------------------------

  lemma {:induction false} AllEntriesMember(children: seq<ChildEntry>, e: PathEntry)
    ensures e in AllEntries(children) <==> exists c :: c in children && e in Elems(c.entries)
  {
    if children != [] {
      AllEntriesMember(children[1..], e);
      assert children == [children[0]] + children[1..];
    }
  }

  /**
   * Flattening: children are accepted exactly when every child's array is readable and
   * LOOKUP would accept the concatenation of all their entries.
   */
  lemma ChildrenAreConcatenatedLookup(children: View<ChildEntry>, metadata: View<KeyMetadata>)
    ensures ChildrenAcceptable(children, metadata) <==>
              && Readable(children) && (forall c :: c in Elems(children) ==> Readable(c.entries))
              && Readable(metadata)
              && (forall e :: e in AllEntries(Elems(children)) ==> LegalTarget(e))
              && Covers(TargetSet(AllEntries(Elems(children))), MetadataGuids(Elems(metadata)))
    ensures
      var all := AllEntries(Elems(children));
      |all| <= U32_MAX && Readable(children) && (forall c :: c in Elems(children) ==> Readable(c.entries)) ==>
        (ChildrenAcceptable(children, metadata) <==> LookupAcceptable(At(all), metadata))
  {
    var cs := Elems(children);
    forall e ensures e in AllEntries(cs) <==> exists c :: c in cs && e in Elems(c.entries) {
      AllEntriesMember(cs, e);
    }
    assert TargetSet(AllEntries(cs)) == ChildTargetSet(cs);
    assert (forall e :: e in AllEntries(cs) ==> LegalTarget(e))
      <==> (forall c, e :: c in cs && e in Elems(c.entries) ==> LegalTarget(e));
  }

  lemma MapAppend<A, B>(f: A -> B, xs: seq<A>, ys: seq<A>)
    ensures Map(f, xs + ys) == Map(f, xs) + Map(f, ys)
  {
  }

  lemma MapMultiset<A, B>(f: A -> B, xs: seq<A>, x: A, ys: seq<A>)
    ensures multiset(Map(f, xs + [x] + ys)) == multiset(Map(f, xs + ys)) + multiset{f(x)}
  {
    MapAppend(f, xs + [x], ys);
    MapAppend(f, xs, [x]);
    MapAppend(f, xs, ys);
    assert Map(f, [x]) == [f(x)];
  }

  /** Takes one occurrence of the first element of `xs` out of `ys`. */
  lemma TakeOut<T>(xs: seq<T>, ys: seq<T>) returns (lo: seq<T>, hi: seq<T>)
    requires xs != [] && SameElements(xs, ys)
    ensures ys == lo + [xs[0]] + hi && SameElements(xs[1..], lo + hi)
  {
    assert xs[0] in multiset(ys);
    var k :| 0 <= k < |ys| && ys[k] == xs[0];
    lo, hi := ys[..k], ys[k + 1..];
    assert ys == lo + [xs[0]] + hi;
    assert xs == [xs[0]] + xs[1..];
    assert multiset(xs[1..]) == multiset(xs) - multiset{xs[0]};
  }

  lemma {:induction false} MapPermutes<A, B>(f: A -> B, xs: seq<A>, ys: seq<A>)
    requires SameElements(xs, ys)
    ensures SameElements(Map(f, xs), Map(f, ys))
    decreases |xs|
  {
    hide Map;
    if xs == [] {
      assert |multiset(ys)| == 0;
      assert ys == xs;
    } else {
      var lo, hi := TakeOut(xs, ys);
      MapPermutes(f, xs[1..], lo + hi);
      MapMultiset(f, lo, xs[0], hi);
      MapMultiset(f, [], xs[0], xs[1..]);
      assert xs == [] + [xs[0]] + xs[1..];
      assert xs[1..] == [] + xs[1..];
    }
  }

  lemma CoversPermutes(targets: set<Guid>, ms: seq<KeyMetadata>, ms': seq<KeyMetadata>)
    requires SameElements(ms, ms')
    ensures Covers(targets, MetadataGuids(ms)) <==> Covers(targets, MetadataGuids(ms'))
  {
    MapPermutes((m: KeyMetadata) => m.guid, ms, ms');
    DistinctPermutes(MetadataGuids(ms), MetadataGuids(ms'));
    SameMembers(MetadataGuids(ms), MetadataGuids(ms'));
  }

  /** Reordering entries or metadata does not change the LOOKUP verdict. */
  lemma LookupOrderIrrelevant(es: List<PathEntry>, es': List<PathEntry>, ms: List<KeyMetadata>, ms': List<KeyMetadata>)
    requires SameElements(es, es') && SameElements(ms, ms')
    ensures LookupAcceptable(At(es), At(ms)) <==> LookupAcceptable(At(es'), At(ms'))
  {
    SameTargets(es, es');
    CoversPermutes(TargetSet(es), ms, ms');
  }

  /** Reordering children or metadata does not change the ENUM_CHILDREN verdict. */
  lemma ChildrenOrderIrrelevant(cs: List<ChildEntry>, cs': List<ChildEntry>,
                                ms: List<KeyMetadata>, ms': List<KeyMetadata>)
    requires SameElements(cs, cs') && SameElements(ms, ms')
    ensures ChildrenAcceptable(At(cs), At(ms)) <==> ChildrenAcceptable(At(cs'), At(ms'))
  {
    SameMembers(cs, cs');
    assert ChildTargetSet(cs) == ChildTargetSet(cs');
    CoversPermutes(ChildTargetSet(cs), ms, ms');
  }

  /** Nor does moving entries about, within a child or between children: only the entries count. */
  lemma ChildEntriesOrderIrrelevant(cs: List<ChildEntry>, cs': List<ChildEntry>,
                                    ms: List<KeyMetadata>, ms': List<KeyMetadata>)
    requires forall c :: c in cs || c in cs' ==> Readable(c.entries)
    requires SameElements(AllEntries(cs), AllEntries(cs')) && SameElements(ms, ms')
    ensures ChildrenAcceptable(At(cs), At(ms)) <==> ChildrenAcceptable(At(cs'), At(ms'))
  {
    hide Covers, ChildrenAcceptable, AllEntries, TargetSet, MetadataGuids, LegalTarget;
    FlatVerdict(cs, ms);
    FlatVerdict(cs', ms');
    SameTargets(AllEntries(cs), AllEntries(cs'));
    CoversPermutes(TargetSet(AllEntries(cs)), ms, ms');
  }

  /** With readable arrays the verdict is a verdict on the entries alone. */
  lemma FlatVerdict(cs: List<ChildEntry>, ms: List<KeyMetadata>)
    requires forall c :: c in cs ==> Readable(c.entries)
    ensures ChildrenAcceptable(At(cs), At(ms)) <==>
              && (forall e :: e in AllEntries(cs) ==> LegalTarget(e))
              && Covers(TargetSet(AllEntries(cs)), MetadataGuids(ms))
  {
    hide Covers, ChildrenAcceptable, AllEntries, TargetSet, MetadataGuids, LookupAcceptable;
    ChildrenAreConcatenatedLookup(At(cs), At(ms));
  }

  lemma SameTargets(es: seq<PathEntry>, es': seq<PathEntry>)
    requires SameElements(es, es')
    ensures TargetSet(es) == TargetSet(es')
    ensures (forall e :: e in es ==> LegalTarget(e)) <==> (forall e :: e in es' ==> LegalTarget(e))
  {
    SameMembers(es, es');
  }

  /** Naming a GUID target once more, in any layer, does not change the verdict. */
  lemma RepeatedTargetIrrelevant(es: List<PathEntry>, again: PathEntry, ms: List<KeyMetadata>)
    requires |es| < U32_MAX
    requires IsGuidTarget(again) && again.targetGuid in TargetSet(es)
    ensures LookupAcceptable(At(es + [again]), At(ms)) <==> LookupAcceptable(At(es), At(ms))
  {
    assert TargetSet(es + [again]) == TargetSet(es);
  }

  lemma RepeatedChildTargetIrrelevant(cs: List<ChildEntry>, i: nat, again: PathEntry, ms: List<KeyMetadata>)
    requires i < |cs| && Readable(cs[i].entries) && |Elems(cs[i].entries)| < U32_MAX
    requires IsGuidTarget(again) && again.targetGuid in ChildTargetSet(cs)
    ensures var cs' := cs[i := cs[i].(entries := At(Elems(cs[i].entries) + [again]))];
            ChildrenAcceptable(At(cs'), At(ms)) <==> ChildrenAcceptable(At(cs), At(ms))
  {
    var es := Elems(cs[i].entries);
    var c' := cs[i].(entries := At(es + [again]));
    var cs' := cs[i := c'];
    assert forall c :: c in cs' ==> c == c' || c in cs;
    assert forall j :: 0 <= j < |cs| && j != i ==> cs'[j] == cs[j];
    assert cs'[i] == c';
    assert forall e :: e in Elems(c'.entries) <==> e in es || e == again;
    assert ChildTargetSet(cs') == ChildTargetSet(cs);
    assert LegalEntries(c'.entries) <==> LegalEntries(cs[i].entries);
    assert LegalChildren(At(cs')) <==> LegalChildren(At(cs));
  }

  /** No accepted response names the nil GUID as a target, though the tag check alone allows it. */
  lemma NilTargetsExcluded(entries: View<PathEntry>, metadata: View<KeyMetadata>)
    ensures LookupAcceptable(entries, metadata) ==>
              forall e :: e in Elems(entries) && IsGuidTarget(e) ==> e.targetGuid != NIL
  {
    if LookupAcceptable(entries, metadata) {
      forall e | e in Elems(entries) && IsGuidTarget(e) ensures e.targetGuid != NIL {
        assert e.targetGuid in TargetSet(Elems(entries));
      }
    }
  }

  lemma NilChildTargetsExcluded(children: View<ChildEntry>, metadata: View<KeyMetadata>)
    ensures ChildrenAcceptable(children, metadata) ==>
              forall c, e :: c in Elems(children) && e in Elems(c.entries) && IsGuidTarget(e) ==> e.targetGuid != NIL
  {
    if ChildrenAcceptable(children, metadata) {
      forall c, e | c in Elems(children) && e in Elems(c.entries) && IsGuidTarget(e) ensures e.targetGuid != NIL {
        assert e.targetGuid in ChildTargetSet(Elems(children));
      }
    }
  }
}
