/**
 * Whole runs: any sequence of respond calls on one fd, and a serve loop from request
 * frames to response frames. A run is tied at both ends: its refusals are those of the
 * allocator's schedule, and its returns those of the fd's write(2) answers.
 */
module Runs {
  import opened Base
  import opened LittleEndian
  import opened CAbi
  import opened Heap
  import opened Frames
  import opened Respond
  import opened Outcomes
  import opened RequestFrame

  /**
   * One step of a run: a request frame the parser refused, or a respond call with the
   * stretch `start..end` of allocator requests it made and the refusals it met.
   */
  datatype Event =
    | Malformed(start: nat, end: nat)
    | Called(req: Option<Request>, call: Call, early: bool, late: bool, start: nat, end: nat)

  ghost function OutcomeOf(u: Uapi, e: Event): Result<bytes> {
    match e
    case Malformed(_, _) => Err(EBADMSG)
    case Called(req, call, early, late, _, _) => Outcome(u, req, call, early, late)
  }

  /** The schedule treats the step as the event says. */
  ghost predicate Treats(u: Uapi, schedule: nat -> Answer, e: Event) {
    match e
    case Malformed(start, end) => start == end
    case Called(req, call, early, late, start, end) =>
      var q := RequestsOf(u, schedule, req, call, start);
      early == q.early && late == q.late && end == q.end
  }

  /** The frames a run writes, in order. */
  ghost function Written(u: Uapi, run: seq<Event>): seq<bytes> {
    if run == [] then [] else Sent(OutcomeOf(u, run[0])) + Written(u, run[1..])
  }

  /** How many frames have been written before step `i`. */
  ghost function WritesBefore(u: Uapi, run: seq<Event>, i: nat): nat
    requires i <= |run|
  {
    |Written(u, run[..i])|
  }

  /** Where the allocator stands after a run that began at `start`. */
  function EndOf(run: seq<Event>, start: nat): nat {
    if run == [] then start else run[|run| - 1].end
  }

  /** Every step begins where the one before it left the allocator, and is treated as it says. */
  ghost predicate Genuine(u: Uapi, schedule: nat -> Answer, run: seq<Event>, start: nat) {
    forall i :: 0 <= i < |run| ==> Treats(u, schedule, run[i]) && run[i].start == EndOf(run[..i], start)
  }

  /** What step `i` returns when the fd had `at` writes before the run. */
  ghost function ReturnAt(u: Uapi, results: nat -> int, at: nat, run: seq<Event>, i: nat): Result<()>
    requires i < |run|
  {
    Returned(OutcomeOf(u, run[i]), results(at + WritesBefore(u, run, i)))
  }

  ghost predicate ReturnsOf(u: Uapi, results: nat -> int, at: nat, run: seq<Event>, rets: seq<Result<()>>) {
    |rets| == |run| && forall i :: 0 <= i < |run| ==> rets[i] == ReturnAt(u, results, at, run, i)
  }

  lemma {:induction false} WrittenConcat(u: Uapi, a: seq<Event>, b: seq<Event>)
    ensures Written(u, a + b) == Written(u, a) + Written(u, b)
  {
    hide OutcomeOf, Sent;
    if a == [] {
      assert a + b == b;
    } else {
      WrittenConcat(u, a[1..], b);
      assert (a + b)[1..] == a[1..] + b;
      Regroup3(Sent(OutcomeOf(u, a[0])), Written(u, a[1..]), Written(u, b));
    }
  }

  lemma WrittenSnoc(u: Uapi, run: seq<Event>, e: Event)
    ensures Written(u, run + [e]) == Written(u, run) + Sent(OutcomeOf(u, e))
  {
    hide OutcomeOf;
    WrittenConcat(u, run, [e]);
    assert Written(u, [e]) == Sent(OutcomeOf(u, e)) + Written(u, []);
  }

  lemma PrefixSnoc<T>(s: seq<T>, x: T, i: nat)
    requires i <= |s|
    ensures (s + [x])[..i] == s[..i]
  {
  }

  lemma GenuineSnoc(u: Uapi, schedule: nat -> Answer, run: seq<Event>, start: nat, e: Event)
    requires Genuine(u, schedule, run, start)
    requires Treats(u, schedule, e) && e.start == EndOf(run, start)
    ensures Genuine(u, schedule, run + [e], start)
  {
    hide Treats, EndOf;
    forall i | 0 <= i < |run + [e]|
      ensures Treats(u, schedule, (run + [e])[i]) && (run + [e])[i].start == EndOf((run + [e])[..i], start)
    {
      PrefixSnoc(run, e, i);
      assert run[..|run|] == run;
    }
  }

  lemma ReturnsSnoc(u: Uapi, results: nat -> int, at: nat, run: seq<Event>, rets: seq<Result<()>>,
                    e: Event, ret: Result<()>)
    requires ReturnsOf(u, results, at, run, rets)
    requires ret == Returned(OutcomeOf(u, e), results(at + |Written(u, run)|))
    ensures ReturnsOf(u, results, at, run + [e], rets + [ret])
  {
    hide OutcomeOf, Written, Returned;
    forall i | 0 <= i < |run + [e]| ensures (rets + [ret])[i] == ReturnAt(u, results, at, run + [e], i) {
      PrefixSnoc(run, e, i);
      assert run[..|run|] == run;
      if i < |run| { assert rets[i] == ReturnAt(u, results, at, run, i); }
    }
  }

  /** One more step at the end of a run. */
  lemma OneMore(u: Uapi, schedule: nat -> Answer, results: nat -> int, start: nat, at: nat,
                run: seq<Event>, rets: seq<Result<()>>, e: Event, ret: Result<()>)
    requires Genuine(u, schedule, run, start) && ReturnsOf(u, results, at, run, rets)
    requires Treats(u, schedule, e) && e.start == EndOf(run, start)
    requires ret == Returned(OutcomeOf(u, e), results(at + |Written(u, run)|))
    ensures Genuine(u, schedule, run + [e], start) && ReturnsOf(u, results, at, run + [e], rets + [ret])
    ensures EndOf(run + [e], start) == e.end
  {
    hide Genuine, ReturnsOf, OutcomeOf, Treats, Written;
    GenuineSnoc(u, schedule, run, start, e);
    ReturnsSnoc(u, results, at, run, rets, e, ret);
  }

  // ---- the helpers produce such runs -----------------------------------------

  /** One call through whichever helper it is for. */
  method RespondOne(fd: SourceFd, heap: Allocator, u: Uapi, req: Option<Request>, call: Call)
    returns (ret: Result<()>, ghost e: Event)
    modifies fd, heap
    ensures e.Called? && e.req == req && e.call == call
    ensures e.start == old(heap.asked) && e.end == heap.asked && Treats(u, heap.schedule, e)
    ensures fd.writes == old(fd.writes) + Sent(OutcomeOf(u, e))
    ensures ret == Returned(OutcomeOf(u, e), fd.results(|old(fd.writes)|))
  {
    hide Outcome, RequestsOf;
    ghost var start := heap.asked;
    match call {
      case StatusCall(status) => ret := RespondStatus(fd, heap, u, req, status);
      case LookupCall(es, ms) => ret := RespondLookup(fd, heap, u, req, es, ms);
      case EnumChildrenCall(cs, ms) => ret := RespondEnumChildren(fd, heap, u, req, cs, ms);
      case ReadKeyCall(n, g, sd, v, s, t) => ret := RespondReadKey(fd, heap, u, req, n, g, sd, v, s, t);
      case DeleteLayerCall(gs) => ret := RespondDeleteLayer(fd, heap, u, req, gs);
      case QueryValuesCall(vs, bs) => ret := RespondQueryValues(fd, heap, u, req, vs, bs);
    }
    ghost var q := RequestsOf(u, heap.schedule, req, call, start);
    e := Called(req, call, q.early, q.late, start, heap.asked);
  }

  /**
   * Any sequence of calls. The frames added to the fd are those of the run, the refusals
   * those of the allocator's schedule, and every return is what the fd's own write(2)
   * answers make of it.
   */
  method RespondAll(fd: SourceFd, heap: Allocator, u: Uapi, script: seq<(Option<Request>, Call)>)
    returns (rets: seq<Result<()>>, ghost run: seq<Event>)
    modifies fd, heap
    ensures |run| == |rets| == |script|
    ensures forall i :: 0 <= i < |run| ==> run[i].Called? && (run[i].req, run[i].call) == script[i]
    ensures fd.writes == old(fd.writes) + Written(u, run)
    ensures Genuine(u, heap.schedule, run, old(heap.asked)) && heap.asked == EndOf(run, old(heap.asked))
    ensures ReturnsOf(u, fd.results, |old(fd.writes)|, run, rets)
    ensures forall i :: 0 <= i < |run| ==>
              var j := |old(fd.writes)| + WritesBefore(u, run, i);
              && (rets[i].Ok? <==> OutcomeOf(u, run[i]).Ok? && j < |fd.writes| && fd.results(j) == |fd.writes[j]|)
              && Explains(OutcomeOf(u, run[i]), fd.results(j), rets[i])
    ensures var frames := fd.writes[|old(fd.writes)|..];
            TookAll(fd.results, |old(fd.writes)|, frames) ==>
              Resplit(Stream(fd.results, |old(fd.writes)|, frames)) == Some(frames)
  {
    hide OutcomeOf, Treats, Genuine, ReturnsOf, Written, WritesBefore, TookAll, Resplit, Stream, Explains;
    rets, run := [], [];
    EmptyRun(u, heap.schedule, fd.results, heap.asked, |fd.writes|);
    NothingWritten(u);
    for k := 0 to |script|
      invariant |run| == |rets| == k
      invariant forall i :: 0 <= i < k ==> run[i].Called? && (run[i].req, run[i].call) == script[i]
      invariant fd.writes == old(fd.writes) + Written(u, run)
      invariant Genuine(u, heap.schedule, run, old(heap.asked)) && heap.asked == EndOf(run, old(heap.asked))
      invariant ReturnsOf(u, fd.results, |old(fd.writes)|, run, rets)
    {
      ghost var e;
      var ret;
      ret, e := RespondOne(fd, heap, u, script[k].0, script[k].1);
      WrittenSnoc(u, run, e);
      OneMore(u, heap.schedule, fd.results, old(heap.asked), |old(fd.writes)|, run, rets, e, ret);
      rets, run := rets + [ret], run + [e];
    }
    ghost var at := |old(fd.writes)|;
    assert fd.writes[at..] == Written(u, run);
    if TookAll(fd.results, at, Written(u, run)) {
      RunResplits(u, fd.results, at, run);
    }
    forall i | 0 <= i < |run|
      ensures var j := at + WritesBefore(u, run, i);
              && (rets[i].Ok? <==> OutcomeOf(u, run[i]).Ok? && j < |fd.writes| && fd.results(j) == |fd.writes[j]|)
              && Explains(OutcomeOf(u, run[i]), fd.results(j), rets[i])
    {
      ZeroMeansDelivered(u, fd.results, at, run, rets, i);
      ReturnsExplained(u, fd.results, at, run, rets, i);
    }
  }

  lemma EmptyRun(u: Uapi, schedule: nat -> Answer, results: nat -> int, start: nat, at: nat)
    ensures Genuine(u, schedule, [], start) && ReturnsOf(u, results, at, [], [])
  {
  }

  // ---- allocation over a run -------------------------------------------------

  /** A schedule that refuses nothing from `start` on disturbs no step of the run. */
  lemma GrantedRunUndisturbed(u: Uapi, schedule: nat -> Answer, run: seq<Event>, start: nat, i: nat)
    requires Genuine(u, schedule, run, start) && i < |run| && run[i].Called?
    requires forall k: nat :: start <= k ==> schedule(k).Grant?
    ensures start <= run[i].start
    ensures OutcomeOf(u, run[i]) == Outcome(u, run[i].req, run[i].call, false, false)
  {
    hide Outcome, RequestsOf;
    StartsLater(u, schedule, run, start, i);
    assert Treats(u, schedule, run[i]);
    GrantedCallUndisturbed(u, schedule, run[i].start, run[i].req, run[i].call);
  }

  lemma {:induction false} StartsLater(u: Uapi, schedule: nat -> Answer, run: seq<Event>, start: nat, i: nat)
    requires Genuine(u, schedule, run, start) && i < |run|
    ensures start <= run[i].start <= run[i].end
  {
    hide Outcome, RequestsOf;
    var e := run[i];
    assert Treats(u, schedule, e);
    if e.Called? {
      RequestsOrdered(u, schedule, e.req, e.call, e.start);
    }
    if i > 0 {
      StartsLater(u, schedule, run, start, i - 1);
      assert run[..i][|run[..i]| - 1] == run[i - 1];
    }
  }

  lemma RequestsOrdered(u: Uapi, schedule: nat -> Answer, req: Option<Request>, call: Call, start: nat)
    ensures start <= RequestsOf(u, schedule, req, call, start).end
  {
    hide AppendEnd, AppendsMade, Validated, ValidationEnd;
    ValidationBound(u, schedule, call, start);
    AppendEndLater(schedule, ValidationEnd(u, schedule, call, start), AppendsMade(call));
  }

  lemma {:induction false} AppendEndLater(schedule: nat -> Answer, at: nat, n: nat)
    ensures at <= AppendEnd(schedule, at, n)
    decreases n
  {
    if n > 0 && schedule(at).Grant? {
      AppendEndLater(schedule, at + 1, n - 1);
    }
  }

  /** What was asked of a step, leaving out what became of it. */
  predicate SameStep(e: Event, e': Event) {
    if e.Called? then e'.Called? && e.req == e'.req && e.call == e'.call else e'.Malformed?
  }

  /**
   * The schedule and the calls decide the run: two runs of the same calls from the same
   * request on meet the same refusals and have the same outcomes.
   */
  lemma {:induction false} RunDetermined(u: Uapi, schedule: nat -> Answer,
                                         run: seq<Event>, run': seq<Event>, start: nat)
    requires Genuine(u, schedule, run, start) && Genuine(u, schedule, run', start)
    requires |run| == |run'| && forall i :: 0 <= i < |run| ==> SameStep(run[i], run'[i])
    ensures run == run'
    decreases |run|
  {
    hide Treats, EndOf, SameStep;
    if run != [] {
      var n := |run| - 1;
      GenuinePrefix(u, schedule, run, start, n);
      GenuinePrefix(u, schedule, run', start, n);
      RunDetermined(u, schedule, run[..n], run'[..n], start);
      StepDetermined(u, schedule, run[n], run'[n]);
      assert run == run[..n] + [run[n]] && run' == run'[..n] + [run'[n]];
    }
  }

  lemma StepDetermined(u: Uapi, schedule: nat -> Answer, e: Event, e': Event)
    requires Treats(u, schedule, e) && Treats(u, schedule, e') && SameStep(e, e') && e.start == e'.start
    ensures e == e'
  {
    hide RequestsOf;
  }

  lemma GenuinePrefix(u: Uapi, schedule: nat -> Answer, run: seq<Event>, start: nat, n: nat)
    requires Genuine(u, schedule, run, start) && n <= |run|
    ensures Genuine(u, schedule, run[..n], start)
  {
    hide Treats, EndOf;
    forall i | 0 <= i < n
      ensures Treats(u, schedule, run[..n][i]) && run[..n][i].start == EndOf(run[..n][..i], start)
    {
      assert run[..n][..i] == run[..i];
    }
  }

  // ---- write discipline ------------------------------------------------------

  /**
   * Each step rejected before send leaves the trace alone; every other one adds exactly
   * its own frame, at its own place in call order.
   */
  lemma WriteDiscipline(u: Uapi, run: seq<Event>, i: nat)
    requires i < |run|
    ensures var at := WritesBefore(u, run, i);
            && at <= |Written(u, run)|
            && (OutcomeOf(u, run[i]).Err? ==> WritesBefore(u, run, i + 1) == at)
            && (OutcomeOf(u, run[i]).Ok? ==>
                  && WritesBefore(u, run, i + 1) == at + 1 <= |Written(u, run)|
                  && Written(u, run)[at] == OutcomeOf(u, run[i]).value)
    ensures Written(u, run[..|run|]) == Written(u, run)
  {
    hide OutcomeOf, Written;
    assert run[..i + 1] == run[..i] + [run[i]];
    WrittenSnoc(u, run[..i], run[i]);
    WrittenConcat(u, run[..i + 1], run[i + 1..]);
    assert run == run[..i + 1] + run[i + 1..];
    assert run[..|run|] == run;
  }

  /** Step `i` is the one that wrote frame `j`. */
  ghost predicate Wrote(u: Uapi, run: seq<Event>, i: int, j: int) {
    0 <= i < |run| && OutcomeOf(u, run[i]).Ok? && WritesBefore(u, run, i) == j
  }

  /** Every frame of a run was written by one of its steps. */
  lemma {:induction false} FrameHasItsStep(u: Uapi, run: seq<Event>, j: nat)
    requires j < |Written(u, run)|
    ensures exists i :: Wrote(u, run, i, j) && Written(u, run)[j] == OutcomeOf(u, run[i]).value
    decreases |run|
  {
    hide OutcomeOf, Written;
    assert run != [] by { NothingWritten(u); }
    var n := |run| - 1;
    var init := run[..n];
    WriteDiscipline(u, run, n);
    assert run[..n + 1] == run && init + [run[n]] == run;
    if j < |Written(u, init)| {
      FrameHasItsStep(u, init, j);
      var i :| Wrote(u, init, i, j) && Written(u, init)[j] == OutcomeOf(u, init[i]).value;
      assert init[..i] == run[..i];
      WrittenSnoc(u, init, run[n]);
      assert Wrote(u, run, i, j);
    } else {
      assert Wrote(u, run, n, j);
    }
  }

  lemma NothingWritten(u: Uapi)
    ensures Written(u, []) == []
  {
  }

  /**
   * In a run with these returns, a step returns 0 exactly when it wrote its frame and
   * the fd's answer to that very write was the frame's whole length.
   */
  lemma ZeroMeansDelivered(u: Uapi, results: nat -> int, at: nat, run: seq<Event>, rets: seq<Result<()>>, i: nat)
    requires ReturnsOf(u, results, at, run, rets) && i < |run|
    ensures var j := WritesBefore(u, run, i);
            rets[i].Ok? <==> Wrote(u, run, i, j) && j < |Written(u, run)| && results(at + j) == |Written(u, run)[j]|
  {
    hide OutcomeOf, Written;
    WriteDiscipline(u, run, i);
  }

  /**
   * What a step whose write was answered by `n` returns: the errno that stopped it before
   * send, unchanged; or the errno of write(2); or EIO for a short write; or 0.
   */
  ghost predicate Explains(out: Result<bytes>, n: int, ret: Result<()>) {
    && (forall e :: out == Err(e) ==> ret == Err(e))
    && (forall f :: out == Ok(f) && n < 0 ==> ret == Err(Os(-n)))
    && (forall f :: out == Ok(f) && 0 <= n && n != |f| ==> ret == Err(EIO))
    && (forall f :: out == Ok(f) && n == |f| ==> ret == Ok(()))
  }

  lemma ReturnsExplained(u: Uapi, results: nat -> int, at: nat, run: seq<Event>, rets: seq<Result<()>>, i: nat)
    requires ReturnsOf(u, results, at, run, rets) && i < |run|
    ensures Explains(OutcomeOf(u, run[i]), results(at + WritesBefore(u, run, i)), rets[i])
  {
    hide OutcomeOf, Written;
  }

  ghost predicate AllZero(rets: seq<Result<()>>) {
    forall i :: 0 <= i < |rets| ==> rets[i].Ok?
  }

  /** In a run of zero returns the i-th frame is the i-th step's, and its write took it whole. */
  lemma DeliveredInOrder(u: Uapi, results: nat -> int, at: nat, run: seq<Event>, rets: seq<Result<()>>)
    requires ReturnsOf(u, results, at, run, rets) && AllZero(rets)
    ensures |Written(u, run)| == |run|
    ensures forall i :: 0 <= i < |run| ==>
              && WritesBefore(u, run, i) == i
              && OutcomeOf(u, run[i]) == Ok(Written(u, run)[i])
              && results(at + i) == |Written(u, run)[i]|
  {
    hide OutcomeOf, Written;
    NothingWritten(u);
    for k := 0 to |run|
      invariant forall i :: 0 <= i <= k ==> WritesBefore(u, run, i) == i
    {
      assert rets[k].Ok?;
      WriteDiscipline(u, run, k);
    }
    assert run[..|run|] == run;
    forall i | 0 <= i < |run|
      ensures OutcomeOf(u, run[i]) == Ok(Written(u, run)[i]) && results(at + i) == |Written(u, run)[i]|
    {
      assert rets[i].Ok?;
      WriteDiscipline(u, run, i);
    }
  }

  // ---- splitting the byte stream again ---------------------------------------

  /** Cuts a byte stream into frames by their `total_len`. */
  function Resplit(s: bytes): Option<seq<bytes>> {
    if s == [] then Some([])
    else if |s| < STATUS_FRAME_LEN then None
    else
      var n := AsU32(s[..4]);
      if n < STATUS_FRAME_LEN || n > |s| then None
      else
        var rest :- Resplit(s[n..]);
        Some([s[..n]] + rest)
  }

  ghost predicate SelfSized(f: bytes) {
    |f| >= STATUS_FRAME_LEN && AsU32(f[..4]) == |f|
  }

  lemma {:induction false} ResplitFlatten(frames: seq<bytes>)
    requires forall f :: f in frames ==> SelfSized(f)
    ensures Resplit(Flatten(frames)) == Some(frames)
  {
    hide AsU32;
    if frames != [] {
      var f, s := frames[0], Flatten(frames);
      assert SelfSized(f);
      ResplitFlatten(frames[1..]);
      assert s == f + Flatten(frames[1..]);
      assert s[..4] == f[..4] && s[..|f|] == f && s[|f|..] == Flatten(frames[1..]);
      assert frames == [f] + frames[1..];
    }
  }

  lemma {:induction false} WrittenSelfSized(u: Uapi, run: seq<Event>)
    ensures forall f :: f in Written(u, run) ==> SelfSized(f)
  {
    hide Outcome, AsU32;
    if run != [] {
      WrittenSelfSized(u, run[1..]);
      var e := run[0];
      if e.Called? {
        KernelAcceptsSent(u, e.req, e.call, e.early, e.late);
      }
    }
  }

  /** The bytes of `f` a write that answers `n` took. */
  function Accepted(f: bytes, n: int): bytes {
    if n <= 0 then [] else if n < |f| then f[..n] else f
  }

  /** The byte stream that reached the fd: what each write took, from the `at`-th write on. */
  function Stream(results: nat -> int, at: nat, frames: seq<bytes>): bytes
    decreases |frames|
  {
    if frames == [] then [] else Accepted(frames[0], results(at)) + Stream(results, at + 1, frames[1..])
  }

  /** No write fell short. */
  ghost predicate TookAll(results: nat -> int, at: nat, frames: seq<bytes>) {
    forall i :: 0 <= i < |frames| ==> results(at + i) >= |frames[i]|
  }

  lemma TookAllTail(results: nat -> int, at: nat, frames: seq<bytes>)
    requires frames != []
    ensures TookAll(results, at, frames) <==> results(at) >= |frames[0]| && TookAll(results, at + 1, frames[1..])
  {
    if TookAll(results, at, frames) {
      assert results(at + 0) >= |frames[0]|;
      forall i | 0 <= i < |frames[1..]| ensures results(at + 1 + i) >= |frames[1..][i]| {
        assert results(at + (i + 1)) >= |frames[i + 1]|;
      }
    }
    if results(at) >= |frames[0]| && TookAll(results, at + 1, frames[1..]) {
      forall i | 0 <= i < |frames| ensures results(at + i) >= |frames[i]| {
        if i > 0 { assert results(at + 1 + (i - 1)) >= |frames[1..][i - 1]|; }
      }
    }
  }

  /** The stream is the concatenation of the written frames exactly when no write fell short. */
  lemma {:induction false} StreamComplete(results: nat -> int, at: nat, frames: seq<bytes>)
    requires forall f :: f in frames ==> |f| > 0
    ensures |Stream(results, at, frames)| <= |Flatten(frames)|
    ensures Stream(results, at, frames) == Flatten(frames) <==> TookAll(results, at, frames)
    decreases |frames|
  {
    if frames != [] {
      var f, tail := frames[0], frames[1..];
      var taken, rest := Accepted(f, results(at)), Stream(results, at + 1, tail);
      StreamComplete(results, at + 1, tail);
      TookAllTail(results, at, frames);
      assert f in frames;
      if results(at) < |f| {
        assert |taken + rest| < |f + Flatten(tail)|;
      } else if taken + rest == f + Flatten(tail) {
        assert rest == (taken + rest)[|f|..] && Flatten(tail) == (f + Flatten(tail))[|f|..];
      }
    }
  }

  /** When no write falls short, the stream on the fd splits back into the frames written. */
  lemma RunResplits(u: Uapi, results: nat -> int, at: nat, run: seq<Event>)
    requires TookAll(results, at, Written(u, run))
    ensures Resplit(Stream(results, at, Written(u, run))) == Some(Written(u, run))
  {
    hide OutcomeOf, Resplit, AsU32;
    WrittenSelfSized(u, run);
    StreamComplete(results, at, Written(u, run));
    ResplitFlatten(Written(u, run));
  }

  // ---- request/response correlation ------------------------------------------

  /** The response echoes bytes 4..12 of the request and its op code with the response bit. */
  ghost predicate Correlated(request: bytes, response: bytes) {
    && |request| >= HEADER_LEN && |response| >= STATUS_FRAME_LEN
    && response[4..12] == request[4..12]
    && AsU16(response[12..14]) == AsU16(request[12..14]) + RESPONSE_BIT
  }

  lemma ResponseCorrelates(u: Uapi, vet: bytes -> bool, request: bytes, call: Call, early: bool, late: bool)
    requires ParseHeader(u, vet, request).Ok?
    ensures var out := Outcome(u, Some(ParseHeader(u, vet, request).value), call, early, late);
            out.Ok? ==>
              && Correlated(request, out.value)
              && (!call.StatusCall? ==> AsU16(request[12..14]) == OpOf(u, CallShape(call)))
  {
    hide U64, AsU16, AsU32, AsU64, Frame, Validated, Encodable;
    var req := ParseHeader(u, vet, request).value;
    var out := Outcome(u, Some(req), call, early, late);
    if out.Ok? {
      KernelAcceptsSent(u, Some(req), call, early, late);
      SentFrame(u, Some(req), call, early, late);
      U64Inverse(AsU64(request[4..12]), request[4..12]);
      U64Inverse(AsU64(out.value[4..12]), out.value[4..12]);
    }
  }

  /** Step `e` is what becomes of request frame `request` when `call` is chosen for it. */
  ghost predicate StepFor(u: Uapi, vet: bytes -> bool, request: bytes, call: Call, e: Event) {
    match ParseHeader(u, vet, request)
    case Err(_) => e.Malformed?
    case Ok(req) => e.Called? && e.req == Some(req) && e.call == call
  }

  ghost predicate StepsFor(u: Uapi, vet: bytes -> bool, requests: seq<bytes>, calls: seq<Call>, run: seq<Event>)
    requires |calls| == |requests|
  {
    && |run| == |requests|
    && forall k :: 0 <= k < |run| ==> StepFor(u, vet, requests[k], calls[k], run[k])
  }

  /** The frame echoes the request and decodes to the response chosen for it. */
  ghost predicate ServedOne(u: Uapi, request: bytes, call: Call, frame: bytes) {
    && Correlated(request, frame)
    && DecodeFrame(u, frame) == Some(Decoded(AsU64(request[4..12]), AsU16(request[12..14]), ResponseOf(call)))
  }

  lemma StepServed(u: Uapi, vet: bytes -> bool, request: bytes, call: Call, e: Event)
    requires StepFor(u, vet, request, call, e) && OutcomeOf(u, e).Ok?
    ensures ServedOne(u, request, call, OutcomeOf(u, e).value)
  {
    hide AsU16, AsU64, Outcome, DecodeFrame, ResponseOf, Correlated;
    ResponseCorrelates(u, vet, request, call, e.early, e.late);
    SentDecodes(u, e.req, call, e.early, e.late);
  }

  /** `frame`, the j-th of the run, answers the request of the step that wrote it. */
  ghost predicate ServedBy(u: Uapi, requests: seq<bytes>, calls: seq<Call>, run: seq<Event>, j: int, frame: bytes)
    requires |run| == |requests| == |calls|
  {
    exists k :: Wrote(u, run, k, j) && ServedOne(u, requests[k], calls[k], frame)
  }

  /**
   * Every frame a serve run writes, whatever fails around it, answers the request of the
   * step that wrote it, and the frames come in the order of their requests.
   */
  lemma EveryFrameServes(u: Uapi, vet: bytes -> bool, requests: seq<bytes>, calls: seq<Call>, run: seq<Event>, j: nat)
    requires |calls| == |requests| && StepsFor(u, vet, requests, calls, run) && j < |Written(u, run)|
    ensures ServedBy(u, requests, calls, run, j, Written(u, run)[j])
  {
    hide OutcomeOf, Written, ServedOne;
    FrameHasItsStep(u, run, j);
    var k :| Wrote(u, run, k, j) && Written(u, run)[j] == OutcomeOf(u, run[k]).value;
    StepServed(u, vet, requests[k], calls[k], run[k]);
  }

  /** A step returns EBADMSG exactly for a frame the parser refuses. */
  lemma BadMessageMeansMalformed(u: Uapi, vet: bytes -> bool, request: bytes, call: Call, e: Event, n: int)
    requires StepFor(u, vet, request, call, e)
    ensures Returned(OutcomeOf(u, e), n) == Err(EBADMSG) <==> ParseHeader(u, vet, request).Err?
  {
    hide Outcome, HeaderAccepted;
    if e.Called? {
      NeverBadMessage(u, e.req, e.call, e.early, e.late, n);
    }
  }

  /** One frame per request, in order, each serving its own. */
  ghost predicate Served(u: Uapi, requests: seq<bytes>, calls: seq<Call>, frames: seq<bytes>)
    requires |requests| == |calls|
  {
    && |frames| == |requests|
    && forall i :: 0 <= i < |frames| ==> ServedOne(u, requests[i], calls[i], frames[i])
  }

  /**
   * A serve run in which every step returns 0: the byte stream on the fd splits into one
   * frame per request, and the i-th frame answers the i-th request with the i-th response.
   */
  lemma ServeRun(u: Uapi, vet: bytes -> bool, requests: seq<bytes>, calls: seq<Call>, run: seq<Event>,
                 results: nat -> int, at: nat, rets: seq<Result<()>>)
    requires |calls| == |requests| && StepsFor(u, vet, requests, calls, run)
    requires ReturnsOf(u, results, at, run, rets) && AllZero(rets)
    ensures Resplit(Stream(results, at, Written(u, run))) == Some(Written(u, run))
    ensures Served(u, requests, calls, Written(u, run))
  {
    hide OutcomeOf, Written, ServedOne, Resplit, Stream;
    DeliveredInOrder(u, results, at, run, rets);
    RunResplits(u, results, at, run);
    forall i | 0 <= i < |run| ensures ServedOne(u, requests[i], calls[i], Written(u, run)[i]) {
      StepServed(u, vet, requests[i], calls[i], run[i]);
    }
  }

  /**
   * A serve loop: parse each request frame and answer it with the call chosen for it. The
   * run says what became of every step; `EveryFrameServes` and `ServeRun` say what that
   * means for the frames on the fd, with or without failures.
   */
  method Serve(fd: SourceFd, heap: Allocator, u: Uapi, vet: bytes -> bool, requests: seq<bytes>, calls: seq<Call>)
    returns (rets: seq<Result<()>>, ghost run: seq<Event>)
    requires |calls| == |requests|
    modifies fd, heap
    ensures StepsFor(u, vet, requests, calls, run)
    ensures fd.writes == old(fd.writes) + Written(u, run)
    ensures Genuine(u, heap.schedule, run, old(heap.asked)) && heap.asked == EndOf(run, old(heap.asked))
    ensures ReturnsOf(u, fd.results, |old(fd.writes)|, run, rets)
    ensures forall k :: 0 <= k < |rets| ==> (rets[k] == Err(EBADMSG) <==> ParseHeader(u, vet, requests[k]).Err?)
    ensures forall k :: 0 <= k < |rets| ==>
              Explains(OutcomeOf(u, run[k]), fd.results(|old(fd.writes)| + WritesBefore(u, run, k)), rets[k])
    ensures forall j :: |old(fd.writes)| <= j < |fd.writes| ==>
              ServedBy(u, requests, calls, run, j - |old(fd.writes)|, fd.writes[j])
    ensures AllZero(rets) ==>
              var frames := fd.writes[|old(fd.writes)|..];
              Served(u, requests, calls, frames)
              && Resplit(Stream(fd.results, |old(fd.writes)|, frames)) == Some(frames)
  {
    hide OutcomeOf, Treats, Genuine, ReturnsOf, Served, ServedBy, Written, WritesBefore, ParseHeader,
         HeaderAccepted, Resplit, Stream, Explains;
    rets, run := [], [];
    EmptyRun(u, heap.schedule, fd.results, heap.asked, |fd.writes|);
    NothingWritten(u);
    var slot := new RequestSlot(Request(0, 0, Null(0), 0));
    for k := 0 to |requests|
      invariant |run| == k
      invariant forall i :: 0 <= i < k ==> StepFor(u, vet, requests[i], calls[i], run[i])
      invariant fd.writes == old(fd.writes) + Written(u, run)
      invariant Genuine(u, heap.schedule, run, old(heap.asked)) && heap.asked == EndOf(run, old(heap.asked))
      invariant ReturnsOf(u, fd.results, |old(fd.writes)|, run, rets)
    {
      ghost var e := Malformed(heap.asked, heap.asked);
      ghost var n := |fd.writes|;
      var ret := ParseRequest(u, vet, Some(requests[k]), slot);
      RefusedStep(u, heap.schedule, vet, requests[k], calls[k], fd.results(n), e);
      if ret.Ok? {
        ret, e := RespondOne(fd, heap, u, Some(slot.value), calls[k]);
      }
      WrittenSnoc(u, run, e);
      OneMore(u, heap.schedule, fd.results, old(heap.asked), |old(fd.writes)|, run, rets, e, ret);
      rets, run := rets + [ret], run + [e];
    }
    ServeSummary(u, vet, requests, calls, run, fd.results, |old(fd.writes)|, rets);
    ghost var at := |old(fd.writes)|;
    assert fd.writes[at..] == Written(u, run);
    forall j | at <= j < |fd.writes|
      ensures ServedBy(u, requests, calls, run, j - at, fd.writes[j])
    {
      EveryFrameServes(u, vet, requests, calls, run, j - at);
      assert fd.writes[j] == Written(u, run)[j - at];
    }
  }

  /** What a refused frame contributes: nothing asked, nothing written, EBADMSG. */
  lemma RefusedStep(u: Uapi, schedule: nat -> Answer, vet: bytes -> bool, request: bytes, call: Call, n: int, e: Event)
    requires e.Malformed? && e.start == e.end
    ensures Treats(u, schedule, e) && Sent(OutcomeOf(u, e)) == []
    ensures Returned(OutcomeOf(u, e), n) == Err(EBADMSG)
    ensures ParseHeader(u, vet, request).Err? ==> StepFor(u, vet, request, call, e)
    ensures ParseHeader(u, vet, request).Ok? <==> HeaderAccepted(u, vet, request)
  {
  }

  lemma ServeSummary(u: Uapi, vet: bytes -> bool, requests: seq<bytes>, calls: seq<Call>, run: seq<Event>,
                     results: nat -> int, at: nat, rets: seq<Result<()>>)
    requires |calls| == |requests| && StepsFor(u, vet, requests, calls, run)
    requires ReturnsOf(u, results, at, run, rets)
    ensures |rets| == |requests|
    ensures forall k :: 0 <= k < |rets| ==> (rets[k] == Err(EBADMSG) <==> ParseHeader(u, vet, requests[k]).Err?)
    ensures forall k :: 0 <= k < |rets| ==>
              Explains(OutcomeOf(u, run[k]), results(at + WritesBefore(u, run, k)), rets[k])
    ensures AllZero(rets) ==>
              && Served(u, requests, calls, Written(u, run))
              && Resplit(Stream(results, at, Written(u, run))) == Some(Written(u, run))
  {
    hide OutcomeOf, Served, Written, ParseHeader, Resplit, Stream, StepFor, Explains;
    forall k | 0 <= k < |rets| ensures rets[k] == Err(EBADMSG) <==> ParseHeader(u, vet, requests[k]).Err? {
      BadMessageMeansMalformed(u, vet, requests[k], calls[k], run[k], results(at + WritesBefore(u, run, k)));
    }
    forall k | 0 <= k < |rets|
      ensures Explains(OutcomeOf(u, run[k]), results(at + WritesBefore(u, run, k)), rets[k])
    {
      ReturnsExplained(u, results, at, run, rets, k);
    }
    if AllZero(rets) {
      ServeRun(u, vet, requests, calls, run, results, at, rets);
    }
  }
}
