/**
 * The global allocator as an arbitrary schedule of grants and refusals. A request is one
 * call that may be refused: a GUID vector's reservation when it has no room, or one
 * `try_extend` of the frame buffer, whether or not that would have to grow.
 */
module Heap {

  /** A grant may leave `slack` elements more than were asked for. */
  datatype Answer = Refuse | Grant(slack: nat)

  /** Requests `lo..hi` of the schedule are all granted. */
  ghost predicate Grants(schedule: nat -> Answer, lo: nat, hi: nat) {
    forall k :: lo <= k < hi ==> schedule(k).Grant?
  }

  /** How many of the first `n` requests the schedule refuses. */
  ghost function Refused(schedule: nat -> Answer, n: nat): nat {
    if n == 0 then 0 else Refused(schedule, n - 1) + if schedule(n - 1).Refuse? then 1 else 0
  }

  /** The count stands still exactly over a stretch of grants. */
  lemma {:induction false} RefusedIff(schedule: nat -> Answer, lo: nat, hi: nat)
    requires lo <= hi
    ensures Refused(schedule, lo) <= Refused(schedule, hi)
    ensures Refused(schedule, lo) == Refused(schedule, hi) <==> Grants(schedule, lo, hi)
    decreases hi
  {
    if lo < hi {
      RefusedIff(schedule, lo, hi - 1);
    }
  }

  class Allocator {
    const schedule: nat -> Answer
    var asked: nat

    /** The refusals so far: what the schedule says of the requests made. */
    ghost function Refusals(): nat
      reads this
    {
      Refused(schedule, asked)
    }

    constructor (schedule: nat -> Answer)
      ensures this.schedule == schedule && asked == 0 && Refusals() == 0
    {
      this.schedule := schedule;
      asked := 0;
    }

    method Ask() returns (answer: Answer)
      modifies this
      ensures answer == schedule(old(asked)) && asked == old(asked) + 1
      ensures Refusals() == old(Refusals()) + if answer.Refuse? then 1 else 0
    {
      answer := schedule(asked);
      asked := asked + 1;
    }
  }
}
