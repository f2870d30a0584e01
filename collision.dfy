/**
 * The interval collision check of the booking server: a candidate slot
 * [start, start + duration) against the busy blocks the calendar reported.
 * Instants are milliseconds since the epoch.
 */
module Collision {
  import opened Wrappers
  import opened BusinessHours

  /** Minutes as milliseconds (`minutes * 60000`). */
  function Ms(minutes: int): int {
    minutes * 60000
  }

  /** A busy interval [start, end) as reported by the calendar's free/busy query. */
  datatype Block = Block(start: int, end: int)

  /**
   * The collision rule: the slot collides unless it lies totally before the
   * block (ends at or before its start) or totally after it (starts at or
   * after its end).
   */
  function Overlaps(slotStart: int, slotEnd: int, busyStart: int, busyEnd: int): (r: bool)
    ensures r <==> slotStart < busyEnd && busyStart < slotEnd
    ensures slotEnd == busyStart || slotStart == busyEnd ==> !r
  {
    var totallyBefore := slotEnd <= busyStart;
    var totallyAfter := slotStart >= busyEnd;
    !(totallyBefore || totallyAfter)
  }

  /** Collision is symmetric in the two intervals. */
  lemma OverlapsSymmetric(a: int, b: int, c: int, d: int)
    ensures Overlaps(a, b, c, d) == Overlaps(c, d, a, b)
  {
  }

  /** No busy block collides with [slotStart, slotEnd). */
  ghost predicate Free(slotStart: int, slotEnd: int, busy: seq<Block>) {
    forall i :: 0 <= i < |busy| ==> !Overlaps(slotStart, slotEnd, busy[i].start, busy[i].end)
  }

  /**
   * `isTimeSlotAvailable`: false when the day has no business hours, otherwise
   * a scan of the busy blocks that stops at the first collision.
   */
  method IsTimeSlotAvailable(slotStart: int, duration: nat, busy: seq<Block>, hours: Option<Hours>)
    returns (available: bool)
    ensures available <==> hours.Some? && Free(slotStart, slotStart + Ms(duration), busy)
  {
    if hours.None? {
      return false;
    }
    var slotEnd := slotStart + Ms(duration);
    var i := 0;
    while i < |busy|
      invariant 0 <= i <= |busy|
      invariant forall j :: 0 <= j < i ==> !Overlaps(slotStart, slotEnd, busy[j].start, busy[j].end)
    {
      var block := busy[i];
      var totallyBefore := slotEnd <= block.start;
      var totallyAfter := slotStart >= block.end;
      if !(totallyBefore || totallyAfter) {
        return false;
      }
      i := i + 1;
    }
    return true;
  }

  /** With no busy blocks every slot is free. */
  lemma FreeWhenNothingBusy(slotStart: int, slotEnd: int)
    ensures Free(slotStart, slotEnd, [])
  {
  }

  /** The order in which the calendar lists the busy blocks does not matter. */
  lemma {:induction false} FreeIgnoresOrder(slotStart: int, slotEnd: int, busy: seq<Block>, other: seq<Block>)
    requires multiset(busy) == multiset(other)
    ensures Free(slotStart, slotEnd, busy) <==> Free(slotStart, slotEnd, other)
  {
    if Free(slotStart, slotEnd, busy) {
      forall j | 0 <= j < |other|
        ensures !Overlaps(slotStart, slotEnd, other[j].start, other[j].end)
      {
        assert other[j] in multiset(busy);
        var i :| 0 <= i < |busy| && busy[i] == other[j];
      }
    }
    if Free(slotStart, slotEnd, other) {
      forall i | 0 <= i < |busy|
        ensures !Overlaps(slotStart, slotEnd, busy[i].start, busy[i].end)
      {
        assert busy[i] in multiset(other);
        var j :| 0 <= j < |other| && other[j] == busy[i];
      }
    }
  }

  /** More busy time never frees a slot: every block of `busy` is also in `more`. */
  lemma {:induction false} FreeAntitone(slotStart: int, slotEnd: int, busy: seq<Block>, more: seq<Block>)
    requires forall i :: 0 <= i < |busy| ==> busy[i] in more
    requires Free(slotStart, slotEnd, more)
    ensures Free(slotStart, slotEnd, busy)
  {
    forall i | 0 <= i < |busy|
      ensures !Overlaps(slotStart, slotEnd, busy[i].start, busy[i].end)
    {
      var j :| 0 <= j < |more| && more[j] == busy[i];
    }
  }

  /** A slot is free of `busy + [b]` exactly when it is free of `busy` and does not collide with `b`. */
  lemma FreeAppend(slotStart: int, slotEnd: int, busy: seq<Block>, b: Block)
    ensures Free(slotStart, slotEnd, busy + [b]) <==>
            Free(slotStart, slotEnd, busy) && !Overlaps(slotStart, slotEnd, b.start, b.end)
  {
    var all := busy + [b];
    assert all[|busy|] == b;
    assert forall i :: 0 <= i < |busy| ==> all[i] == busy[i];
  }
  /**
   * A number of minutes long enough that a slot starting at `base` or later
   * ends after every block of `busy` starts. A slot whose `duration` is
   * undefined ends at NaN, and `NaN <= busyStart` is false for every block,
   * exactly as it is for an end past every block's start.
   */
  function Reach(busy: seq<Block>, base: int): nat {
    if busy == [] then 0
    else
      var here: nat := if busy[0].start >= base then (busy[0].start - base) / 60000 + 1 else 0;
      var rest := Reach(busy[1..], base);
      if here > rest then here else rest
  }

  /** Every block starts before a slot starting at `base` and lasting `Reach` minutes ends. */
  lemma {:induction false} ReachCovers(busy: seq<Block>, base: int)
    ensures forall i :: 0 <= i < |busy| ==> busy[i].start < base + Ms(Reach(busy, base))
  {
    if busy != [] {
      ReachCovers(busy[1..], base);
      var d := busy[0].start - base;
      if d >= 0 {
        assert d < (d / 60000 + 1) * 60000;
      }
      forall i | 0 <= i < |busy|
        ensures busy[i].start < base + Ms(Reach(busy, base))
      {
        if i > 0 {
          assert busy[i] == busy[1..][i - 1];
        }
      }
    }
  }

  /** The slot starts at or after the end of every block. */
  ghost predicate AfterAll(slotStart: int, busy: seq<Block>) {
    forall i :: 0 <= i < |busy| ==> slotStart >= busy[i].end
  }

  /**
   * With the end past every block's start, only `isTotallyAfter` can clear
   * a block: the slot is free exactly when it starts at or after every
   * block's end.
   */
  lemma UndefinedDurationFree(slotStart: int, busy: seq<Block>, base: int)
    requires slotStart >= base
    ensures Free(slotStart, slotStart + Ms(Reach(busy, base)), busy) <==> AfterAll(slotStart, busy)
  {
    ReachCovers(busy, base);
  }
}
