/**
 * The slot generator of `GET /api/available-slots`: the day's half-hour grid
 * inside the opening hours, minus the ticks less than one hour ahead of now
 * and the ticks whose [start, start + duration) collides with a busy block.
 */
module Slots {
  import opened Wrappers
  import opened BusinessHours
  import opened Collision
  import opened Text

  /** Minimum lead time between now and a bookable start. */
  const LeadMs: int := Ms(60)

  /** A returned slot: its instant (`time`) and its "HH:MM" wall-clock text (`display`). */
  datatype Slot = Slot(time: int, display: string)

  /**
   * What one day's generation depends on: the service duration in minutes,
   * the instant of 00:00 of the day at UTC-03:00, the current instant, and
   * the busy blocks the calendar reported for the day.
   */
  datatype Query = Query(duration: nat, base: int, now: int, busy: seq<Block>)

  // ---------------------------------------------------------------------
  // The grid, as the nested hour/minute loops enumerate it
  // ---------------------------------------------------------------------

  /** The loop bounds: `Math.floor` and the minutes of the fractional part of opening and closing. */
  datatype Bounds = Bounds(startHour: nat, startMinute: nat, endHour: nat, endMinute: nat)

  function BoundsOf(h: Hours): (b: Bounds)
    ensures h.start == b.startHour * 60 + b.startMinute && b.startMinute < 60
    ensures h.end == b.endHour * 60 + b.endMinute && b.endMinute < 60
  {
    Bounds(h.start / 60, h.start % 60, h.end / 60, h.end % 60)
  }

  /** Neither skipped (`continue`) before opening nor cut off (`break`) after closing. */
  predicate Kept(b: Bounds, hour: nat, minute: nat) {
    !(hour == b.startHour && minute < b.startMinute) &&
    !(hour == b.endHour && minute > b.endMinute)
  }

  /** The kept ticks of `hour` at the minutes (0 and 30) below `minute`. */
  function HourTicks(b: Bounds, hour: nat, minute: nat): seq<nat>
  {
    if minute < 30 then []
    else HourTicks(b, hour, minute - 30) + (if Kept(b, hour, minute - 30) then [hour * 60 + minute - 30] else [])
  }

  /** The kept ticks of the hours from the opening hour up to, not including, `hour`. */
  function GridBefore(b: Bounds, hour: nat): seq<nat>
  {
    if hour <= b.startHour then [] else GridBefore(b, hour - 1) + HourTicks(b, hour - 1, 60)
  }

  /** The day's ticks, in minutes after midnight, in the order the loops visit them. */
  function Grid(h: Hours): seq<nat> {
    GridBefore(BoundsOf(h), BoundsOf(h).endHour + 1)
  }

  ghost predicate Ascending(s: seq<nat>) {
    forall i, j :: 0 <= i < j < |s| ==> s[i] < s[j]
  }

  /** Within the opening hours' span of hours, a tick is kept exactly when it lies between opening and closing. */
  lemma HourTicksInWindow(h: Hours, hour: nat)
    requires BoundsOf(h).startHour <= hour <= BoundsOf(h).endHour
    ensures HourTicks(BoundsOf(h), hour, 60) ==
            (if h.start <= hour * 60 <= h.end then [hour * 60] else []) +
            (if h.start <= hour * 60 + 30 <= h.end then [hour * 60 + 30] else [])
  {
    var b := BoundsOf(h);
    assert HourTicks(b, hour, 0) == [];
    assert HourTicks(b, hour, 30) == (if Kept(b, hour, 0) then [hour * 60] else []);
    assert Kept(b, hour, 0) <==> h.start <= hour * 60 <= h.end;
    assert Kept(b, hour, 30) <==> h.start <= hour * 60 + 30 <= h.end;
  }

  /** The kept ticks of one hour are its half hours inside the opening window. */
  lemma InHourTicks(h: Hours, hour: nat, t: nat)
    requires BoundsOf(h).startHour <= hour <= BoundsOf(h).endHour
    ensures t in HourTicks(BoundsOf(h), hour, 60) <==>
            t % 30 == 0 && h.start <= t <= h.end && hour * 60 <= t < hour * 60 + 60
  {
    HourTicksInWindow(h, hour);
    HalfHoursOf(hour, t);
    assert hour * 60 % 30 == 0 && (hour * 60 + 30) % 30 == 0;
  }

  /** The only multiples of 30 within an hour are its :00 and :30. */
  lemma HalfHoursOf(hour: nat, t: int)
    ensures t % 30 == 0 && hour * 60 <= t < hour * 60 + 60 ==> t == hour * 60 || t == hour * 60 + 30
  {
    var k := t / 30;
    assert t == 30 * k + t % 30;
  }

  /** Two ascending runs, the first wholly below `m` and the second wholly at or above it, make an ascending run. */
  lemma AscendingAppend(a: seq<nat>, c: seq<nat>, m: int)
    requires Ascending(a) && Ascending(c)
    requires forall x :: x in a ==> x < m
    requires forall y :: y in c ==> m <= y
    ensures Ascending(a + c)
  {
    var s := a + c;
    forall i, j | 0 <= i < j < |s|
      ensures s[i] < s[j]
    {
      if j < |a| {
        assert s[i] == a[i] && s[j] == a[j];
      } else if i >= |a| {
        assert s[i] == c[i - |a|] && s[j] == c[j - |a|];
      } else {
        assert s[i] == a[i] && s[j] == c[j - |a|];
        assert s[i] in a && s[j] in c;
      }
    }
  }

  /** The ticks of the hours before `hour`: the half hours of the opening window below `hour`:00, ascending. */
  lemma {:induction false} GridBeforeShape(h: Hours, hour: nat)
    requires BoundsOf(h).startHour <= hour <= BoundsOf(h).endHour + 1
    ensures Ascending(GridBefore(BoundsOf(h), hour))
    ensures forall t: nat :: t in GridBefore(BoundsOf(h), hour) <==> t % 30 == 0 && h.start <= t <= h.end && t < hour * 60
  {
    var b := BoundsOf(h);
    if hour > b.startHour {
      GridBeforeShape(h, hour - 1);
      GridBeforeStep(h, hour - 1, hour);
    }
  }

  /** One more hour of the outer loop adds its kept half hours above all earlier ones. */
  lemma GridBeforeStep(h: Hours, prev: nat, hour: nat)
    requires hour == prev + 1 && BoundsOf(h).startHour <= prev <= BoundsOf(h).endHour
    requires Ascending(GridBefore(BoundsOf(h), prev))
    requires forall t: nat :: t in GridBefore(BoundsOf(h), prev) <==> t % 30 == 0 && h.start <= t <= h.end && t < prev * 60
    ensures Ascending(GridBefore(BoundsOf(h), hour))
    ensures forall t: nat :: t in GridBefore(BoundsOf(h), hour) <==> t % 30 == 0 && h.start <= t <= h.end && t < hour * 60
  {
    var b := BoundsOf(h);
    var before := GridBefore(b, prev);
    var cur := HourTicks(b, prev, 60);
    HourTicksInWindow(h, prev);
    assert GridBefore(b, hour) == before + cur;
    forall t: nat
      ensures t in before + cur <==> t % 30 == 0 && h.start <= t <= h.end && t < hour * 60
    {
      InHourTicks(h, prev, t);
      assert t in before + cur <==> t in before || t in cur;
    }
    AscendingAppend(before, cur, prev * 60);
  }

  /**
   * The nested loops visit exactly the :00 and :30 ticks from opening to
   * closing, both included, in ascending order.
   */
  lemma GridShape(h: Hours)
    ensures Ascending(Grid(h))
    ensures forall t :: t in Grid(h) <==> t % 30 == 0 && h.start <= t <= h.end
  {
    var b := BoundsOf(h);
    if b.endHour + 1 >= b.startHour {
      GridBeforeShape(h, b.endHour + 1);
    } else {
      assert Grid(h) == [];
    }
  }

  /** An ascending sequence holding exactly the first `n` steps of 30 from `lo` is that progression. */
  lemma {:induction false} AscendingProgression(s: seq<nat>, lo: nat, n: nat)
    requires Ascending(s)
    requires forall t :: t in s <==> lo <= t < lo + 30 * n && (t - lo) % 30 == 0
    ensures s == seq(n, i => lo + 30 * i)
  {
    assert n > 0 ==> lo in s;
    if s != [] {
      ProgressionHead(s, lo, n);
      var rest := s[1..];
      ProgressionTail(s, lo, n);
      assert lo + 30 + 30 * (n - 1) == lo + 30 * n;
      AscendingProgression(rest, lo + 30, n - 1);
      assert s == [lo] + rest;
    }
  }

  /** The least element of such a sequence is `lo`. */
  lemma ProgressionHead(s: seq<nat>, lo: nat, n: nat)
    requires Ascending(s) && s != []
    requires forall t :: t in s <==> lo <= t < lo + 30 * n && (t - lo) % 30 == 0
    ensures s[0] == lo && n > 0
  {
    assert s[0] in s;
    assert lo in s;
    var k :| 0 <= k < |s| && s[k] == lo;
    assert s[0] <= s[k];
  }

  /** Dropping `lo` leaves the progression from `lo + 30`. */
  lemma ProgressionTail(s: seq<nat>, lo: nat, n: nat)
    requires Ascending(s) && s != [] && s[0] == lo
    requires forall t :: t in s <==> lo <= t < lo + 30 * n && (t - lo) % 30 == 0
    ensures forall t :: t in s[1..] <==> lo + 30 <= t < lo + 30 * n && (t - (lo + 30)) % 30 == 0
  {
    var rest := s[1..];
    forall t
      ensures t in rest <==> lo + 30 <= t < lo + 30 * n && (t - (lo + 30)) % 30 == 0
    {
      ShiftMod(t - (lo + 30));
      SmallMod(t - lo);
      if t in rest {
        var j :| 0 <= j < |rest| && rest[j] == t;
        assert s[j + 1] == t && s[0] < s[j + 1];
        assert t in s;
      }
      if lo + 30 <= t < lo + 30 * n && (t - lo) % 30 == 0 {
        assert t in s;
        var j :| 0 <= j < |s| && s[j] == t;
        assert j > 0;
        assert rest[j - 1] == t;
      }
    }
  }

  lemma SmallMod(x: int)
    ensures 0 <= x < 30 ==> x % 30 == x
  {
  }

  lemma ShiftMod(x: int)
    ensures (x + 30) % 30 == x % 30
  {
  }

  lemma ShiftByMultiple(t: int, s: int)
    requires s % 30 == 0
    ensures (t - s) % 30 == t % 30
  {
    var k := s / 30;
    assert s == 30 * k;
    var m := t / 30;
    assert t - s == 30 * (m - k) + t % 30;
  }

  lemma ProgressionBound(s: int, e: int, t: int)
    requires s <= e
    ensures s <= t && (t - s) % 30 == 0 ==> (t <= e <==> t < s + 30 * ((e - s) / 30 + 1))
  {
    var k, m := (t - s) / 30, (e - s) / 30;
    assert t - s == 30 * k + (t - s) % 30;
    assert e - s == 30 * m + (e - s) % 30;
  }

  lemma GridMembers(h: Hours)
    requires h.start % 30 == 0 && h.start <= h.end
    ensures forall t :: t in Grid(h) <==>
              h.start <= t < h.start + 30 * ((h.end - h.start) / 30 + 1) && (t - h.start) % 30 == 0
  {
    GridShape(h);
    forall t
      ensures t in Grid(h) <==>
              h.start <= t < h.start + 30 * ((h.end - h.start) / 30 + 1) && (t - h.start) % 30 == 0
    {
      TickArithmetic(h.start, h.end, t);
    }
  }

  /** A half-hour tick between `s` and `e` is a step of the progression from `s`, and back. */
  lemma TickArithmetic(s: int, e: int, t: int)
    requires s % 30 == 0 && s <= e
    ensures (t % 30 == 0 && s <= t <= e) <==> (s <= t < s + 30 * ((e - s) / 30 + 1) && (t - s) % 30 == 0)
  {
    ShiftByMultiple(t, s);
    ProgressionBound(s, e, t);
  }

  /** A window opening on the hour or half hour gives every half hour from opening to closing. */
  lemma GridProgression(h: Hours)
    requires h.start % 30 == 0 && h.start <= h.end
    ensures Grid(h) == seq((h.end - h.start) / 30 + 1, i => h.start + 30 * i)
  {
    var n := (h.end - h.start) / 30 + 1;
    GridShape(h);
    GridMembers(h);
    AscendingProgression(Grid(h), h.start, n);
  }

  /** Monday to Friday: 20 ticks, 09:00, 09:30, ..., 18:30 (the closing time included). */
  lemma WeekdayGrid()
    ensures Grid(Weekdays) == seq(20, i => 540 + 30 * i)
  {
    GridProgression(Weekdays);
    assert (Weekdays.end - Weekdays.start) / 30 + 1 == 20;
  }

  /** Saturday: 13 ticks, 08:00, 08:30, ..., 14:00 (the closing time included). */
  lemma SaturdayGrid()
    ensures Grid(Saturday) == seq(13, i => 480 + 30 * i)
  {
    GridProgression(Saturday);
    assert (Saturday.end - Saturday.start) / 30 + 1 == 13;
  }

  // ---------------------------------------------------------------------
  // Filtering the grid
  // ---------------------------------------------------------------------

  /** The slot emitted for tick `t` (minutes after midnight) of the day starting at `base`. */
  function MkSlot(base: int, t: nat): Slot {
    Slot(base + Ms(t), Hhmm(t))
  }

  /** One step of the inner loop: what the tick at `hour`:`minute` adds after the earlier ones. */
  lemma TickStep(b: Bounds, hour: nat, minute: nat, q: Query)
    requires minute == 0 || minute == 30
    ensures Select(HourTicks(b, hour, minute + 30), q) ==
            Select(HourTicks(b, hour, minute), q) +
            (if Kept(b, hour, minute) && Keep(q, hour * 60 + minute)
             then [Slot(q.base + Ms(hour * 60 + minute), Pad2(hour) + ":" + Pad2(minute))]
             else [])
  {
    var t := hour * 60 + minute;
    var earlier := HourTicks(b, hour, minute);
    if Kept(b, hour, minute) {
      assert HourTicks(b, hour, minute + 30) == earlier + [t];
      SelectAppend(earlier, [t], q);
      HhmmOfTick(hour, minute);
      SelectSingle(t, q);
      assert MkSlot(q.base, t) == Slot(q.base + Ms(hour * 60 + minute), Pad2(hour) + ":" + Pad2(minute));
    } else {
      assert HourTicks(b, hour, minute + 30) == earlier + [];
      assert earlier + [] == earlier;
      assert Select(earlier, q) + [] == Select(earlier, q);
    }
  }

  lemma SelectSingle(t: nat, q: Query)
    ensures Select([t], q) == if Keep(q, t) then [MkSlot(q.base, t)] else []
  {
    SelectCons(t, [], q);
  }

  /** A tick survives: at least one hour ahead of now, and free of every busy block. */
  ghost predicate Keep(q: Query, t: nat) {
    var time := q.base + Ms(t);
    !(time < q.now + LeadMs) && Free(time, time + Ms(q.duration), q.busy)
  }

  /** The slots of the surviving ticks, in tick order. */
  ghost function Select(ticks: seq<nat>, q: Query): seq<Slot> {
    if ticks == [] then []
    else (if Keep(q, ticks[0]) then [MkSlot(q.base, ticks[0])] else []) + Select(ticks[1..], q)
  }

  lemma SelectCons(t: nat, rest: seq<nat>, q: Query)
    ensures Select([t] + rest, q) == (if Keep(q, t) then [MkSlot(q.base, t)] else []) + Select(rest, q)
  {
    assert ([t] + rest)[1..] == rest;
  }

  lemma {:induction false} SelectAppend(a: seq<nat>, b: seq<nat>, q: Query)
    ensures Select(a + b, q) == Select(a, q) + Select(b, q)
  {
    if a == [] {
      assert a + b == b;
    } else {
      assert (a + b)[1..] == a[1..] + b;
      SelectAppend(a[1..], b, q);
    }
  }

  /** A slot is returned exactly when it is the slot of a surviving tick. */
  lemma {:induction false} SelectMember(ticks: seq<nat>, q: Query, s: Slot)
    ensures s in Select(ticks, q) <==>
            exists i :: 0 <= i < |ticks| && Keep(q, ticks[i]) && s == MkSlot(q.base, ticks[i])
  {
    if ticks != [] {
      SelectMember(ticks[1..], q, s);
      if s in Select(ticks[1..], q) {
        var i :| 0 <= i < |ticks[1..]| && Keep(q, ticks[1..][i]) && s == MkSlot(q.base, ticks[1..][i]);
        assert ticks[i + 1] == ticks[1..][i];
      }
      if exists i :: 0 <= i < |ticks| && Keep(q, ticks[i]) && s == MkSlot(q.base, ticks[i]) {
        var i :| 0 <= i < |ticks| && Keep(q, ticks[i]) && s == MkSlot(q.base, ticks[i]);
        if i > 0 {
          assert ticks[1..][i - 1] == ticks[i];
        }
      }
    }
  }

  /** Ticks all later than `m` give slots all later than `m`'s instant. */
  lemma {:induction false} SelectAbove(ticks: seq<nat>, q: Query, m: nat)
    requires forall i :: 0 <= i < |ticks| ==> m < ticks[i]
    ensures forall j :: 0 <= j < |Select(ticks, q)| ==> q.base + Ms(m) < Select(ticks, q)[j].time
  {
    if ticks != [] {
      SelectAbove(ticks[1..], q, m);
      var head: seq<Slot> := if Keep(q, ticks[0]) then [MkSlot(q.base, ticks[0])] else [];
      var rest := Select(ticks[1..], q);
      assert Select(ticks, q) == head + rest;
      forall j | 0 <= j < |head + rest|
        ensures q.base + Ms(m) < (head + rest)[j].time
      {
        if j < |head| {
          assert (head + rest)[j] == MkSlot(q.base, ticks[0]);
        } else {
          assert (head + rest)[j] == rest[j - |head|];
        }
      }
    }
  }

  /** Strictly ascending ticks give strictly ascending slot times. */
  lemma {:induction false} SelectAscending(ticks: seq<nat>, q: Query)
    requires forall i, j :: 0 <= i < j < |ticks| ==> ticks[i] < ticks[j]
    ensures forall i, j :: 0 <= i < j < |Select(ticks, q)| ==> Select(ticks, q)[i].time < Select(ticks, q)[j].time
  {
    if ticks != [] {
      var rest := Select(ticks[1..], q);
      SelectAscending(ticks[1..], q);
      if Keep(q, ticks[0]) {
        SelectAbove(ticks[1..], q, ticks[0]);
        ConsAscending(MkSlot(q.base, ticks[0]), rest);
      }
    }
  }

  /** A slot earlier than every slot of an ascending list can go in front of it. */
  lemma ConsAscending(head: Slot, rest: seq<Slot>)
    requires forall i, j :: 0 <= i < j < |rest| ==> rest[i].time < rest[j].time
    requires forall j :: 0 <= j < |rest| ==> head.time < rest[j].time
    ensures forall i, j :: 0 <= i < j < |[head] + rest| ==> ([head] + rest)[i].time < ([head] + rest)[j].time
  {
    var s := [head] + rest;
    forall i, j | 0 <= i < j < |s|
      ensures s[i].time < s[j].time
    {
      assert s[j] == rest[j - 1];
      if i > 0 {
        assert s[i] == rest[i - 1];
      }
    }
  }

  // ---------------------------------------------------------------------
  // The generator
  // ---------------------------------------------------------------------

  /**
   * The inner `minute` loop of the handler for one hour: minutes 0 and 30,
   * skipping a minute before opening, stopping at a minute after closing,
   * skipping a tick less than an hour ahead, and keeping a free tick.
   */
  method HourSlots(h: Hours, b: Bounds, q: Query, hour: nat) returns (slots: seq<Slot>)
    requires b == BoundsOf(h)
    ensures slots == Select(HourTicks(b, hour, 60), q)
  {
    slots := [];
    var minute := 0;
    while minute < 60
      invariant minute == 0 || minute == 30 || minute == 60
      invariant slots == Select(HourTicks(b, hour, minute), q)
    {
      TickStep(b, hour, minute, q);
      if hour == b.startHour && minute < b.startMinute {
        minute := minute + 30;
        continue;
      }
      if hour == b.endHour && minute > b.endMinute {
        AfterClosing(b, hour, minute, q);
        break;
      }
      var slotTime := q.base + Ms(hour * 60 + minute);
      if slotTime < q.now + LeadMs {
        minute := minute + 30;
        continue;
      }
      var available := IsTimeSlotAvailable(slotTime, q.duration, q.busy, Some(h));
      assert available == Keep(q, hour * 60 + minute);
      if available {
        slots := slots + [Slot(slotTime, Pad2(hour) + ":" + Pad2(minute))];
      }
      minute := minute + 30;
    }
  }

  /** The outer `hour` loop of the handler: opening hour to closing hour, inclusive. */
  method GenerateSlots(h: Hours, q: Query) returns (slots: seq<Slot>)
    ensures slots == Select(Grid(h), q)
  {
    var b := BoundsOf(h);
    slots := [];
    var hour := b.startHour;
    while hour <= b.endHour
      invariant b.startHour <= hour
      invariant hour <= b.endHour + 1 || hour == b.startHour
      invariant slots == Select(GridBefore(b, hour), q)
      decreases b.endHour + 1 - hour
    {
      var hourSlots := HourSlots(h, b, q, hour);
      SelectHourStep(b, hour, q);
      slots := slots + hourSlots;
      hour := hour + 1;
    }
    GridBeforeEnd(h, hour);
  }

  /** A break after closing: the remaining ticks of the closing hour are all cut off. */
  lemma AfterClosing(b: Bounds, hour: nat, minute: nat, q: Query)
    requires minute == 0 || minute == 30
    requires hour == b.endHour && minute > b.endMinute
    ensures Select(HourTicks(b, hour, 60), q) == Select(HourTicks(b, hour, minute), q)
  {
    assert HourTicks(b, hour, 60) == HourTicks(b, hour, minute) by {
      assert minute == 30 && !Kept(b, hour, 30);
    }
  }

  /** One more hour of the outer loop appends that hour's slots. */
  lemma SelectHourStep(b: Bounds, hour: nat, q: Query)
    requires b.startHour <= hour
    ensures Select(GridBefore(b, hour + 1), q) == Select(GridBefore(b, hour), q) + Select(HourTicks(b, hour, 60), q)
  {
    assert GridBefore(b, hour + 1) == GridBefore(b, hour) + HourTicks(b, hour, 60);
    SelectAppend(GridBefore(b, hour), HourTicks(b, hour, 60), q);
  }

  /** Where the outer loop stops, the ticks visited are the whole grid. */
  lemma GridBeforeEnd(h: Hours, hour: nat)
    requires BoundsOf(h).startHour <= hour
    requires hour == BoundsOf(h).endHour + 1 || (hour == BoundsOf(h).startHour && hour > BoundsOf(h).endHour)
    ensures GridBefore(BoundsOf(h), hour) == Grid(h)
  {
    var b := BoundsOf(h);
    if hour != b.endHour + 1 {
      assert GridBefore(b, hour) == [] && GridBefore(b, b.endHour + 1) == [];
    }
  }

  // ---------------------------------------------------------------------
  // What the generated list promises
  // ---------------------------------------------------------------------

  /**
   * A slot is returned exactly when it is the slot of a :00 or :30 tick
   * between opening and closing (both included) that is at least one hour
   * ahead of now and collides with no busy block.
   */
  lemma SlotsMember(h: Hours, q: Query, s: Slot)
    ensures s in Select(Grid(h), q) <==>
            exists t: nat :: t % 30 == 0 && h.start <= t <= h.end && Keep(q, t) && s == MkSlot(q.base, t)
  {
    GridShape(h);
    SelectMember(Grid(h), q, s);
    if s in Select(Grid(h), q) {
      var i :| 0 <= i < |Grid(h)| && Keep(q, Grid(h)[i]) && s == MkSlot(q.base, Grid(h)[i]);
      assert Grid(h)[i] in Grid(h);
    }
    if exists t: nat :: t % 30 == 0 && h.start <= t <= h.end && Keep(q, t) && s == MkSlot(q.base, t) {
      var t: nat :| t % 30 == 0 && h.start <= t <= h.end && Keep(q, t) && s == MkSlot(q.base, t);
      assert t in Grid(h);
      var i :| 0 <= i < |Grid(h)| && Grid(h)[i] == t;
    }
  }

  /** A tick of the window yields a slot exactly when it survives the lead time and the busy blocks. */
  lemma SlotOfTick(h: Hours, q: Query, t: nat)
    requires t % 30 == 0 && h.start <= t <= h.end
    ensures MkSlot(q.base, t) in Select(Grid(h), q) <==> Keep(q, t)
  {
    SlotsMember(h, q, MkSlot(q.base, t));
    if MkSlot(q.base, t) in Select(Grid(h), q) {
      var u: nat :| u % 30 == 0 && h.start <= u <= h.end && Keep(q, u) && MkSlot(q.base, t) == MkSlot(q.base, u);
      assert Ms(t) == Ms(u);
    }
  }

  /** The slots come out in strictly ascending order of time. */
  lemma SlotsAscending(h: Hours, q: Query)
    ensures forall i, j :: 0 <= i < j < |Select(Grid(h), q)| ==> Select(Grid(h), q)[i].time < Select(Grid(h), q)[j].time
  {
    GridShape(h);
    SelectAscending(Grid(h), q);
  }

  /** No slot starts less than one hour after now. */
  lemma SlotsRespectLead(h: Hours, q: Query)
    ensures forall s :: s in Select(Grid(h), q) ==> s.time >= q.now + Ms(60)
  {
    forall s | s in Select(Grid(h), q)
      ensures s.time >= q.now + Ms(60)
    {
      SlotsMember(h, q, s);
    }
  }

  /** No slot collides with a busy block over the service's whole duration. */
  lemma SlotsAreFree(h: Hours, q: Query)
    ensures forall s :: s in Select(Grid(h), q) ==> Free(s.time, s.time + Ms(q.duration), q.busy)
  {
    forall s | s in Select(Grid(h), q)
      ensures Free(s.time, s.time + Ms(q.duration), q.busy)
    {
      SlotsMember(h, q, s);
    }
  }

  /** Each display text is the zero-padded "HH:MM" of the slot's own time of day. */
  lemma SlotsDisplayTheirTime(h: Hours, q: Query)
    requires h.end <= 24 * 60
    ensures forall s :: s in Select(Grid(h), q) ==>
              ParseHhmm(s.display).Some? && s.time == q.base + Ms(ParseHhmm(s.display).value)
  {
    forall s | s in Select(Grid(h), q)
      ensures ParseHhmm(s.display).Some? && s.time == q.base + Ms(ParseHhmm(s.display).value)
    {
      SlotsMember(h, q, s);
      var t: nat :| t % 30 == 0 && h.start <= t <= h.end && Keep(q, t) && s == MkSlot(q.base, t);
      ParseHhmmInvertsHhmm(t);
    }
  }

  /** More busy time never adds a slot: every block of `q.busy` is also in `more`. */
  lemma SlotsShrinkWithBusy(h: Hours, q: Query, more: seq<Block>)
    requires forall i :: 0 <= i < |q.busy| ==> q.busy[i] in more
    ensures forall s :: s in Select(Grid(h), q.(busy := more)) ==> s in Select(Grid(h), q)
  {
    var q' := q.(busy := more);
    forall s | s in Select(Grid(h), q')
      ensures s in Select(Grid(h), q)
    {
      SlotsMember(h, q', s);
      var t: nat :| t % 30 == 0 && h.start <= t <= h.end && Keep(q', t) && s == MkSlot(q'.base, t);
      FreeAntitone(s.time, s.time + Ms(q.duration), q.busy, more);
      SlotsMember(h, q, s);
    }
  }

  /** When every tick survives, each one yields its slot, in order. */
  lemma {:induction false} SelectKeepsAll(ticks: seq<nat>, q: Query)
    requires forall i :: 0 <= i < |ticks| ==> Keep(q, ticks[i])
    ensures Select(ticks, q) == seq(|ticks|, i requires 0 <= i < |ticks| => MkSlot(q.base, ticks[i]))
  {
    if ticks != [] {
      SelectKeepsAll(ticks[1..], q);
    }
  }

  /**
   * With nothing busy and the opening at least an hour away, every tick of
   * the grid is offered.
   */
  lemma AllTicksWhenIdle(h: Hours, q: Query)
    requires q.busy == [] && q.now + Ms(60) <= q.base + Ms(h.start)
    ensures Select(Grid(h), q) == seq(|Grid(h)|, i requires 0 <= i < |Grid(h)| => MkSlot(q.base, Grid(h)[i]))
  {
    GridShape(h);
    forall i | 0 <= i < |Grid(h)|
      ensures Keep(q, Grid(h)[i])
    {
      assert Grid(h)[i] in Grid(h);
      var time := q.base + Ms(Grid(h)[i]);
      FreeWhenNothingBusy(time, time + Ms(q.duration));
    }
    SelectKeepsAll(Grid(h), q);
  }

  // ---------------------------------------------------------------------
  // One day
  // ---------------------------------------------------------------------

  /** The slots of a day: none on Sunday, otherwise the filtered grid of that day's hours. */
  ghost function DaySlots(weekday: Weekday, q: Query): seq<Slot> {
    match WindowFor(weekday)
    case None => []
    case Some(h) => Select(Grid(h), q)
  }

  /** Any Monday to Friday with nothing booked, asked an hour before opening or earlier, offers all twenty half hours. */
  lemma IdleWeekdayOffersTwenty(day: Weekday, q: Query)
    requires 1 <= day <= 5 && q.busy == [] && q.now + Ms(60) <= q.base + Ms(540)
    ensures |DaySlots(day, q)| == 20
    ensures DaySlots(day, q)[0].display == "09:00" && DaySlots(day, q)[19].display == "18:30"
  {
    assert DaySlots(day, q) == Select(Grid(Weekdays), q);
    WeekdayGrid();
    AllTicksWhenIdle(Weekdays, q);
    HhmmWeekdayEnds();
  }

  lemma HhmmWeekdayEnds()
    ensures Hhmm(540) == "09:00" && Hhmm(1110) == "18:30"
  {
    assert Pad2(9) == "09" && Pad2(0) == "00";
    assert Pad2(18) == "18" by {
      assert Decimal(1) == "1";
    }
    assert Pad2(30) == "30" by {
      assert Decimal(3) == "3";
    }
  }

  /**
   * A two-hour service on a weekday with 11:00-12:00 booked: 09:00 ends
   * exactly when the booking starts and 12:00 starts exactly when it ends,
   * so both stay; 09:30 and 11:30 overlap it and are dropped.
   */
  lemma TwoHourServiceAroundBooking(q: Query)
    requires q.duration == 120 && q.busy == [Block(q.base + Ms(660), q.base + Ms(720))]
    requires q.now + Ms(60) <= q.base + Ms(540)
    ensures MkSlot(q.base, 540) in DaySlots(3, q)
    ensures MkSlot(q.base, 570) !in DaySlots(3, q)
    ensures MkSlot(q.base, 690) !in DaySlots(3, q)
    ensures MkSlot(q.base, 720) in DaySlots(3, q)
  {
    assert q.busy[0] == Block(q.base + Ms(660), q.base + Ms(720));
    assert Keep(q, 540) && Keep(q, 720);
    assert !Keep(q, 570) && !Keep(q, 690);
    SlotOfTick(Weekdays, q, 540);
    SlotOfTick(Weekdays, q, 570);
    SlotOfTick(Weekdays, q, 690);
    SlotOfTick(Weekdays, q, 720);
  }

  /**
   * Closing time is not checked against the service's end: a two-hour
   * service is still offered at 18:30 on a free weekday, ending at 20:30.
   */
  lemma LastTickIgnoresClosing(q: Query)
    requires q.duration == 120 && q.busy == [] && q.now + Ms(60) <= q.base + Ms(1110)
    ensures MkSlot(q.base, 1110) in DaySlots(1, q)
    ensures MkSlot(q.base, 1110).time + Ms(q.duration) > q.base + Ms(Weekdays.end)
  {
    FreeWhenNothingBusy(q.base + Ms(1110), q.base + Ms(1110) + Ms(120));
    SlotOfTick(Weekdays, q, 1110);
  }
}
