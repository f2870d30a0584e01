/**
 * `GET /api/available-slots`: the parameter checks, the service lookup,
 * the Sunday rule and the slot generator, with the two calls the handler
 * makes into libraries (the date parser and the calendar's free/busy query)
 * taken as inputs.
 */
module SlotsEndpoint {
  import opened Wrappers
  import opened Http
  import opened BusinessHours
  import opened Collision
  import opened Catalog
  import opened Slots

  /** The query string; an absent parameter is the empty string. */
  datatype SlotsQuery = SlotsQuery(serviceId: string, date: string)

  /**
   * What the date library makes of `date`: the instant of its 00:00 at
   * UTC-03:00, and the weekday the host's time zone gives that instant.
   */
  datatype Day = Day(base: int, weekday: Weekday)

  const MissingParameters := HttpError(400, "serviceId e date são obrigatórios")
  const SlotsUnavailable := HttpError(500, "Erro ao buscar horários disponíveis")

  /**
   * The handler. `day` is None when the date text is not a date (turning it
   * into the query's time range throws); `busy` is None when the free/busy
   * query fails. Both failures reach the catch-all and answer 500, and both
   * come before the Sunday rule, as the query runs first. A service id that
   * names an inherited member passes the `!service` test with an undefined
   * duration; its slots are those of a duration reaching past every busy
   * block's start (see `Reach`).
   */
  method AvailableSlots(req: SlotsQuery, day: Option<Day>, busy: Option<seq<Block>>, now: int)
    returns (r: Result<seq<Slot>, HttpError>)
    ensures req.serviceId == [] || req.date == [] ==> r == Failure(MissingParameters)
    ensures req.serviceId != [] && req.date != [] && req.serviceId !in Services && req.serviceId !in PrototypeKeys ==>
              r == Failure(InvalidService)
    ensures req.serviceId != [] && req.date != [] && (req.serviceId in Services || req.serviceId in PrototypeKeys) &&
            (day.None? || busy.None?) ==>
              r == Failure(SlotsUnavailable)
    ensures r.Success? <==>
              req.serviceId != [] && req.date != [] && (req.serviceId in Services || req.serviceId in PrototypeKeys) &&
              day.Some? && busy.Some?
    ensures r.Success? && req.serviceId in Services ==>
              r.value == DaySlots(day.value.weekday, Query(Services[req.serviceId].duration, day.value.base, now, busy.value))
    ensures r.Success? && req.serviceId !in Services ==>
              r.value == DaySlots(day.value.weekday, Query(Reach(busy.value, day.value.base), day.value.base, now, busy.value))
    ensures r.Success? && day.value.weekday == 0 ==> r.value == []
  {
    if req.serviceId == [] || req.date == [] {
      return Failure(MissingParameters);
    }
    var service := Lookup(req.serviceId);
    if service.Undefined? {
      return Failure(InvalidService);
    }
    if day.None? || busy.None? {
      return Failure(SlotsUnavailable);
    }
    var d := day.value;
    if d.weekday == 0 {
      return Success([]);
    }
    var hours := if d.weekday == 6 then Saturday else Weekdays;
    var duration := if service.Entry? then service.service.duration else Reach(busy.value, d.base);
    var slots := GenerateSlots(hours, Query(duration, d.base, now, busy.value));
    return Success(slots);
  }

  /**
   * With an inherited member for a service, a tick of the day is offered
   * exactly when it is an hour ahead and starts at or after the end of
   * every busy block: blocks later in the day are ignored.
   */
  lemma UndefinedDurationSlots(weekday: Weekday, base: int, now: int, busy: seq<Block>, s: Slot)
    requires weekday != 0
    ensures var h := WindowFor(weekday).value;
            s in DaySlots(weekday, Query(Reach(busy, base), base, now, busy)) <==>
            exists t: nat :: t % 30 == 0 && h.start <= t <= h.end && s == MkSlot(base, t) &&
                             base + Ms(t) >= now + Ms(60) && AfterAll(base + Ms(t), busy)
  {
    var h := WindowFor(weekday).value;
    var q := Query(Reach(busy, base), base, now, busy);
    assert DaySlots(weekday, q) == Select(Grid(h), q);
    SlotsMember(h, q, s);
    if s in Select(Grid(h), q) {
      var t: nat :| t % 30 == 0 && h.start <= t <= h.end && Keep(q, t) && s == MkSlot(q.base, t);
      KeepUndefined(q, t);
    }
    if exists t: nat :: t % 30 == 0 && h.start <= t <= h.end && s == MkSlot(base, t) &&
                        base + Ms(t) >= now + Ms(60) && AfterAll(base + Ms(t), busy) {
      var t: nat :| t % 30 == 0 && h.start <= t <= h.end && s == MkSlot(base, t) &&
                    base + Ms(t) >= now + Ms(60) && AfterAll(base + Ms(t), busy);
      KeepUndefined(q, t);
    }
  }

  /** A tick survives an undefined duration exactly when it is an hour ahead and after every block. */
  lemma KeepUndefined(q: Query, t: nat)
    requires q.duration == Reach(q.busy, q.base)
    ensures Keep(q, t) <==> q.base + Ms(t) >= q.now + Ms(60) && AfterAll(q.base + Ms(t), q.busy)
  {
    UndefinedDurationFree(q.base + Ms(t), q.busy, q.base);
  }
}
