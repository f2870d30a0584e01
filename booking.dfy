/**
 * `POST /api/create-booking` after the synchronous checks: the reCAPTCHA
 * verdict, the service lookup, the start instant read from `dateTime`, and
 * the calendar event the handler builds. The reCAPTCHA verification, the
 * date library and the calendar insertion are inputs.
 */
module Booking {
  import opened Wrappers
  import opened Http
  import opened Text
  import opened Catalog
  import opened Validation
  import opened Collision
  import opened BusinessHours
  import opened Slots

  /** The verification service's answer; `score` is absent from some answers. */
  datatype Captcha = Captcha(success: bool, score: Option<real>)

  /** A reminder override of the event: its channel and how many minutes before the start. */
  datatype Reminder = Reminder(channel: string, minutes: nat)

  /**
   * The calendar event: `start` and `end` are instants in milliseconds, each
   * given with its time zone; `useDefaultReminders` false means `reminders`
   * replace the calendar's defaults.
   */
  datatype Event = Event(summary: string, description: string, start: int, end: int, reminders: seq<Reminder>,
                         startZone: string, endZone: string, useDefaultReminders: bool)

  /** The zone both ends of the event are given in. */
  const EventZone := "America/Sao_Paulo"

  const CaptchaFailed := HttpError(400, "Verificação de segurança falhou. Tente novamente.")
  const BookingFailed := HttpError(500, "Erro ao criar agendamento. Tente novamente.")

  /** 24 hours before by e-mail, one hour before as a pop-up. */
  const Reminders := [Reminder("email", 24 * 60), Reminder("popup", 60)]

  /**
   * `!success || score < 0.5`. A missing score compares as false, so a
   * successful answer without a score is let through.
   */
  predicate CaptchaRejects(c: Captcha): (r: bool)
    ensures !r <==> c.success && (c.score.None? || c.score.value >= 0.5)
  {
    !c.success || (c.score.Some? && c.score.value < 0.5)
  }

  /**
   * Splits "<date>THH:MM" into the date text and the minute of the day
   * (1440 for "24:00"); anything else is None.
   */
  function SplitDateTime(dateTime: string): (r: Option<(string, nat)>)
    ensures r.Some? ==> r.value.1 <= 24 * 60 && dateTime == r.value.0 + "T" + Hhmm(r.value.1)
  {
    if |dateTime| >= 6 && dateTime[|dateTime| - 6] == 'T' then
      var hhmm := dateTime[|dateTime| - 5..];
      match ParseHhmm(hhmm)
      case None => None
      case Some(t) =>
        HhmmInvertsParseHhmm(hhmm);
        assert dateTime == dateTime[..|dateTime| - 6] + "T" + hhmm;
        Some((dateTime[..|dateTime| - 6], t))
    else None
  }

  /**
   * `new Date(dateTime + ":00-03:00")`: the 00:00 (UTC-03:00) instant the
   * date library gives the date part, plus the time of day. None stands for
   * an invalid date, on which `toISOString` throws.
   */
  function StartInstant(dateTime: string, dateBase: string -> Option<int>): (r: Option<int>)
    ensures r.Some? ==> exists date, t :: SplitDateTime(dateTime) == Some((date, t)) && dateBase(date).Some? &&
                                          r.value == dateBase(date).value + Ms(t)
  {
    match SplitDateTime(dateTime)
    case None => None
    case Some((date, t)) =>
      match dateBase(date)
      case None => None
      case Some(base) => Some(base + Ms(t))
  }

  /** The event for a service and a customer, starting at `start`. */
  function MakeEvent(service: Service, req: BookingRequest, start: int): (e: Event)
    ensures e.end - e.start == Ms(service.duration)
    ensures e.summary == service.name + " - " + req.customerName
    ensures e.reminders == Reminders && !e.useDefaultReminders
    ensures e.startZone == EventZone && e.endZone == EventZone
  {
    Event(
      service.name + " - " + req.customerName,
      "Cliente: " + req.customerName + "\nTelefone: " + req.customerPhone +
      "\nServiço: " + service.name + "\nValor: R$ " + Decimal(service.price) + ",00",
      start, start + Ms(service.duration), Reminders, EventZone, EventZone, false)
  }

  /**
   * The handler: the synchronous checks, then the reCAPTCHA verdict (None
   * when the verification call fails), then the service, then the start
   * instant, then the insertion (`inserted` is false when the calendar
   * refuses it). Any thrown error answers 500. A service id naming an
   * inherited member passes the `!service` test, but its duration is
   * undefined, so the end time is an invalid date whose `toISOString`
   * throws: 500.
   */
  function CreateBooking(req: BookingRequest, captcha: Option<Captcha>, dateBase: string -> Option<int>, inserted: bool)
    : (r: Result<Event, HttpError>)
    ensures Validate(req).Some? ==> r == Failure(Validate(req).value)
    ensures Validate(req).None? && captcha.None? ==> r == Failure(BookingFailed)
    ensures Validate(req).None? && captcha.Some? && CaptchaRejects(captcha.value) ==> r == Failure(CaptchaFailed)
    ensures Validate(req).None? && captcha.Some? && !CaptchaRejects(captcha.value) &&
            req.serviceId !in Services && req.serviceId !in PrototypeKeys ==>
              r == Failure(InvalidService)
    ensures Validate(req).None? && captcha.Some? && !CaptchaRejects(captcha.value) &&
            req.serviceId !in Services && req.serviceId in PrototypeKeys ==>
              r == Failure(BookingFailed)
    ensures Validate(req).None? && captcha.Some? && !CaptchaRejects(captcha.value) && req.serviceId in Services &&
            (StartInstant(req.dateTime, dateBase).None? || !inserted) ==>
              r == Failure(BookingFailed)
    ensures r.Success? <==>
              Validate(req).None? && captcha.Some? && !CaptchaRejects(captcha.value) && req.serviceId in Services &&
              StartInstant(req.dateTime, dateBase).Some? && inserted
    ensures r.Success? ==>
              r.value == MakeEvent(Services[req.serviceId], req, StartInstant(req.dateTime, dateBase).value)
    ensures r.Success? ==>
              r.value.start == StartInstant(req.dateTime, dateBase).value &&
              r.value.end == r.value.start + Ms(Services[req.serviceId].duration) &&
              r.value.start < r.value.end &&
              r.value.reminders == [Reminder("email", 1440), Reminder("popup", 60)]
  {
    match Validate(req)
    case Some(e) => Failure(e)
    case None =>
      match captcha
      case None => Failure(BookingFailed)
      case Some(c) =>
        if CaptchaRejects(c) then Failure(CaptchaFailed)
        else
          match Lookup(req.serviceId)
          case Undefined => Failure(InvalidService)
          case Inherited => Failure(BookingFailed)
          case Entry(service) =>
            match StartInstant(req.dateTime, dateBase)
            case None => Failure(BookingFailed)
            case Some(start) =>
              if inserted then Success(MakeEvent(service, req, start)) else Failure(BookingFailed)
  }

  /**
   * The widget's `dateTime` (the chosen date, "T", the chosen slot's
   * display text) books exactly the slot's instant, and the event covers
   * the service's whole duration from there.
   */
  lemma DateTimeRoundTrip(date: string, dateBase: string -> Option<int>, t: nat)
    requires t <= 24 * 60 && dateBase(date).Some?
    ensures StartInstant(date + "T" + Hhmm(t), dateBase) == Some(dateBase(date).value + Ms(t))
  {
    var dt := date + "T" + Hhmm(t);
    assert |Hhmm(t)| == 5;
    assert dt[|dt| - 6] == 'T';
    assert dt[|dt| - 5..] == Hhmm(t);
    assert dt[..|dt| - 6] == date;
    ParseHhmmInvertsHhmm(t);
  }

  /** "<date>T24:00" is the end of that day: the next day's 00:00 at UTC-03:00. */
  lemma EndOfDayStart(date: string, dateBase: string -> Option<int>)
    requires dateBase(date).Some?
    ensures StartInstant(date + "T24:00", dateBase) == Some(dateBase(date).value + Ms(24 * 60))
  {
    EndOfDayText();
    assert date + "T" + Hhmm(24 * 60) == date + "T24:00" by {
      assert "T" + Hhmm(24 * 60) == "T24:00";
    }
    DateTimeRoundTrip(date, dateBase, 24 * 60);
  }

  /** The display text of minute 1440 is "24:00". */
  lemma EndOfDayText()
    ensures Hhmm(24 * 60) == "24:00"
  {
    assert DigitChar(2) == '2' && DigitChar(4) == '4' && DigitChar(0) == '0';
    assert Pad2(24) == "24" by {
      assert Decimal(24) == Decimal(2) + [DigitChar(4)];
    }
    assert Pad2(0) == "00";
    HhmmOfTick(24, 0);
  }

  /** A successful answer without a score passes the reCAPTCHA step. */
  lemma MissingScorePasses()
    ensures !CaptchaRejects(Captcha(true, None))
    ensures CaptchaRejects(Captcha(true, Some(0.3)))
    ensures !CaptchaRejects(Captcha(true, Some(0.5)))
  {
  }

  /**
   * An unknown service id is reported only after the reCAPTCHA step: with a
   * rejecting verdict the answer is the security failure.
   */
  lemma UnknownServiceCheckedAfterCaptcha(req: BookingRequest, c: Captcha, dateBase: string -> Option<int>, inserted: bool)
    requires Validate(req).None? && req.serviceId !in Services && CaptchaRejects(c)
    ensures CreateBooking(req, Some(c), dateBase, inserted) == Failure(CaptchaFailed)
  {
  }

  /** The description for Volume Brasileiro quotes its price as "R$ 130,00". */
  lemma PriceInDescription(req: BookingRequest, start: int)
    ensures var e := MakeEvent(Services["volume-brasileiro"], req, start);
            e.description == "Cliente: " + req.customerName + "\nTelefone: " + req.customerPhone +
                             "\nServiço: " + "Volume Brasileiro" + "\nValor: R$ " + "130" + ",00"
  {
    var service := Services["volume-brasileiro"];
    assert service == Service("Volume Brasileiro", 90, 130);
    DecimalOf130();
  }

  /** 130 is written "130". */
  lemma DecimalOf130()
    ensures Decimal(130) == "130"
  {
    assert Decimal(13) == "13";
  }

  /**
   * Booking an offered slot: the `dateTime` the widget builds from the
   * slot's display text starts the event at the slot's own instant, so the
   * event is at least an hour ahead and clear of the busy blocks the slot
   * list was computed from.
   */
  lemma BookedSlotIsFree(h: Hours, q: Query, s: Slot, date: string, req: BookingRequest, c: Captcha,
                         dateBase: string -> Option<int>, inserted: bool)
    requires h.end < 24 * 60 && s in Select(Grid(h), q)
    requires dateBase(date) == Some(q.base) && req.dateTime == date + "T" + s.display
    requires req.serviceId in Services && Services[req.serviceId].duration == q.duration
    requires CreateBooking(req, Some(c), dateBase, inserted).Success?
    ensures var e := CreateBooking(req, Some(c), dateBase, inserted).value;
            e.start == s.time && e.start >= q.now + Ms(60) && Free(e.start, e.end, q.busy)
  {
    SlotsMember(h, q, s);
    var t: nat :| t % 30 == 0 && h.start <= t <= h.end && Keep(q, t) && s == MkSlot(q.base, t);
    DateTimeRoundTrip(date, dateBase, t);
  }
}
