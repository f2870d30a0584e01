# Lash studio booking engine

A Dafny model of the booking engine of a lash and brow studio's web site.
The model covers three parts of the site.

**The booking server** (`server/server.ts`) has three parts:

- the service catalogue and the weekly opening hours;
- `GET /api/available-slots`, which walks the day's half-hour grid inside the opening hours. It drops every tick less than one hour ahead of now, and every tick whose `[start, start + duration)` collides with a busy block of the calendar. It answers the rest as `{time, display "HH:MM"}`;
- `POST /api/create-booking`, which runs its checks in a fixed order. First, the five fields must be present. Then the name, then the phone number with its white space removed, then the reCAPTCHA verdict, then the service lookup. It then builds the calendar event, `[start, start + duration)`, with two reminders.

**The booking widget** (`src/components/Booking.tsx`) has these parts:

- its own price table;
- `getAvailableDates`, which lists the next 21 days without Sundays;
- `formatPhone`, applied on every keystroke of the phone field;
- the form state, with its click and input handlers;
- the request `handleBooking` sends.

**The portfolio carousel** (`src/components/Portfolio.tsx`) is nine images, a current index and an autoplay flag. It also provides the six-image window it shows.

Conventions used throughout the model:

- Instants are integer milliseconds.
- Times of day are minutes after midnight; the opening hours 9–18.5 and 8–14 are 540–1110 and 480–840.
- Some values come from the clock, from the date library, or from the calendar and reCAPTCHA services. These are inputs: the current instant, a day's 00:00 instant at UTC-03:00 and its weekday, the busy blocks, the reCAPTCHA answer, and whether the calendar accepted the event.
- A failed call into those services is `None`, which the handlers answer with 500.

Modules:

| module | file | what it holds |
|---|---|---|
| `Wrappers`, `Http` | wrappers.dfy, http.dfy | `Option`, `Result`, an HTTP error response |
| `Text` | text.dfy | `\d`, `\s`, `replace(/\D/g, "")`, `padStart(2, "0")`, "HH:MM" and its parser |
| `Catalog` | catalog.dfy | both service tables and the lookup |
| `BusinessHours` | hours.dfy | the opening-hours table |
| `Collision` | collision.dfy | `isTimeSlotAvailable` and the overlap rule |
| `Slots` | slots.dfy | the nested hour/minute loops of the slot handler and what their output promises |
| `SlotsEndpoint` | slots_endpoint.dfy | the whole `GET /api/available-slots` handler |
| `Validation` | validation.dfy | the synchronous checks of `POST /api/create-booking` |
| `Booking` | booking.dfy | the rest of that handler and the event it builds |
| `PhoneFormat` | phone_format.dfy | `formatPhone` |
| `AvailableDates` | dates.dfy | `getAvailableDates` |
| `BookingForm` | booking_form.dfy | the widget's form state and handlers |
| `Portfolio` | portfolio.dfy | the carousel |

## Model

| member | source | states |
|---|---|---|
| Catalog.Lookup | server/server.ts:288-291 | A catalogue key finds its own entry, whose duration is positive. A name inherited from `Object.prototype` (`toString`, `constructor`, ...) finds a member without a duration. Any other id finds `undefined`, the only outcome the `!service` test refuses. |
| Catalog.DurationsPositive | server/server.ts:42-84 | Every catalogue duration is greater than zero, so every slot and every event is a non-empty interval. |
| Catalog.WidgetAgreesWithServer | src/components/Booking.tsx:12-29 | The widget's table has exactly the server's nine keys, each at the server's price. |
| BusinessHours.WindowFor | server/server.ts:88-92 | There are no hours exactly on Sunday. Saturday is 08:00-14:00 and Monday to Friday is 09:00-18:30. |
| Collision.Overlaps | server/server.ts:114-121 | A slot collides with a block exactly when each starts before the other ends. A slot ending at the block's start, or starting at its end, does not collide. |
| Collision.OverlapsSymmetric | server/server.ts:116-120 | Collision does not depend on which interval is the slot. |
| Collision.IsTimeSlotAvailable | server/server.ts:98-126 | The result is true exactly when hours are given and no busy block collides with `[start, start + duration)`. So it is false without hours, and true on an empty list when hours are given. |
| Collision.FreeWhenNothingBusy | server/server.ts:110-125 | With no busy blocks every slot is free. |
| Collision.FreeIgnoresOrder | server/server.ts:110-125 | Two block lists with the same multiset of blocks free the same slots. |
| Collision.FreeAntitone | server/server.ts:110-125 | A slot free of a list of blocks is free of every list whose blocks all occur in it, so adding a block never frees a slot. |
| Collision.FreeAppend | server/server.ts:110-125 | Free of `busy + [b]` is exactly free of `busy` and not colliding with `b`. |
| Collision.ReachCovers | server/server.ts:106-117 | A slot starting at the day's 00:00 or later and lasting `Reach` minutes ends after every busy block starts. This is how an undefined duration's NaN end behaves: `isTotallyBefore` is false for every block. |
| Collision.UndefinedDurationFree | server/server.ts:106-123 | With such an end, a slot is free exactly when it starts at or after the end of every busy block. |
| Slots.BoundsOf | server/server.ts:184-187 | The loop bounds recombine to the opening and closing minutes, with minutes below 60. |
| Slots.GridShape | server/server.ts:189-192 | The loops visit exactly the :00 and :30 ticks from opening to closing, both included, in strictly ascending order. |
| Slots.GridProgression | server/server.ts:189-192 | A window opening on a half hour yields every half hour from opening to closing, in order. |
| Slots.WeekdayGrid | server/server.ts:184-192 | On a weekday the ticks are the 20 half hours 09:00, 09:30, ..., 18:30. |
| Slots.SaturdayGrid | server/server.ts:184-192 | On Saturday the ticks are the 13 half hours 08:00, 08:30, ..., 14:00. |
| Slots.HourSlots | server/server.ts:190-220 | The inner minute loop, with its `continue` and `break`, emits the slots of the hour's surviving ticks in order. |
| Slots.GenerateSlots | server/server.ts:189-221 | The nested loops emit exactly the slots of the surviving grid ticks, in grid order. |
| Slots.SlotsMember | server/server.ts:189-221 | A slot is in the output exactly when it comes from a :00 or :30 tick between opening and closing that is at least an hour ahead and collides with no busy block. |
| Slots.SlotOfTick | server/server.ts:201-212 | A tick of the window yields its slot exactly when it survives the lead time and the busy blocks. |
| Slots.SlotsAscending | server/server.ts:189-221 | The output is in strictly ascending order of time. |
| Slots.SlotsRespectLead | server/server.ts:201-202 | Every slot starts at or after now plus one hour. |
| Slots.SlotsAreFree | server/server.ts:205-212 | No slot's `[time, time + duration)` collides with a busy block. |
| Slots.SlotsDisplayTheirTime | server/server.ts:193-218 | Every display text parses as "HH:MM", and it names the slot's own time after the day's 00:00. |
| Slots.SlotsShrinkWithBusy | server/server.ts:205-212 | With more busy blocks, no new slot appears. |
| Slots.SelectKeepsAll | server/server.ts:189-221 | When every tick survives, each tick yields its slot, in order. |
| Slots.AllTicksWhenIdle | server/server.ts:189-221 | With nothing busy and opening at least an hour ahead, every tick is offered. |
| Slots.IdleWeekdayOffersTwenty | server/server.ts:184-221 | Any Monday to Friday with nothing busy, asked at 08:00 or earlier, offers 20 slots, from "09:00" to "18:30". |
| Slots.TwoHourServiceAroundBooking | server/server.ts:205-212 | With 11:00-12:00 booked, a two-hour service keeps 09:00 and 12:00, which only touch the booking. It loses 09:30 and 11:30, which overlap it. |
| Slots.LastTickIgnoresClosing | server/server.ts:184-212 | A two-hour service is offered at 18:30 on a free weekday although it ends after closing; the hours are not checked against the service's end. |
| SlotsEndpoint.AvailableSlots | server/server.ts:132-230 | Each outcome has its own answer. A missing parameter gives 400. An id that is neither a catalogue key nor an inherited name gives 400. A bad date or a failed free/busy query gives 500, even on a Sunday. Sunday gives an empty list. Otherwise the answer is the day's slots, and it succeeds only in that case. For an inherited name the slots are those of an end past every busy block's start. |
| SlotsEndpoint.UndefinedDurationSlots | server/server.ts:142-221 | For an inherited name on a day that is not Sunday, a tick is offered exactly when it is an hour ahead and starts at or after the end of every busy block. A later block in the day hides every tick before it. |
| Text.Digits | src/components/Booking.tsx:176 | The result is no longer than the input and holds only ASCII digits. |
| Text.DigitsAppend | src/components/Booking.tsx:176 | Keeping the digits distributes over concatenation. |
| Text.Pad2 | server/server.ts:193-194 | Below 100, the result is two digits that spell the number. |
| Text.Hhmm | server/server.ts:215-217 | The display text of any time before 100 hours is five characters with the colon in the middle. |
| Text.ParseHhmm | server/server.ts:294 | A parsed time is at most the end of the day, minute 1440, and "24:00" parses to exactly that. |
| Text.ParseHhmmInvertsHhmm | server/server.ts:215-217 | Every minute of the day, and the end of the day "24:00", reads back from its "HH:MM" text. |
| Text.HhmmInvertsParseHhmm | src/components/Booking.tsx:129 | A text that parses is the "HH:MM" text of what it parses to. |
| Validation.StripWhitespace | server/server.ts:258 | The result is no longer than the input and holds no white space. Text without white space is unchanged. |
| Validation.StripWhitespaceAppend | server/server.ts:258 | Removing white space distributes over concatenation. |
| Validation.ValidName | server/server.ts:253 | An accepted name is not empty and holds no digit. |
| Validation.PhonePattern | server/server.ts:257 | The pattern has ten places plus one for each optional part taken. |
| Validation.PhoneMatches | server/server.ts:257 | A text the phone pattern accepts is 10 to 15 characters long. |
| Validation.FitsDigits | server/server.ts:257 | A text that fits a pattern has as many digits as the pattern has digit places. |
| Validation.PhonePatternDigitPlaces | server/server.ts:257 | The pattern has 10 digit places, or 11 with the optional `9`. |
| Validation.PhoneMatchesShape | server/server.ts:256-262 | An accepted phone has exactly 10 or 11 digits and 10 to 15 characters. |
| Validation.Validate | server/server.ts:242-262 | Validation stops at the first failure, in this order: missing field, then name, then phone. The request passes exactly when all three pass. |
| Validation.NameWithDigitsRefused | server/server.ts:253-255 | "John123" is refused as a name once every field is present. |
| Validation.ShortPhoneRefused | server/server.ts:256-262 | "123" is refused as a phone once the name passes. |
| Validation.AccentedNameAccepted | server/server.ts:253 | "José Conceição" is a valid name. |
| Validation.NameClassTakesSigns | server/server.ts:253 | The range À-ÿ also admits × and ÷, so "A×B÷C" is a valid name. |
| Booking.SplitDateTime | server/server.ts:294 | A split result gives a minute from 0 to 1440 ("24:00"), and the date text, "T" and that minute's "HH:MM" put back together the input. |
| Booking.StartInstant | server/server.ts:294 | A start instant is the date's 00:00 at UTC-03:00 plus the time of day. |
| Booking.CaptchaRejects | server/server.ts:279-282 | A verdict passes exactly when it is a success whose score is missing or at least 0.5. |
| Booking.MakeEvent | server/server.ts:295-316 | The event lasts exactly the service's duration. Its summary is the service name, " - " and the customer's name. Both ends are given in America/Sao_Paulo. The calendar's default reminders are off, so the only reminders are e-mail at 1440 minutes and a pop-up at 60. |
| Booking.CreateBooking | server/server.ts:236-333 | The steps run in source order and the first failure answers. Validation first; a failed reCAPTCHA call gives 500; a rejecting verdict gives 400; an id that is neither a catalogue key nor an inherited name gives 400. An inherited name gives 500, as its end time is an invalid date. A bad date or a refused insert gives 500. Success comes only when all pass, and the event is the one built for the service from the parsed start. |
| Booking.DateTimeRoundTrip | src/components/Booking.tsx:129 | The widget's `date + "T" + "HH:MM"` starts at that date's 00:00 plus exactly that time. |
| Booking.EndOfDayStart | server/server.ts:294 | "<date>T24:00" starts at the next day's 00:00, as the date-time string format reads it. |
| Booking.MissingScorePasses | server/server.ts:279-286 | A successful answer without a score passes. A score of 0.3 is refused and 0.5 passes. |
| Booking.UnknownServiceCheckedAfterCaptcha | server/server.ts:279-291 | With an unknown service and a rejecting verdict, the answer is the reCAPTCHA failure, not the service error. |
| Booking.PriceInDescription | server/server.ts:300 | The description for Volume Brasileiro states the price as "R$ 130,00". |
| Booking.BookedSlotIsFree | server/server.ts:294-295 | Booking an offered slot starts the event at the slot's own instant, at least an hour ahead, clear of every busy block the slots came from. |
| PhoneFormat.TrailingDigits | src/components/Booking.tsx:180 | It counts exactly the run of digits that ends the text. |
| PhoneFormat.WrapAreaCode | src/components/Booking.tsx:179 | Wrapping the area code keeps the digits, in order, and adds three characters or none. |
| PhoneFormat.HyphenateTail | src/components/Booking.tsx:180 | The hyphen keeps the digits, in order; when it is inserted, it adds one character and leaves exactly four digits after it. |
| PhoneFormat.FormatPhone | src/components/Booking.tsx:175-183 | With at most eleven digits the result fits the 15-character field; with more, the text is returned as typed. |
| PhoneFormat.FormatPhoneCases | src/components/Booking.tsx:175-183 | More than 11 digits: the input unchanged. At most 2: just the digits. 3 to 9: "(DD) " and the rest. 10 or 11: "(DD) ", the middle, "-" and the last four. |
| PhoneFormat.FormatPhoneKeepsDigits | src/components/Booking.tsx:176-180 | For up to 11 digits, the output has exactly the input's digits in order. |
| PhoneFormat.FormatPhoneAddsOnlyPunctuation | src/components/Booking.tsx:176-180 | For up to 11 digits, the output holds only digits, parentheses, spaces and hyphens. |
| PhoneFormat.FormatPhoneIdempotent | src/components/Booking.tsx:175-183 | Formatting a formatted text changes nothing. |
| PhoneFormat.FormatPhoneLengths | src/components/Booking.tsx:175-183 | Eleven digits format to 15 characters, the field's limit; ten digits format to 14. |
| PhoneFormat.StripFormatted | src/components/Booking.tsx:178-180 | A formatted 10 or 11 digit number without white space is "(DD)", the middle, "-" and the last four. |
| PhoneFormat.StrippedFits | server/server.ts:257 | That text fits the pattern with parentheses and hyphen, taking the `9` for eleven digits. |
| PhoneFormat.FormattedPhoneAccepted | src/components/Booking.tsx:178-180 | The server accepts a formatted number when the area code has no zero and the number has ten digits, or eleven with a 9 after the area code. |
| PhoneFormat.ElevenDigitsNeedNine | src/components/Booking.tsx:178-180 | An eleven-digit number without the 9 after the area code is formatted by the widget but refused by the server. |
| PhoneFormat.AreaCodeZeroRefused | src/components/Booking.tsx:178-180 | A ten- or eleven-digit number with a zero in the area code is formatted by the widget but refused by the server. |
| PhoneFormat.FormattedPhoneAcceptedExactly | src/components/Booking.tsx:178-180 | For ten or eleven digits, the server accepts the formatted number if and only if the area code has no zero and the number has ten digits, or eleven with a 9 after the area code. |
| AvailableDates.GetAvailableDates | src/components/Booking.tsx:63-85 | The loop yields the 21-day listing without Sundays, each entry valued with the date `toISOString` gives. |
| AvailableDates.UtcCarry | src/components/Booking.tsx:74 | Within a day's shift, the UTC date is the local date, the day before or the day after, and it is the local date exactly when the shifted time stays inside the day. |
| AvailableDates.Upcoming | src/components/Booking.tsx:67-80 | The listing has at most one entry per day, and each entry's value is its day shifted by the carry. |
| AvailableDates.UpcomingMember | src/components/Booking.tsx:67-80 | An entry is listed exactly for each day among the first n that is not a Sunday. |
| AvailableDates.UpcomingAscending | src/components/Booking.tsx:67-80 | Entries are in strictly ascending order of day. |
| AvailableDates.WeekAddsSix | src/components/Booking.tsx:67-72 | Any seven consecutive days add exactly six entries. |
| AvailableDates.EighteenDates | src/components/Booking.tsx:63-85 | The picker always shows 18 dates. |
| AvailableDates.SaturdayEveningSendsSunday | src/components/Booking.tsx:68-74 | Shows the error in the code as written: on a Saturday at any minute from 21:00 at UTC-03:00, the first date listed shows Saturday but its value is Sunday. |
| AvailableDates.LocalDatesNeverSunday | src/components/Booking.tsx:63-85 | Corrected: valued with their local date, the 18 entries never send a Sunday. |
| BookingForm.Form.constructor | src/components/Booking.tsx:34-39 | The form starts empty. |
| BookingForm.Form.ChooseService | src/components/Booking.tsx:212-216 | A service button selects the service and clears the time and the slots; nothing else changes. |
| BookingForm.Form.ChooseDate | src/components/Booking.tsx:242 | A date button sets the date to the button's value; nothing else changes. |
| BookingForm.Form.SlotsLoaded | src/components/Booking.tsx:96-98 | Arriving slots replace the list and clear the time; nothing else changes. |
| BookingForm.Form.ChooseTime | src/components/Booking.tsx:278 | A slot button sets the time to the slot's display text; nothing else changes. |
| BookingForm.Form.NameChanged | src/components/Booking.tsx:307 | The name input stores what was typed; nothing else changes. |
| BookingForm.Form.PhoneChanged | src/components/Booking.tsx:317 | The phone field holds the formatted text, which stays fixed under formatting. It keeps the typed digits whenever there are at most 11. Nothing else changes. |
| BookingForm.Form.HandleBooking | src/components/Booking.tsx:110-143 | A request goes out exactly when all five fields are filled. It carries `date + "T" + time`, passes the server's presence check, and its phone is a formatted text. |
| BookingForm.Form.BookingConfirmed | src/components/Booking.tsx:157-163 | After a confirmed booking the form is empty again. |
| Portfolio.ImagesNumbered | src/components/Portfolio.tsx:18-28 | The gallery holds nine images, numbered 1 to 9 in order. |
| Portfolio.Next | src/components/Portfolio.tsx:54 | Next stays below 9, steps up by one and wraps from 8 to 0. |
| Portfolio.Previous | src/components/Portfolio.tsx:47-49 | Previous stays below 9 and wraps from 0 to 8. |
| Portfolio.NextPreviousInverse | src/components/Portfolio.tsx:45-55 | Next and previous undo each other on every index. |
| Portfolio.AdvanceIsModular | src/components/Portfolio.tsx:52-55 | k forward steps from i land on (i + k) mod 9. |
| Portfolio.NineStepsReturn | src/components/Portfolio.tsx:35-55 | Nine forward steps return to the starting image. |
| Portfolio.WindowDistinct | src/components/Portfolio.tsx:63-70 | Six consecutive images round the ring of nine are pairwise different. |
| Portfolio.Carousel.constructor | src/components/Portfolio.tsx:31-32 | The carousel starts on the first image with autoplay on. |
| Portfolio.Carousel.GoToPrevious | src/components/Portfolio.tsx:45-50 | The index becomes the previous one, stays in range, and autoplay stops. |
| Portfolio.Carousel.GoToNext | src/components/Portfolio.tsx:52-55 | The index becomes the next one, stays in range, and autoplay stops. |
| Portfolio.Carousel.GoToSlide | src/components/Portfolio.tsx:57-60 | The index becomes exactly the dot's index and autoplay stops. |
| Portfolio.Carousel.AutoplayTick | src/components/Portfolio.tsx:35-43 | While autoplay is on, the index advances by one, wrapping; the flag is unchanged. With autoplay off, nothing changes. |
| Portfolio.Carousel.GetVisibleImages | src/components/Portfolio.tsx:63-70 | Six images: the i-th is the image i places after the current one, wrapping. The first is the current image, and all six are different. |

## Left out

- Network calls are inputs, not modelled:
  - the calendar's free/busy query and event insertion;
  - the reCAPTCHA verification POST (its answer is an input);
  - the Places reviews endpoint, `/health`, server start-up, CORS and authentication.
- The date library is not modelled:
  - parsing `"<date>T00:00:00-03:00"`;
  - `toISOString` and its text;
  - `getDay()` in the host's time zone.

  A day's 00:00 instant and weekday are inputs, and so is the date part's instant in `POST /api/create-booking`. How the date library reads text other than a date followed by "THH:MM" is not modelled.
- `Date.now()`: the slot handler calls it once per tick; the model takes a single `now` for the whole day. The two differ only by the milliseconds the loop takes to run.
- Floating-point opening hours (`start % 1 * 60`): the table is in exact minutes.
- The reCAPTCHA score: only the `< 0.5` comparison is modelled, with a missing score comparing false.
- The slot `time` field: it is the instant, not its `toISOString` text. The date entries' values are day numbers, not their `YYYY-MM-DD` text.
- React rendering and browser effects: toasts, the reCAPTCHA script, `toLocaleDateString`/`toLocaleString` display text, loading flags and `fetch`.
  - The path where the slot fetch fails, which only shows a toast, is left out.
  - `handleBooking` is modelled up to the request it sends; the response handling is covered by `BookingConfirmed`.
- The four-second `setInterval` timing: one firing is `AutoplayTick`.
- The browser enforcing `maxLength` on the name and phone inputs.
- Concurrency: the race between a slot being offered and the event being created depends on the external calendar.
- Validation.Validate: JSON body fields are modelled as strings, with an absent field as the empty string. Other JSON values are not modelled. A number for `customerPhone`, for example, passes the presence check, and then `.replace` throws and the source answers 500.
- AvailableDates.GetAvailableDates: the browser's UTC offset is taken as one constant for all 21 days. Where a daylight-saving change falls inside the window, `toISOString` uses each date's own offset, so entries on either side of the change can get different carries. The model does not capture this.
- SlotsEndpoint.AvailableSlots: query parameters are modelled as strings. A repeated or bracketed parameter, which the query parser turns into an array or an object, is not modelled.
- Portfolio.Carousel.GoToSlide: requires an index below 9, as the nine indicator dots are its only callers.
- The contact, testimonials, services, footer, about and hero components and the index page hold no booking logic and are not part of this model.

## Findings

| source | as written | input that shows it | evidently intended | confidence | as-written member | corrected member |
|---|---|---|---|---|---|---|
| src/components/Booking.tsx:68-74 | Each date button's value is `date.toISOString().split('T')[0]`, the UTC date of that day at the current time of day. | A Saturday at 21:00 or later at UTC-03:00: the first button shows Saturday, but its value is Sunday's date, for which the slot handler answers an empty list. Every later button is likewise one day ahead. | Each button's value is the local date it shows, so none of the 18 values is a Sunday. | not executed | AvailableDates.SaturdayEveningSendsSunday | AvailableDates.LocalDatesNeverSunday |
