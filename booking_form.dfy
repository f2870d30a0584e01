/**
 * The booking widget's form state and the handlers that change it: the
 * service, date and time buttons, the name and phone inputs, the slot list
 * arriving from the server, and the request `handleBooking` sends.
 */
module BookingForm {
  import opened Wrappers
  import opened Slots
  import opened Validation
  import opened PhoneFormat
  import opened Text

  /** A text field counts as filled when it is not empty (a JavaScript truthy string). */
  predicate Filled(s: string) {
    s != []
  }

  predicate FilledOption(s: Option<string>) {
    s.Some? && s.value != []
  }

  class Form {
    var selectedService: Option<string>
    var selectedDate: string
    var selectedTime: Option<string>
    var availableSlots: seq<Slot>
    var customerName: string
    var customerPhone: string

    /**
     * The phone field always holds text that formatting leaves unchanged:
     * every handler keeps it, and the request carries such a phone.
     */
    ghost predicate Valid()
      reads this
    {
      FormatPhone(customerPhone) == customerPhone
    }

    /** Everything empty: no service, date or time, no slots, no name or phone. */
    constructor()
      ensures Valid()
      ensures selectedService == None && selectedDate == [] && selectedTime == None
      ensures availableSlots == [] && customerName == [] && customerPhone == []
    {
      selectedService := None;
      selectedDate := [];
      selectedTime := None;
      availableSlots := [];
      customerName := [];
      customerPhone := [];
    }

    /** A service button: select it and forget the time and the slots of the previous choice. */
    method ChooseService(id: string)
      requires Valid()
      modifies this
      ensures Valid()
      ensures selectedService == Some(id) && selectedTime == None && availableSlots == []
      ensures selectedDate == old(selectedDate) && customerName == old(customerName) && customerPhone == old(customerPhone)
    {
      selectedService := Some(id);
      selectedTime := None;
      availableSlots := [];
    }

    /** A date button: select the date the button carries as its value. */
    method ChooseDate(value: string)
      requires Valid()
      modifies this
      ensures Valid()
      ensures selectedDate == value
      ensures selectedService == old(selectedService) && selectedTime == old(selectedTime)
      ensures availableSlots == old(availableSlots)
      ensures customerName == old(customerName) && customerPhone == old(customerPhone)
    {
      selectedDate := value;
    }

    /** The slot list arrived: show it and clear the chosen time. */
    method SlotsLoaded(slots: seq<Slot>)
      requires Valid()
      modifies this
      ensures Valid()
      ensures availableSlots == slots && selectedTime == None
      ensures selectedService == old(selectedService) && selectedDate == old(selectedDate)
      ensures customerName == old(customerName) && customerPhone == old(customerPhone)
    {
      availableSlots := slots;
      selectedTime := None;
    }

    /** A slot button: the chosen time is the slot's display text. */
    method ChooseTime(slot: Slot)
      requires Valid()
      modifies this
      ensures Valid()
      ensures selectedTime == Some(slot.display)
      ensures selectedService == old(selectedService) && selectedDate == old(selectedDate)
      ensures availableSlots == old(availableSlots)
      ensures customerName == old(customerName) && customerPhone == old(customerPhone)
    {
      selectedTime := Some(slot.display);
    }

    /** The name input stores what was typed. */
    method NameChanged(value: string)
      requires Valid()
      modifies this
      ensures Valid()
      ensures customerName == value
      ensures selectedService == old(selectedService) && selectedDate == old(selectedDate)
      ensures selectedTime == old(selectedTime) && availableSlots == old(availableSlots)
      ensures customerPhone == old(customerPhone)
    {
      customerName := value;
    }

    /** The phone input stores the formatted text, which formatting again would leave as is. */
    method PhoneChanged(value: string)
      modifies this
      ensures Valid() && customerPhone == FormatPhone(value)
      ensures Digits(value) == Digits(customerPhone) || |Digits(value)| > 11
      ensures selectedService == old(selectedService) && selectedDate == old(selectedDate)
      ensures selectedTime == old(selectedTime) && availableSlots == old(availableSlots)
      ensures customerName == old(customerName)
    {
      customerPhone := FormatPhone(value);
      FormatPhoneIdempotent(value);
      if |Digits(value)| <= 11 {
        FormatPhoneKeepsDigits(value);
      }
    }

    /**
     * `handleBooking` up to the request it sends: nothing unless service,
     * date, time, name and phone are all filled; otherwise the five fields,
     * with `dateTime` the date, "T" and the chosen time.
     */
    method HandleBooking(recaptchaToken: string) returns (r: Option<BookingRequest>)
      requires Valid()
      ensures r.Some? <==>
                FilledOption(selectedService) && Filled(selectedDate) && FilledOption(selectedTime) &&
                Filled(customerName) && Filled(customerPhone)
      ensures r.Some? ==>
                r.value == BookingRequest(selectedService.value, selectedDate + "T" + selectedTime.value,
                                          customerName, customerPhone, recaptchaToken)
      ensures r.Some? && Filled(recaptchaToken) ==> AllPresent(r.value)
      ensures r.Some? ==> FormatPhone(r.value.customerPhone) == r.value.customerPhone
    {
      if !FilledOption(selectedService) || !Filled(selectedDate) || !FilledOption(selectedTime) ||
         !Filled(customerName) || !Filled(customerPhone) {
        return None;
      }
      var dateTime := selectedDate + "T" + selectedTime.value;
      return Some(BookingRequest(selectedService.value, dateTime, customerName, customerPhone, recaptchaToken));
    }

    /** The booking was confirmed: the form starts over. */
    method BookingConfirmed()
      modifies this
      ensures Valid()
      ensures selectedService == None && selectedDate == [] && selectedTime == None
      ensures availableSlots == [] && customerName == [] && customerPhone == []
    {
      selectedService := None;
      selectedDate := [];
      selectedTime := None;
      customerName := [];
      customerPhone := [];
      availableSlots := [];
    }
  }
}
