/** One card of the service menu: the instant-booking request it sends and
    the notice it raises once the backend has replied. */
module ServiceCard {
  import opened Wrappers
  import opened Text
  import opened Backend

  /** The titles of the cards, in menu order. */
  const Services: seq<string> := ["Plumbing", "Electrical", "Cleaning", "Painting", "Carpentry", "AC Repair"]

  /** `title.toLowerCase()`; every title is ASCII. */
  function ServiceType(title: string): string {
    Lower(title)
  }

  /** The body of the POST to the instant endpoint; the phone goes without
      the +91 prefix. */
  function BookingRequest(title: string, phone: string): (r: Request)
    ensures r.CreateInstantBooking? && r.phone == phone && r.serviceType == ServiceType(title)
  {
    CreateInstantBooking(phone, ServiceType(title))
  }

  /** The `alert` raised when the reply has been handled. */
  datatype Notice = Confirmed(bookingNumber: string) | Failed

  /** `handleBookService` after its `await`s. The payload is
      `data.data.bookingNumber`; with `data.data` absent the read throws and
      the `catch` branch raises the failure notice. */
  function BookingNotice(reply: Reply<string>): Notice {
    match reply
    case ParseOrTransportFailure => Failed
    case Answered(status, success, _, bookingNumber) =>
      if IsOk(status) && success && bookingNumber.Some? then Confirmed(bookingNumber.value) else Failed
  }

  const ConfirmationPrefix: string := "Booking created! Check your mobile app. Booking ID: "
  const FailureText: string := "Unable to create booking. Please try again."

  function NoticeText(n: Notice): string {
    match n
    case Confirmed(number) => ConfirmationPrefix + number
    case Failed => FailureText
  }

  /** The card confirms exactly an ok, successful reply that carries a booking
      number, and the confirmation text ends with that number. */
  lemma NoticeCharacterisation(reply: Reply<string>)
    ensures BookingNotice(reply).Confirmed? <==>
      reply.Answered? && IsOk(reply.status) && reply.success && reply.payload.Some?
    ensures BookingNotice(reply).Confirmed? ==>
      var text := NoticeText(BookingNotice(reply));
      && BookingNotice(reply).bookingNumber == reply.payload.value
      && text[|text| - |reply.payload.value|..] == reply.payload.value
      && text[..|ConfirmationPrefix|] == ConfirmationPrefix
  {
  }

  /** The first two letters of a title, lower-cased. */
  function Initials(title: string): (char, char)
    requires |title| >= 2
  {
    (LowerChar(title[0]), LowerChar(title[1]))
  }

  lemma DistinctByInitials(a: string, b: string)
    requires |a| >= 2 && |b| >= 2 && Initials(a) != Initials(b)
    ensures ServiceType(a) != ServiceType(b)
  {
    assert ServiceType(a)[0] == LowerChar(a[0]) && ServiceType(a)[1] == LowerChar(a[1]);
    assert ServiceType(b)[0] == LowerChar(b[0]) && ServiceType(b)[1] == LowerChar(b[1]);
  }

  /** Every card sends a different service type: the first two letters,
      lower-cased, already tell them apart. */
  lemma ServiceTypesDistinct()
    ensures forall i, j :: 0 <= i < j < |Services| ==> ServiceType(Services[i]) != ServiceType(Services[j])
  {
    var initials := [('p', 'l'), ('e', 'l'), ('c', 'l'), ('p', 'a'), ('c', 'a'), ('a', 'c')];
    forall i | 0 <= i < |Services|
      ensures |Services[i]| >= 2 && Initials(Services[i]) == initials[i]
    {
    }
    forall i, j | 0 <= i < j < |Services|
      ensures ServiceType(Services[i]) != ServiceType(Services[j])
    {
      assert initials[i] != initials[j];
      DistinctByInitials(Services[i], Services[j]);
    }
  }
}
