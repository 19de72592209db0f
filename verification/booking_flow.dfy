/** The wizard as the user drives it: each screen offers only its own
    controls, a submit button fires only while it is enabled, and each
    handler runs to completion before the next event. Over every sequence of
    such events the session keeps the invariant below. */
module BookingFlow {
  import opened Wrappers
  import opened Text
  import opened Backend
  import opened InstantBooking
  import ServiceCard

  datatype Event =
    | TypePhone(raw: string)            // phone field onChange
    | SubmitPhone(reply: Reply<User>)   // "Get OTP", with the backend's reply
    | TypeOtp(raw: string)              // OTP field onChange
    | SubmitOtp(reply: Reply<User>)     // "Verify & Continue", with the backend's reply
    | Back                              // "Change Phone Number" / "Try Different Number" / "Use Different Number"

  /** One event. A control that the current screen does not render, or a
      disabled submit button, leaves the session as it is. */
  function Next(s: Session, e: Event): Session {
    match e
    case TypePhone(raw) => if s.step == PhoneStep then s.(phone := PhoneInput(raw)) else s
    case SubmitPhone(reply) => if s.step == PhoneStep && CanSubmitPhone(s) then PhoneSubmit(s, reply) else s
    case TypeOtp(raw) => if s.step == OtpStep then s.(otp := OtpInput(raw)) else s
    case SubmitOtp(reply) => if s.step == OtpStep && CanSubmitOtp(s) then OtpSubmit(s, reply) else s
    case Back => if s.step != PhoneStep then Reset(s) else s
  }

  function Run(s: Session, events: seq<Event>): Session
    decreases |events|
  {
    if events == [] then s else Run(Next(s, events[0]), events[1..])
  }

  /** What every session reachable from the mount state satisfies. */
  ghost predicate Inv(s: Session) {
    && !s.loading
    && AllDigits(s.phone) && |s.phone| <= PhoneLength
    && AllDigits(s.otp) && |s.otp| <= OtpLength
    && (s.step != PhoneStep ==> ValidPhone(s.phone))
    && (s.step == PhoneStep ==> s.otp == "")
    && (s.step == PhoneStep || s.step == OtpStep ==> s.user.None?)
    && (s.step == BookingStep ==> s.user.Some? && Destination(s.user.value) == BookingStep)
    && (s.step == DownloadStep && s.user.Some? ==> Destination(s.user.value) == DownloadStep)
  }

  lemma InitialInv()
    ensures Inv(Initial)
  {
  }

  lemma NextInv(s: Session, e: Event)
    requires Inv(s)
    ensures Inv(Next(s, e))
  {
    match e
    case TypePhone(raw) => InputFilters(raw);
    case TypeOtp(raw) => InputFilters(raw);
    case SubmitPhone(reply) =>
      if s.step == PhoneStep && CanSubmitPhone(s) {
        PhoneReplyClassification(s, reply);
      }
    case SubmitOtp(reply) =>
      if s.step == OtpStep && CanSubmitOtp(s) {
        OtpReplyClassification(s, reply);
      }
    case Back =>
  }

  lemma {:induction false} RunInv(s: Session, events: seq<Event>)
    requires Inv(s)
    ensures Inv(Run(s, events))
    decreases |events|
  {
    if events != [] {
      NextInv(s, events[0]);
      RunInv(Next(s, events[0]), events[1..]);
    }
  }

  /** The service menu is only ever shown with a user present, and only for
      a user who is onboarded and has completed the profile. */
  lemma BookingHasUser(events: seq<Event>)
    ensures var s := Run(Initial, events);
      s.step == BookingStep ==> s.user.Some? && s.user.value.isOnboarded && s.user.value.hasCompletedProfile
  {
    InitialInv();
    RunInv(Initial, events);
  }

  /** Through the user interface the regular-expression check never fails:
      the filter keeps the field to digits, and the button is enabled only at
      ten of them. */
  lemma PhoneValidationUnreachable(events: seq<Event>)
    ensures var s := Run(Initial, events);
      s.step == PhoneStep && CanSubmitPhone(s) ==> PhoneRequest(s) == Some(SendOtp(s.phone))
  {
    InitialInv();
    RunInv(Initial, events);
  }

  /** Through the page, "Verify & Continue" is enabled on the OTP screen
      exactly when six digits have been typed; an OTP of any other length
      keeps it disabled, so submitting changes nothing. When it is enabled,
      the request carries a ten-digit phone and a six-digit code. */
  lemma OtpRequestThroughPage(events: seq<Event>, reply: Reply<User>)
    ensures var s := Run(Initial, events);
      s.step == OtpStep ==>
        && (CanSubmitOtp(s) <==> |s.otp| == OtpLength)
        && (|s.otp| != OtpLength ==> Next(s, SubmitOtp(reply)) == s)
        && (CanSubmitOtp(s) ==>
              ValidPhone(OtpRequest(s).phone) && |OtpRequest(s).otp| == OtpLength && AllDigits(OtpRequest(s).otp))
  {
    InitialInv();
    RunInv(Initial, events);
  }

  /** Every card on the service menu posts the session's phone, which is ten
      digits with no `+91` prefix, and a service type that lower-casing
      leaves unchanged, with no upper-case ASCII letter in it. */
  lemma BookingRequestThroughPage(events: seq<Event>, i: nat)
    requires i < |ServiceCard.Services|
    ensures var s := Run(Initial, events);
      s.step == BookingStep ==>
        var r := ServiceCard.BookingRequest(ServiceCard.Services[i], s.phone);
        && r.phone == s.phone && ValidPhone(r.phone) && '+' !in r.phone
        && Lower(r.serviceType) == r.serviceType
        && forall k :: 0 <= k < |r.serviceType| ==> !('A' <= r.serviceType[k] <= 'Z')
  {
    InitialInv();
    RunInv(Initial, events);
    var s := Run(Initial, events);
    LowerIdempotent(ServiceCard.Services[i]);
    if s.step == BookingStep {
      assert !IsDigit('+');
    }
  }

  /** Through the page, a 404 reply to an enabled "Get OTP" always leads to
      the download prompt with no user and the phone kept. */
  lemma Phone404ThroughPage(events: seq<Event>, reply: Reply<User>)
    requires reply.Answered? && reply.status == 404
    ensures var s := Run(Initial, events);
      s.step == PhoneStep && CanSubmitPhone(s) ==>
        var r := Next(s, SubmitPhone(reply));
        r.step == DownloadStep && r.user.None? && r.phone == s.phone
  {
    InitialInv();
    RunInv(Initial, events);
  }

  /** The converse of `BookingHasUser` fails for the download screen: an
      unregistered phone (HTTP 404) reaches it with no user. */
  lemma DownloadWithoutUser()
    ensures var s := Run(Initial, [TypePhone("9876543210"), SubmitPhone(Answered(404, false, None, None))]);
      s.step == DownloadStep && s.user.None? && s.phone == "9876543210"
  {
    var phone := "9876543210";
    assert ValidPhone(phone);
    TypeValidPhone(phone);
    RunTwo(Initial, TypePhone(phone), SubmitPhone(Answered(404, false, None, None)));
  }

  /** Typing a ten-digit phone stores it unchanged. */
  lemma TypeValidPhone(phone: string)
    requires ValidPhone(phone)
    ensures Next(Initial, TypePhone(phone)) == Initial.(phone := phone)
  {
    KeepDigitsFixpoint(phone);
  }

  /** A registered phone whose send-OTP succeeds reaches the OTP screen with
      the phone kept. */
  lemma SendOtpScenario()
    ensures var s := Run(Initial, [TypePhone("9876543210"), SubmitPhone(Answered(200, true, None, None))]);
      s.step == OtpStep && s.phone == "9876543210" && s.error == ""
  {
    var phone := "9876543210";
    assert ValidPhone(phone);
    TypeValidPhone(phone);
    RunTwo(Initial, TypePhone(phone), SubmitPhone(Answered(200, true, None, None)));
  }

  /** An OTP whose verification returns a user who has not onboarded leads
      from the OTP screen to the download screen, with that user stored. */
  lemma VerifyOtpScenario(s: Session, u: User)
    requires Inv(s) && s.step == OtpStep
    requires !u.isOnboarded && !u.hasCompletedProfile
    ensures var r := Run(s, [TypeOtp("123456"), SubmitOtp(Answered(200, true, None, Some(u)))]);
      r.step == DownloadStep && r.user == Some(u) && r.phone == s.phone
  {
    var otp := "123456";
    assert AllDigits(otp);
    KeepDigitsFixpoint(otp);
    assert Next(s, TypeOtp(otp)).otp == otp;
    RunTwo(s, TypeOtp(otp), SubmitOtp(Answered(200, true, None, Some(u))));
  }

  lemma RunTwo(s: Session, e1: Event, e2: Event)
    ensures Run(s, [e1, e2]) == Next(Next(s, e1), e2)
  {
    assert [e1, e2][1..] == [e2];
    assert [e2][1..] == [];
    assert Run(s, [e1, e2]) == Run(Next(s, e1), [e2]);
    assert Run(Next(s, e1), [e2]) == Run(Next(Next(s, e1), e2), []);
  }
}
