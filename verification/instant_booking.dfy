/** The instant-booking wizard page: its session state, the input filters,
    the phone and OTP submit handlers, the reset handler and the choice of
    download target. Each handler is a pure function from the session (and
    the backend's reply) to the session React holds once the handler's
    state updates have all been applied. */
module InstantBooking {
  import opened Wrappers
  import opened Text
  import opened Backend

  datatype Step = PhoneStep | OtpStep | DownloadStep | BookingStep

  datatype Session = Session(
    step: Step,
    phone: string,
    otp: string,
    user: Option<User>,
    loading: bool,
    error: string)

  /** The state the page mounts with. */
  const Initial: Session := Session(PhoneStep, "", "", None, false, "")

  const PhoneLength: nat := 10
  const OtpLength: nat := 6

  const InvalidPhoneMessage: string := "Please enter a valid 10-digit phone number"
  const PhoneFallbackMessage: string := "Unable to verify phone number."
  const ServerUnreachableMessage: string := "Unable to reach server. Please try again."
  const InvalidOtpMessage: string := "Invalid OTP. Please try again."
  const OtpUnverifiedMessage: string := "Unable to verify OTP. Please try again."

  // ---------------------------------------------------------------------
  // Inputs and submit buttons

  /** The phone field's `onChange`: digits only, at most ten. */
  function PhoneInput(raw: string): string {
    DigitInput(raw, PhoneLength)
  }

  /** The OTP field's `onChange`: digits only, at most six. */
  function OtpInput(raw: string): string {
    DigitInput(raw, OtpLength)
  }

  /** The "Get OTP" button is enabled. */
  predicate CanSubmitPhone(s: Session) {
    !s.loading && |s.phone| == PhoneLength
  }

  /** The "Verify & Continue" button is enabled. */
  predicate CanSubmitOtp(s: Session) {
    !s.loading && |s.otp| == OtpLength
  }

  /** `/^[0-9]{10}$/.test(phone)`. */
  predicate ValidPhone(phone: string) {
    |phone| == PhoneLength && AllDigits(phone)
  }

  /** Whatever is typed, the fields hold digit strings within their limits,
      and filtering an already filtered value changes nothing. */
  lemma InputFilters(raw: string)
    ensures AllDigits(PhoneInput(raw)) && |PhoneInput(raw)| <= PhoneLength
    ensures AllDigits(OtpInput(raw)) && |OtpInput(raw)| <= OtpLength
    ensures PhoneInput(PhoneInput(raw)) == PhoneInput(raw)
    ensures OtpInput(OtpInput(raw)) == OtpInput(raw)
  {
    DigitInputShape(raw, PhoneLength);
    DigitInputShape(raw, OtpLength);
    DigitInputIdempotent(raw, PhoneLength);
    DigitInputIdempotent(raw, OtpLength);
  }

  /** A phone value that came out of the filter passes the regular expression
      exactly when the submit button's length test passes. */
  lemma FilteredPhoneValidIffFull(raw: string)
    ensures ValidPhone(PhoneInput(raw)) <==> |PhoneInput(raw)| == PhoneLength
  {
    InputFilters(raw);
  }

  // ---------------------------------------------------------------------
  // Phone submit (handlePhoneSubmit)

  /** The state while a submit handler awaits the backend: the error is
      cleared and the page is loading. */
  function Pending(s: Session): (r: Session)
    ensures r.error == "" && r.loading
    ensures !CanSubmitPhone(r) && !CanSubmitOtp(r)
    ensures r.step == s.step && r.phone == s.phone && r.otp == s.otp && r.user == s.user
  {
    s.(error := "", loading := true)
  }

  /** The request `handlePhoneSubmit` sends; none when validation fails. */
  function PhoneRequest(s: Session): (r: Option<Request>)
    ensures r.Some? <==> ValidPhone(s.phone)
    ensures r.Some? ==> r.value == SendOtp(s.phone)
  {
    if ValidPhone(s.phone) then Some(SendOtp(s.phone)) else None
  }

  /** The session after the send-OTP reply has been handled. */
  function SettlePhone(s: Session, reply: Reply<User>): Session {
    match reply
    case ParseOrTransportFailure =>
      s.(error := ServerUnreachableMessage, loading := false)
    case Answered(status, success, message, _) =>
      if IsOk(status) && success then s.(step := OtpStep, loading := false)
      else if status == 404 then s.(step := DownloadStep, loading := false)
      else s.(error := MessageOr(message, PhoneFallbackMessage), loading := false)
  }

  /** `handlePhoneSubmit`: validate locally, then classify the send-OTP reply.
      `reply` is only consulted when a request was sent. */
  function PhoneSubmit(s: Session, reply: Reply<User>): (r: Session)
    ensures !r.loading
    ensures r.phone == s.phone && r.otp == s.otp && r.user == s.user
    ensures r.step == s.step || r.step == OtpStep || r.step == DownloadStep
  {
    var p := Pending(s);
    if !ValidPhone(s.phone) then p.(error := InvalidPhoneMessage, loading := false)
    else SettlePhone(p, reply)
  }

  /** A phone that is not exactly ten digits is rejected without a request:
      the outcome does not depend on any reply, the step stays, and the
      validation message is shown. */
  lemma InvalidPhoneRejectedLocally(s: Session, reply1: Reply<User>, reply2: Reply<User>)
    requires !ValidPhone(s.phone)
    ensures PhoneRequest(s) == None
    ensures PhoneSubmit(s, reply1) == PhoneSubmit(s, reply2)
    ensures PhoneSubmit(s, reply1).step == s.step
    ensures PhoneSubmit(s, reply1).error == InvalidPhoneMessage
    ensures !PhoneSubmit(s, reply1).loading
  {
  }

  /** How a send-OTP reply for a valid phone is classified. */
  lemma PhoneReplyClassification(s: Session, reply: Reply<User>)
    requires ValidPhone(s.phone)
    ensures PhoneRequest(s) == Some(SendOtp(s.phone))
    ensures var r := PhoneSubmit(s, reply);
      match reply
      case ParseOrTransportFailure =>
        r.step == s.step && r.error == ServerUnreachableMessage
      case Answered(status, success, message, _) =>
        if IsOk(status) && success then r.step == OtpStep && r.error == ""
        else if status == 404 then r.step == DownloadStep && r.error == ""
        else r.step == s.step && r.error == MessageOr(message, PhoneFallbackMessage)
  {
  }

  /** On the phone screen, the step moves on exactly when no error is shown,
      and it moves to the OTP screen exactly on an ok, successful reply to a
      valid phone. */
  lemma PhoneSubmitFromPhoneStep(s: Session, reply: Reply<User>)
    requires s.step == PhoneStep
    ensures var r := PhoneSubmit(s, reply);
      && (r.step == PhoneStep <==> r.error != "")
      && (r.step == OtpStep <==> ValidPhone(s.phone) && reply.Answered? && IsOk(reply.status) && reply.success)
      && (r.step == DownloadStep <==>
            ValidPhone(s.phone) && reply.Answered? && !(IsOk(reply.status) && reply.success) && reply.status == 404)
  {
    var r := PhoneSubmit(s, reply);
    if ValidPhone(s.phone) && reply.Answered? && !(IsOk(reply.status) && reply.success) && reply.status != 404 {
      assert r.error == MessageOr(reply.message, PhoneFallbackMessage);
    }
  }

  // ---------------------------------------------------------------------
  // OTP submit (handleOtpSubmit)

  /** The request `handleOtpSubmit` sends: there is no local validation. */
  function OtpRequest(s: Session): (r: Request)
    ensures r.VerifyOtp? && r.phone == s.phone && r.otp == s.otp
  {
    VerifyOtp(s.phone, s.otp)
  }

  /** Where a verified user is sent. */
  function Destination(u: User): (r: Step)
    ensures r == BookingStep <==> u.isOnboarded && u.hasCompletedProfile
    ensures r == BookingStep || r == DownloadStep
  {
    if u.isOnboarded && u.hasCompletedProfile then BookingStep else DownloadStep
  }

  /** The session after the verify-OTP reply has been handled. An ok,
      successful reply without a `user` stores the missing user and then
      fails reading its flags, which lands in the `catch` branch. */
  function SettleOtp(s: Session, reply: Reply<User>): Session {
    match reply
    case ParseOrTransportFailure =>
      s.(error := OtpUnverifiedMessage, loading := false)
    case Answered(status, success, message, user) =>
      if IsOk(status) && success then
        match user
        case Some(u) => s.(user := Some(u), step := Destination(u), loading := false)
        case None => s.(user := None, error := OtpUnverifiedMessage, loading := false)
      else s.(error := MessageOr(message, InvalidOtpMessage), loading := false)
  }

  /** `handleOtpSubmit`. */
  function OtpSubmit(s: Session, reply: Reply<User>): (r: Session)
    ensures !r.loading
    ensures r.phone == s.phone && r.otp == s.otp
    ensures r.step == s.step || r.step == BookingStep || r.step == DownloadStep
  {
    SettleOtp(Pending(s), reply)
  }

  /** How a verify-OTP reply is classified. */
  lemma OtpReplyClassification(s: Session, reply: Reply<User>)
    ensures var r := OtpSubmit(s, reply);
      match reply
      case ParseOrTransportFailure =>
        r.step == s.step && r.user == s.user && r.error == OtpUnverifiedMessage
      case Answered(status, success, message, user) =>
        if IsOk(status) && success then
          r.user == user &&
          (user.Some? ==> r.step == Destination(user.value) && r.error == "") &&
          (user.None? ==> r.step == s.step && r.error == OtpUnverifiedMessage)
        else r.step == s.step && r.user == s.user && r.error == MessageOr(message, InvalidOtpMessage)
  {
  }

  /** On the OTP screen: the step moves on exactly when no error is shown;
      the booking menu is reached exactly when an ok, successful reply
      carries a user who is onboarded and has completed the profile. */
  lemma OtpSubmitFromOtpStep(s: Session, reply: Reply<User>)
    requires s.step == OtpStep
    ensures var r := OtpSubmit(s, reply);
      && (r.step == OtpStep <==> r.error != "")
      && (r.step == BookingStep <==>
            reply.Answered? && IsOk(reply.status) && reply.success && reply.payload.Some?
            && reply.payload.value.isOnboarded && reply.payload.value.hasCompletedProfile)
      && (r.step == BookingStep ==> r.user.Some? && Destination(r.user.value) == BookingStep)
  {
    var r := OtpSubmit(s, reply);
    if reply.Answered? && !(IsOk(reply.status) && reply.success) {
      assert r.error == MessageOr(reply.message, InvalidOtpMessage);
    }
  }

  // ---------------------------------------------------------------------
  // Reset (handleBack)

  /** `handleBack`: back to phone entry with everything cleared except
      `loading`, which the handler does not touch. */
  function Reset(s: Session): (r: Session)
    ensures r.step == PhoneStep && r.phone == "" && r.otp == "" && r.user == None && r.error == ""
    ensures r.loading == s.loading
  {
    s.(step := PhoneStep, phone := "", otp := "", user := None, error := "")
  }

  /** Resetting is idempotent, and from an idle page it is the mount state. */
  lemma ResetIsInitial(s: Session)
    ensures Reset(Reset(s)) == Reset(s)
    ensures !s.loading ==> Reset(s) == Initial
  {
  }

  // ---------------------------------------------------------------------
  // Download target (DOWNLOAD_URL, handleDownloadRedirect)

  const AppStoreUrl: string := "https://apps.apple.com/app/localfix"
  const PlayStoreUrl: string := "https://play.google.com/store/apps/details?id=com.localfix"
  const GenericDownloadUrl: string := "https://localfix.app/download"

  /** `/iPhone|iPad|iPod|Android/i.test(userAgent)`. */
  predicate IsMobile(userAgent: string) {
    || ContainsIgnoringCase(userAgent, "iPhone")
    || ContainsIgnoringCase(userAgent, "iPad")
    || ContainsIgnoringCase(userAgent, "iPod")
    || ContainsIgnoringCase(userAgent, "Android")
  }

  /** `DOWNLOAD_URL`; the `iPhone` test here is case-sensitive. */
  function DownloadUrl(userAgent: string): string {
    if IsMobile(userAgent) then
      (if Contains(userAgent, "iPhone") then AppStoreUrl else PlayStoreUrl)
    else GenericDownloadUrl
  }

  /** `handleDownloadRedirect`: the navigation it performs, if any. */
  function DownloadRedirect(userAgent: string): (r: Option<string>)
    ensures r.Some? <==> IsMobile(userAgent)
    ensures r.Some? ==> r.value == DownloadUrl(userAgent)
  {
    if IsMobile(userAgent) then Some(DownloadUrl(userAgent)) else None
  }

  /** What the download screen shows: a store button with its hint on a
      mobile device, otherwise a QR code of the download URL. */
  datatype DownloadView = StoreButton(storeName: string) | QrCode(url: string)

  function DownloadScreen(userAgent: string): DownloadView {
    if IsMobile(userAgent) then
      StoreButton(if Contains(userAgent, "iPhone") then "App Store" else "Play Store")
    else QrCode(DownloadUrl(userAgent))
  }

  /** The three targets, each characterised by the user agent. */
  lemma DownloadTargetChoice(userAgent: string)
    ensures DownloadUrl(userAgent) == AppStoreUrl <==> Contains(userAgent, "iPhone")
    ensures DownloadUrl(userAgent) == PlayStoreUrl <==> IsMobile(userAgent) && !Contains(userAgent, "iPhone")
    ensures DownloadUrl(userAgent) == GenericDownloadUrl <==> !IsMobile(userAgent)
  {
    if Contains(userAgent, "iPhone") {
      ContainsIgnoringCaseOfContains(userAgent, "iPhone");
    }
    assert |AppStoreUrl| == 35 && |PlayStoreUrl| == 58 && |GenericDownloadUrl| == 29;
  }

  /** The hint on the mobile button names the store the redirect goes to, and
      the desktop QR code always encodes the generic download page. */
  lemma DownloadScreenAgreesWithRedirect(userAgent: string)
    ensures DownloadScreen(userAgent).StoreButton? <==> DownloadRedirect(userAgent).Some?
    ensures DownloadScreen(userAgent) == StoreButton("App Store") <==> DownloadRedirect(userAgent) == Some(AppStoreUrl)
    ensures DownloadScreen(userAgent) == StoreButton("Play Store") <==> DownloadRedirect(userAgent) == Some(PlayStoreUrl)
    ensures DownloadScreen(userAgent).QrCode? ==> DownloadScreen(userAgent).url == GenericDownloadUrl
  {
    DownloadTargetChoice(userAgent);
  }

  /** An iPad user agent, and a lower-case `iphone` one, count as mobile but
      fail the case-sensitive `iPhone` test, so both are sent to the Play Store. */
  lemma NonIPhoneMobilesGoToPlayStore()
    ensures DownloadUrl("iPad") == PlayStoreUrl
    ensures DownloadUrl("iphone") == PlayStoreUrl
  {
    assert Lower("iPad") == "ipad";
    assert ContainsIgnoringCase("iPad", "iPad");
    assert !Contains("iPad", "iPhone");
    assert Lower("iphone") == "iphone";
    assert Lower("iPhone") == "iphone";
    assert ContainsIgnoringCase("iphone", "iPhone");
    assert "iphone"[..6] != "iPhone";
    assert !Contains("iphone"[1..], "iPhone");
    assert !Contains("iphone", "iPhone");
  }
}
