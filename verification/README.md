# LocalFix web: a Dafny model of its page logic

The LocalFix marketing site has three pieces of logic beneath its React markup. This project models each of them as immutable datatypes and pure functions, and proves what the pages promise.

- **Instant booking wizard** (`InstantBooking`, `BookingFlow`, `ServiceCard`, `Backend`, `Text`).
  - A session moves from phone entry to OTP entry, and then to the app-download prompt or the service menu.
  - The phone and OTP fields keep only ASCII digits and are truncated to 10 and 6 characters.
  - Each submit handler is a function of the session and an abstract backend reply. A reply is either `ParseOrTransportFailure`, or `Answered(status, success, message, payload)`.
  - `BookingFlow` runs these handlers over any sequence of user events. Each screen offers only its own controls. A submit event fires only while its button is enabled, because HTML blocks implicit form submission when the default button is disabled. It proves an invariant of every reachable session: the service menu is shown only with an onboarded user whose profile is complete.
  - The download target comes from the user agent. A service card sends a booking request and shows a notice.
- **API key settings** (`HexKey`, `AdminSettings`).
  - A key is 32 random bytes, written as lower-case, zero-padded hex. The random bytes are a parameter.
  - Decoding is proved to undo encoding, so the encoding is injective.
  - Load, generate, revoke, copy and show/hide keep the displayed key in step with the one browser-storage slot.
- **Showcase visibility** (`Showcase`).
  - The intersection callback adds row indices to an insertion-ordered list without duplicates.
  - Each row's class attribute follows from its index parity and from whether the row is in that list.

Behaviour of the code worth knowing:
- An ok, successful verify-OTP reply with no `user` does not move to a new step. The handler first stores the missing user, then fails to read its flags. The failure lands in the `catch` branch, so the step stays on OTP entry with "Unable to verify OTP. Please try again.".
- The 404 branch of send-OTP reaches the download prompt without a user. So a user is present on the download prompt only after a verification.
- A non-JSON body makes `response.json()` reject. Even with status 404, that yields the generic error, not the download prompt.
- The mobile test is case-insensitive, but the `iPhone` test is case-sensitive. So an `iPad` user agent, or a lower-case `iphone` one, is sent to the Play Store.

## Model

| member | source | states |
|---|---|---|
| Text.KeepDigitsAppend | src/pages/InstantBooking.tsx:175 | the `\D` filter works character by character: filtering a concatenation concatenates the filtered parts, in order |
| Text.KeepDigitsCounts | src/pages/InstantBooking.tsx:175 | every digit of the input survives as often as it occurs; no other character survives |
| Text.KeepDigitsFixpoint | src/pages/InstantBooking.tsx:216 | the filter leaves a string unchanged exactly when it is all ASCII digits |
| Text.DigitInputShape | src/pages/InstantBooking.tsx:175 | the field value is all digits, at most the limit long, the leading part of the filtered input, and the whole of it when short enough |
| Text.DigitInputFixpoint | src/pages/InstantBooking.tsx:216 | filter-then-slice fixes a string exactly when it is a digit string within the limit |
| Text.DigitInputIdempotent | src/pages/InstantBooking.tsx:175 | filtering an already filtered value changes nothing |
| Text.ContainsIffOccurs | src/pages/InstantBooking.tsx:29 | `includes` holds exactly when the pattern occurs at some position |
| Text.ContainsIgnoringCaseOfContains | src/pages/InstantBooking.tsx:23-29 | a UA that contains `iPhone` also matches the case-insensitive mobile test |
| Backend.MessageOr | src/pages/InstantBooking.tsx:61 | `data.message` with the fallback for a falsy value: the backend message when present and non-empty, else the fallback |
| Backend.BaseUrl | src/pages/InstantBooking.tsx:46 | a configured non-empty base URL wins; an absent or empty one gives the default `https://localfix.xyz` |
| Backend.UrlsDistinguishRequestKinds | src/pages/InstantBooking.tsx:46-328 | send-OTP (line 46), verify-OTP (line 77) and instant booking (line 328) always go to different URLs |
| InstantBooking.InputFilters | src/pages/InstantBooking.tsx:175-216 | the phone field holds at most 10 digits and the OTP field at most 6; both filters are idempotent |
| InstantBooking.FilteredPhoneValidIffFull | src/pages/InstantBooking.tsx:37-38 | for a filtered phone, the `/^[0-9]{10}$/` test passes exactly when the length is 10 |
| InstantBooking.Pending | src/pages/InstantBooking.tsx:34-35 | while a handler awaits, the error is cleared, loading is set and both submit buttons are disabled; step, phone, OTP and user are untouched |
| InstantBooking.PhoneRequest | src/pages/InstantBooking.tsx:37-50 | a send-OTP request carrying the phone is made exactly when the phone is ten digits |
| InstantBooking.PhoneSubmit | src/pages/InstantBooking.tsx:32-69 | every exit ends with loading false; the handler never changes phone, OTP or user; the step stays or becomes OTP entry or download |
| InstantBooking.InvalidPhoneRejectedLocally | src/pages/InstantBooking.tsx:37-42 | a phone that is not ten digits sends nothing: the outcome is the same for every reply, the step stays, and the validation message is shown |
| InstantBooking.PhoneReplyClassification | src/pages/InstantBooking.tsx:52-65 | ok and success lead to OTP entry; else 404 leads to download; else the message or fallback is shown; a parse or transport failure shows the connectivity error |
| InstantBooking.PhoneSubmitFromPhoneStep | src/pages/InstantBooking.tsx:54-62 | on the phone screen the step stays exactly when an error is shown; OTP entry and download are each reached exactly on their reply class |
| BookingFlow.OtpRequestThroughPage | src/pages/InstantBooking.tsx:77-81 | on every reachable OTP screen, Verify (disabled at line 229 unless six characters are typed) is enabled exactly when six digits are typed, a submit with any other OTP length changes nothing, and an enabled submit sends a ten-digit phone with a six-digit code |
| InstantBooking.Destination | src/pages/InstantBooking.tsx:88-92 | a verified user reaches the service menu exactly when onboarded and profile-complete, otherwise the download prompt |
| InstantBooking.OtpSubmit | src/pages/InstantBooking.tsx:71-102 | every exit ends with loading false; phone and OTP are kept; the step stays or becomes booking or download |
| InstantBooking.OtpReplyClassification | src/pages/InstantBooking.tsx:83-98 | a success stores the reply's user and moves to its destination; a success without a user shows the verify error; other replies keep the step with the message or "Invalid OTP" fallback |
| InstantBooking.OtpSubmitFromOtpStep | src/pages/InstantBooking.tsx:85-95 | on the OTP screen the step stays exactly when an error is shown; booking is reached exactly on a success whose user is onboarded and profile-complete |
| InstantBooking.Reset | src/pages/InstantBooking.tsx:110-116 | from any step: phone entry, empty phone, OTP and error, no user; `loading` is not touched |
| InstantBooking.ResetIsInitial | src/pages/InstantBooking.tsx:15-20 | reset is idempotent, and on an idle page it gives back the mount state |
| InstantBooking.DownloadRedirect | src/pages/InstantBooking.tsx:104-108 | a redirect happens exactly on a mobile UA, and goes to the download URL; otherwise nothing happens |
| InstantBooking.DownloadTargetChoice | src/pages/InstantBooking.tsx:23-30 | App Store exactly for UAs containing `iPhone`; Play Store exactly for other mobile UAs; the generic page exactly for non-mobile UAs |
| InstantBooking.DownloadScreenAgreesWithRedirect | src/pages/InstantBooking.tsx:253-278 | the mobile hint names the store the redirect goes to; the desktop QR code encodes the generic download page |
| InstantBooking.NonIPhoneMobilesGoToPlayStore | src/pages/InstantBooking.tsx:23-30 | the user agents `iPad` and `iphone` both get the Play Store URL |
| BookingFlow.NextInv | src/pages/InstantBooking.tsx:156-303 | every event keeps the reachable-session invariant: not loading, digit fields within limits, a valid phone past the first step, no user on phone or OTP entry, booking only with a user whose destination is booking |
| BookingFlow.RunInv | src/pages/InstantBooking.tsx:15-116 | the invariant holds after any sequence of events |
| BookingFlow.BookingHasUser | src/pages/InstantBooking.tsx:287 | on every event trace the service menu has a user, and that user is onboarded and profile-complete |
| BookingFlow.PhoneValidationUnreachable | src/pages/InstantBooking.tsx:188 | through the page, an enabled "Get OTP" button always sends the request, so the regex rejection is never reached |
| BookingFlow.Phone404ThroughPage | src/pages/InstantBooking.tsx:57-59 | on every reachable phone screen with Get OTP enabled, a 404 reply leads to the download prompt with no user and the phone kept |
| BookingFlow.DownloadWithoutUser | src/pages/InstantBooking.tsx:57-59 | one concrete trace: typing `9876543210` and a 404 from send-OTP reaches the download prompt with no user, so "download implies user" does not hold |
| BookingFlow.TypeValidPhone | src/pages/InstantBooking.tsx:175 | typing a ten-digit phone stores it unchanged |
| BookingFlow.SendOtpScenario | src/pages/InstantBooking.tsx:54-56 | typing `9876543210` and a `{success:true}` reply lead to OTP entry, with that phone and no error |
| BookingFlow.VerifyOtpScenario | src/pages/InstantBooking.tsx:85-92 | typing `123456` and a success whose user has not onboarded lead to the download prompt, with that user stored and the phone kept |
| BookingFlow.BookingRequestThroughPage | src/pages/InstantBooking.tsx:333-336 | on every reachable service menu, each of the six cards (lines 295-300) posts the session's phone, ten digits with no `+91` prefix, and a service type with no upper-case ASCII letter that lower-casing leaves unchanged |
| ServiceCard.NoticeCharacterisation | src/pages/InstantBooking.tsx:339-348 | the card confirms exactly on an ok, successful reply with a booking number; the confirmation text ends with that number |
| ServiceCard.ServiceTypesDistinct | src/pages/InstantBooking.tsx:295-300 | the six cards send six different service types |
| ServiceCard.DistinctByInitials | src/pages/InstantBooking.tsx:335 | titles whose lower-cased first two letters differ give different service types |
| HexKey.HexValue | src/pages/AdminSettings.tsx:23 | each lower-case hex character has a value whose digit is that character |
| HexKey.HexValueOfDigit | src/pages/AdminSettings.tsx:23 | reading a hex digit back gives its value |
| HexKey.ByteHex | src/pages/AdminSettings.tsx:23 | each byte becomes exactly two lower-case hex characters |
| HexKey.ByteHexIsPaddedRadix16 | src/pages/AdminSettings.tsx:23 | `byte.toString(16).padStart(2, '0')` writes the two nibbles, high first; bytes below 16 get a leading '0' |
| HexKey.Encode | src/pages/AdminSettings.tsx:23 | the key has exactly two characters per byte |
| HexKey.EncodeAt | src/pages/AdminSettings.tsx:23 | byte i occupies characters 2i and 2i+1 |
| HexKey.EncodeIsHex | src/pages/AdminSettings.tsx:23 | every key character is in `0-9a-f` |
| HexKey.DecodeEncode | src/pages/AdminSettings.tsx:23 | decoding a key gives back the bytes it was made from |
| HexKey.EncodeInjective | src/pages/AdminSettings.tsx:23 | different byte arrays never give the same key |
| HexKey.GenerateApiKey | src/pages/AdminSettings.tsx:20-24 | the generated key is the encoding of the 32 random bytes: 64 lower-case hex characters |
| AdminSettings.Load | src/pages/AdminSettings.tsx:29-32 | a stored non-empty key is shown; otherwise the page is left unchanged |
| AdminSettings.LoadSyncs | src/pages/AdminSettings.tsx:27-33 | after mount and load the page shows exactly the stored key, and shows a key exactly when a non-empty one is stored |
| AdminSettings.GenerateKey | src/pages/AdminSettings.tsx:35-50 | the displayed key equals the stored key and is the 64-character encoding of the bytes; loading is false; the success message is set |
| AdminSettings.Revoke | src/pages/AdminSettings.tsx:60-71 | an unconfirmed revoke changes nothing; a confirmed one empties the key and the slot, ends loading and sets the message |
| AdminSettings.CopyKey | src/pages/AdminSettings.tsx:52-58 | with no key, nothing is copied and nothing changes; otherwise the key goes to the clipboard and `copied` is set |
| AdminSettings.ToggleShowKey | src/pages/AdminSettings.tsx:110 | the eye button flips visibility and leaves the key and storage alone |
| AdminSettings.ApplySynced | src/pages/AdminSettings.tsx:35-71 | generate, revoke, copy and toggle each keep the displayed key equal to the stored one |
| AdminSettings.SessionStaysSynced | src/pages/AdminSettings.tsx:35-71 | any sequence of actions keeps the displayed key in step with storage |
| AdminSettings.MountedSessionSynced | src/pages/AdminSettings.tsx:27-71 | from mount and load on, the displayed key is always the stored key, or empty |
| Showcase.SetFromProperties | src/components/AppShowcase.tsx:46 | `Array.from(new Set(s))` has no duplicates and the same members as `s` |
| Showcase.SetFromNoDuplicates | src/components/AppShowcase.tsx:46 | a list without duplicates passes through the Set unchanged |
| Showcase.AddVisibleAppends | src/components/AppShowcase.tsx:46 | the update appends the index when it is new, and otherwise returns exactly the previous list |
| Showcase.AddVisibleProperties | src/components/AppShowcase.tsx:46 | after an update: no duplicates, the members are the old ones plus the index, the old list stays in front in order, and a second update changes nothing |
| Showcase.OnEntriesProperties | src/components/AppShowcase.tsx:42-48 | a batch of entries keeps the list duplicate-free, adds exactly the intersecting indices, and keeps the old list in front |
| Showcase.NonIntersectingIgnored | src/components/AppShowcase.tsx:44 | entries that do not intersect leave the list unchanged |
| Showcase.SeenEntriesIgnored | src/components/AppShowcase.tsx:44-46 | intersecting entries whose rows are already visible leave the list unchanged |
| Showcase.OnEntriesIdempotent | src/components/AppShowcase.tsx:42-48 | delivering the same batch twice gives the same list as delivering it once |
| Showcase.RowClassTokens | src/components/AppShowcase.tsx:70 | a row has `row-normal` exactly when its index is even, `row-reverse` exactly when it is odd, and `is-visible` exactly when its index is in the list |

## Left out

- `fetch`, HTTP and `response.json()` are not modelled. Each handler receives the backend reply as an abstract value.
- JSON bodies that are not objects are not modelled. A `null` body, for instance, would throw on a property read. Non-boolean `success` and profile flags, and a non-string `message`, are also left out. Fields are modelled as booleans, optional strings and an optional user.
- Handlers are modelled as atomic: each runs to completion before the next event. A Back click while a request is in flight, and the reply then landing on a reset session, are not modelled, because that is concurrency. In the page this race is real: "Change Phone Number" stays enabled while verify-OTP is pending (line 236), so a successful reply landing after the reset sets step `booking` with phone `''` (lines 86-89 after 110-116), and the cards would then post an empty phone. That session breaks the model's invariant that every step past phone entry holds a valid phone; this follows from reading the code, not from running it. `Back` does not reset `loading`, and the model keeps that.
- The per-card in-flight `booking` flag of `ServiceCard` is not modelled. It only toggles around a concurrent call.
- `setTimeout` is not modelled: the 500 ms simulated latency of generate and revoke, and the expiry of the message and `copied` flags, are timer plumbing.
- `alert` becomes the `Notice` value, and its emoji are omitted. `window.location` becomes the optional redirect, and `navigator.clipboard` becomes the optional clipboard text. `console.error` is dropped.
- `navigator.userAgent` is a parameter, `crypto.getRandomValues` is the 32 bytes passed in, and `localStorage` is a single optional slot.
- A reply whose `data.data` exists but has no `bookingNumber` is not modelled. The page would show "Booking ID: undefined".
- `Number(getAttribute('data-index'))` is taken to be the row's index. It cannot be `NaN`, because every row sets the attribute.
- Text.Lower: lower-cases ASCII only. That covers the six service titles, and the `i` flag on an ASCII pattern, which treats other characters as themselves.
- Strings are sequences of Unicode characters rather than UTF-16 code units. The filtered fields hold ASCII digits only, so nothing changes for them.
- The following are presentational and not modelled: QR code rendering, the step indicator markup, JSX and CSS. Also `src/App.tsx` (scroll parallax in floating point), `src/components/Layout.tsx`, the legal pages, and the router in `src/main.tsx`.
