# Booking-site web client: a verified model of its page logic

This project models the logic beneath the React pages of the web client of a small vacation-rental (pension) booking site, and proves properties of that model in Dafny. It covers seven pieces:

- the booking calendar: the 42-cell month grid, month navigation, the two-slot date-range selector, the values derived from it, and the guard run before a booking request;
- the session-token helpers: the segment check, the base64url alphabet swap, the `exp` expiry test, role detection, and eviction from `localStorage`;
- the phone-verification form: the six code slots, phone sanitising, the mobile-number pattern, and the order of the submit checks;
- the password-setup form: the strength rule, and the order of the rule check against the confirmation match;
- the chat page: the first-match keyword router, and the message list with its typing flag;
- the chat API client's error classification;
- the admin dashboard: the booking search, the count cards, the status colours, the host access gate, and logout.

The model has one module per source file, plus shared helper modules:

- `Wrappers` holds `Option`;
- `Text` holds ASCII casing, `includes`, `join` and decimal numerals;
- `Gregorian` holds the calendar arithmetic that JavaScript's `Date` does implicitly;
- `LocalStorage` models the browser store as a `map<string, string>` with `getItem`, `setItem` and `removeItem`.

Each page's state slots are the fields of a class. Each event handler is a method that changes exactly what its `modifies` clause names. The expressions the handlers use are functions, and lemmas state what those functions mean.

The outside world enters as parameters:

- the clock is a `now` reading;
- `atob` followed by `JSON.parse` is an abstract partial decoder;
- the outcome of each network request is a reply value handed to a "settled" method.

Those methods carry out what the page does once the request returns.

## Model

| member | source | states |
|---|---|---|
| Gregorian.DaysInMonth | src/pages/BookingSystemPage.tsx:16 | a month has 28 to 31 days, and 29 exactly in February of a leap year |
| Gregorian.NextDay | src/pages/BookingSystemPage.tsx:144-145 | the day after a valid date is valid; it is the next day of the month, or the first of the next month (with year carry) after a month's last day |
| Gregorian.NextDayNumber | src/pages/BookingSystemPage.tsx:144-145 | the day after a date is one day later in time value, and one weekday later modulo 7 |
| Gregorian.DayNumberOrder | src/pages/BookingSystemPage.tsx:59 | comparing two local-midnight dates by time value agrees with calendar order |
| Gregorian.DayNumberInjective | src/pages/BookingSystemPage.tsx:96 | two valid dates with equal time values are the same date |
| Gregorian.NextMonth | src/pages/BookingSystemPage.tsx:52 | the month after (y, m) is a valid month, one month later counting 12 per year |
| Gregorian.PrevMonth | src/pages/BookingSystemPage.tsx:48 | the month before (y, m) is a valid month, one month earlier counting 12 per year |
| Gregorian.NextDayAfterPrevMonth | src/pages/BookingSystemPage.tsx:19-28 | the last day of the previous month is followed by the first of this month |
| Gregorian.KnownWeekdays | src/pages/BookingSystemPage.tsx:21 | `getDay` numbering: 1970-01-01 is a Thursday (4), 2025-08-10 a Sunday (0) |
| LocalStorage.GetItem | src/utils/jwtUtils.ts:101 | `getItem` yields a value exactly when the key is present, and then the stored value |
| LocalStorage.Storage.SetItem | src/pages/PhoneVerificationPage.tsx:83 | `setItem` overwrites one key and leaves every other entry alone |
| LocalStorage.Storage.RemoveItem | src/utils/jwtUtils.ts:104 | `removeItem` deletes one key and leaves every other entry alone |
| BookingCalendar.BuildGrid | src/pages/BookingSystemPage.tsx:15-38 | the three `for` loops produce exactly the reference grid `MonthGrid` of the shown month: 42 cells, cell k being `CellAt(ym, k)` |
| BookingCalendar.MonthGrid | src/pages/BookingSystemPage.tsx:33-38 | the grid always has 42 cells, each the reference cell at its index |
| BookingCalendar.Lead | src/pages/BookingSystemPage.tsx:21 | the number of leading cells is between 0 and 6 |
| BookingCalendar.GridHoldsMonth | src/pages/BookingSystemPage.tsx:15-36 | the 1st sits at index `Lead` (its weekday), every day of the month follows in order, and at least 5 days of the next month pad the end |
| BookingCalendar.GridPadding | src/pages/BookingSystemPage.tsx:19-36 | the leading block is the last `Lead` days of the previous month in ascending order, and the trailing block counts up from the 1st of the next month |
| BookingCalendar.GridConsecutive | src/pages/BookingSystemPage.tsx:15-38 | consecutive cells are consecutive calendar days, across both month boundaries |
| BookingCalendar.GridDayNumbers | src/pages/BookingSystemPage.tsx:15-38 | cell k is exactly k days after cell 0 |
| BookingCalendar.GridColumnsAreWeekdays | src/pages/BookingSystemPage.tsx:21 | column k % 7 of the grid holds dates of weekday k % 7, Sunday first |
| BookingCalendar.PrevMonthStart | src/pages/BookingSystemPage.tsx:47-49 | `handlePrevMonth` moves to day 1 of the previous month, with year borrow |
| BookingCalendar.NextMonthStart | src/pages/BookingSystemPage.tsx:51-53 | `handleNextMonth` moves to day 1 of the next month, with year carry |
| BookingCalendar.NavigationRoundTrip | src/pages/BookingSystemPage.tsx:47-53 | next then previous, or previous then next, returns to the 1st of the displayed month |
| BookingCalendar.Click | src/pages/BookingSystemPage.tsx:55-75 | a past date leaves both slots unchanged; otherwise an empty or complete selection restarts at d, a lone start gets end d when d is later, and is re-anchored at d otherwise |
| BookingCalendar.ClickKeepsRange | src/pages/BookingSystemPage.tsx:55-75 | one click keeps "an end date only with an earlier start date", and keeps the held dates valid |
| BookingCalendar.ClicksKeepRange | src/pages/BookingSystemPage.tsx:55-75 | after any sequence of clicks, an end date is held only together with an earlier start date |
| BookingCalendar.IsPastDate | src/pages/BookingSystemPage.tsx:113-117 | `isPastDate`: strictly before today's midnight; Click states that clicking such a date changes nothing |
| BookingCalendar.IsSelected | src/pages/BookingSystemPage.tsx:88-98 | `isSelected`; SelectionHighlighting states it is exactly start, end or in range |
| BookingCalendar.IsInRange | src/pages/BookingSystemPage.tsx:108-111 | `isInRange`, strictly between the two held dates; SelectionHighlighting states the endpoints are never in range |
| BookingCalendar.SelectionHighlighting | src/pages/BookingSystemPage.tsx:88-111 | under the range invariant, a cell is selected exactly when it is the start, the end or in range, and the endpoints are never in range |
| BookingCalendar.Nights | src/pages/BookingSystemPage.tsx:119-138 | nights are shown exactly when a start is chosen, and are at least one |
| BookingCalendar.EndDateForApi | src/pages/BookingSystemPage.tsx:141-149 | the held end date if there is one; for a lone start exactly `NextDay(start)`; none without any date; the result is valid and after the start |
| BookingCalendar.NightsMatchRequest | src/pages/BookingSystemPage.tsx:136-149 | the nights shown equal the day distance from the start to the end date sent to the server |
| BookingCalendar.BookingScenarios | src/pages/BookingSystemPage.tsx:127-149 | 10 to 13 August 2025 is three nights; a lone 10 August asks for the range ending 11 August |
| BookingCalendar.DateDisplay | src/pages/BookingSystemPage.tsx:119-138 | the three display texts: the prompt without a start, "(1박)" for a lone start, the range with its nights otherwise |
| BookingCalendar.Headcount | src/pages/BookingSystemPage.tsx:209 | `Number(guestCount)` of an offered option is the number whose decimal numeral is that option, and lies in 6..15 |
| BookingCalendar.GuestOptionValue | src/pages/BookingSystemPage.tsx:443-452 | each offered option is a decimal numeral whose value lies in 6..15 |
| BookingCalendar.AvailabilityQuery | src/pages/BookingSystemPage.tsx:156-171 | a query is sent exactly when a start is chosen, over a range that starts there and ends at `getEndDateForAPI()`: the held end date, or the next day for a lone start |
| BookingCalendar.BookingGuard | src/pages/BookingSystemPage.tsx:191-221 | a press while loading is ignored; otherwise a missing date or guest count gives the missing-information alert, a complete form without a truthy token gives the login prompt, and only a complete form with a token submits (the token, the start, `getEndDateForAPI()`, and `Headcount(guestCount)`); `loading` is true afterwards on every path |
| BookingCalendar.MissingInfoLocksBooking | src/pages/BookingSystemPage.tsx:194-198 | the early return leaves `loading` set, so after the missing-information alert every later press is ignored |
| BookingCalendar.BookingSystemPage.constructor | src/pages/BookingSystemPage.tsx:9-12 | the page starts on today's month with nothing selected, no guest count and not loading |
| BookingCalendar.BookingSystemPage.Grid | src/pages/BookingSystemPage.tsx:15-38 | the rendered cells are the reference grid of the displayed month |
| BookingCalendar.BookingSystemPage.HandlePrevMonth | src/pages/BookingSystemPage.tsx:47-49 | the displayed date becomes the 1st of the previous month |
| BookingCalendar.BookingSystemPage.HandleNextMonth | src/pages/BookingSystemPage.tsx:51-53 | the displayed date becomes the 1st of the next month |
| BookingCalendar.BookingSystemPage.HandleDateClick | src/pages/BookingSystemPage.tsx:55-75 | the slots become `Click(old slots, date, today)` and the range invariant is kept |
| BookingCalendar.BookingSystemPage.SetGuestCount | src/pages/BookingSystemPage.tsx:431 | the guest count becomes the chosen option |
| BookingCalendar.BookingSystemPage.HandleBooking | src/pages/BookingSystemPage.tsx:191-221 | the action and the new `loading` flag are those of `BookingGuard` on the current state and the stored token |
| BookingCalendar.BookingSystemPage.BookingSettled | src/pages/BookingSystemPage.tsx:222-231 | once the POST has settled, `loading` is false |
| JwtUtils.SplitProperties | src/utils/jwtUtils.ts:9 | `split('.')` yields one segment more than there are dots, no segment holds a dot, and joining them gives the token back |
| JwtUtils.Split | src/utils/jwtUtils.ts:9 | `split('.')` always yields at least one segment; SplitProperties gives the segment count, that no segment holds a dot, and the join round trip |
| JwtUtils.ToBase64Alphabet | src/utils/jwtUtils.ts:15 | the rewrite keeps the length, maps '-' to '+' and '_' to '/', and changes no other character |
| JwtUtils.ToBase64AlphabetFixes | src/utils/jwtUtils.ts:15 | the rewrite is idempotent, and a payload without '-' and '_' is left as it is |
| JwtUtils.DecodeJwt | src/utils/jwtUtils.ts:7-21 | `decodeJWT`; DecodeJwtSegments states that it is null unless the token has exactly two dots, and otherwise the decoder on the rewritten middle segment |
| JwtUtils.DecodeJwtSegments | src/utils/jwtUtils.ts:7-21 | a token without exactly three segments decodes to null; otherwise the result is the decoder's on the rewritten middle segment |
| JwtUtils.IsTokenExpired | src/utils/jwtUtils.ts:28-36 | `isTokenExpired`; TokenLiveness states exactly when it is false, and MalformedTokenIsExpired that a dotless token is expired |
| JwtUtils.TokenLiveness | src/utils/jwtUtils.ts:28-36 | a token is live exactly when it decodes, its `exp` is non-zero and `exp` is not below the current second (fails closed) |
| JwtUtils.TimeUntilExpiry | src/utils/jwtUtils.ts:43-53 | the remaining time is never negative, is whole seconds, and is positive only for a live token |
| JwtUtils.TimeUntilExpiryOfLiveToken | src/utils/jwtUtils.ts:43-53 | for a live token it is `(exp - now seconds) * 1000`, and zero exactly when `exp` is the current second |
| JwtUtils.MalformedTokenIsExpired | src/utils/jwtUtils.ts:28-46 | a token without a dot is expired and has no time left |
| JwtUtils.HostTestIsContains | src/utils/jwtUtils.ts:86 | the test (equal to "HOST", equal to "ROLE_HOST", or containing "HOST") is the substring test alone |
| JwtUtils.IsHost | src/utils/jwtUtils.ts:60-94 | `isHost(key)`; IsHostMeaning states it against the claim-by-claim reading HasHostRole, through HostPipeline, and NotHostWithoutLiveToken its failure cases |
| JwtUtils.HostPipeline | src/utils/jwtUtils.ts:72-86 | the push, `flatMap`, `filter`, `map`, `some` pipeline finds a host string exactly when one of the five claims is, or holds in an array, a string whose upper-cased form contains "HOST" |
| JwtUtils.IsHostMeaning | src/utils/jwtUtils.ts:60-94 | `isHost` holds exactly for a present, live token whose payload names the host role in a role claim or, failing that, has `isHost === true` |
| JwtUtils.NotHostWithoutLiveToken | src/utils/jwtUtils.ts:61-64 | an absent, empty or expired token is never a host's |
| JwtUtils.AfterRemoveExpired | src/utils/jwtUtils.ts:100-106 | the key is deleted exactly when present, non-empty and expired; every other key and value is untouched |
| JwtUtils.RemoveExpiredIdempotent | src/utils/jwtUtils.ts:100-106 | a second eviction at the same instant changes nothing |
| JwtUtils.RemoveExpiredToken | src/utils/jwtUtils.ts:100-106 | the store becomes `AfterRemoveExpired` of the old store |
| JwtUtils.MonitorDecision | src/utils/jwtUtils.ts:118-140 | no token means no action; a timer is armed only for a live token, with delay `getTimeUntilExpiry` > 0 |
| JwtUtils.MonitorEvictsDueTokens | src/utils/jwtUtils.ts:123-134 | a present token is evicted at once exactly when it is expired or its `exp` is the current second |
| JwtUtils.ArmedTimerFiresAtExpiry | src/utils/jwtUtils.ts:129-140 | an armed timer fires no earlier than the `exp` instant and less than a second after it, because the delay counts from the start of the current second |
| JwtUtils.StartTokenExpiryMonitor | src/utils/jwtUtils.ts:114-145 | the outcome is `MonitorDecision`, and the key is removed exactly on the evict-now outcome |
| JwtUtils.ExpiryTimerFired | src/utils/jwtUtils.ts:136-140 | the timer callback removes the key whatever it holds by then, and nothing else |
| PhoneVerification.UpdateCode | src/pages/PhoneVerificationPage.tsx:14-24 | a value that is not "" or one digit leaves the code unchanged; otherwise only slot `index` changes; the length and slot validity are kept |
| PhoneVerification.JoinedCodeLength | src/pages/PhoneVerificationPage.tsx:66-67 | the joined code has one digit per filled slot, so it has length 6 exactly when all six slots are filled, and it is all digits |
| PhoneVerification.KeepDigits | src/pages/PhoneVerificationPage.tsx:27 | deleting the non-digits yields only digits, and no more characters than the input |
| PhoneVerification.KeepDigitsAppend | src/pages/PhoneVerificationPage.tsx:27 | keeping digits distributes over concatenation, so their order is kept |
| PhoneVerification.KeepDigitsOfDigits | src/pages/PhoneVerificationPage.tsx:27 | a string of digits is left as it is |
| PhoneVerification.SanitizePhone | src/pages/PhoneVerificationPage.tsx:26-29 | the sanitised phone is all digits and at most 11 long |
| PhoneVerification.SanitizePhoneIdempotent | src/pages/PhoneVerificationPage.tsx:27 | sanitising is idempotent, and keeps a prefix of the input's digits |
| PhoneVerification.IsMobileNumber | src/pages/PhoneVerificationPage.tsx:34 | the mobile-number pattern read piece by piece; MobileNumberShape states exactly which strings it accepts |
| PhoneVerification.MobileNumberShape | src/pages/PhoneVerificationPage.tsx:34 | `^01[016789][0-9]{7,8}$` accepts exactly the all-digit strings of length 10 or 11 starting "01" and a carrier digit; an accepted number survives sanitising |
| PhoneVerification.JoinedFullCode | src/pages/PhoneVerificationPage.tsx:66 | with every slot filled, the joined code is the slots' characters in slot order |
| PhoneVerification.CheckSubmit | src/pages/PhoneVerificationPage.tsx:61-71 | the phone is checked first; the code is incomplete exactly when the phone is accepted and a slot is empty; a request carries the phone and the six slot digits in slot order (`code.join('')`) |
| PhoneVerification.MessageOr | src/pages/PhoneVerificationPage.tsx:43-46 | the text shown is the server's message when it is non-empty, and the fallback otherwise |
| PhoneVerification.PhoneVerificationPage.constructor | src/pages/PhoneVerificationPage.tsx:6-11 | six empty slots, empty texts, no flags set |
| PhoneVerification.PhoneVerificationPage.HandleChange | src/pages/PhoneVerificationPage.tsx:14-24 | the code becomes `UpdateCode(old code, index, value)` |
| PhoneVerification.PhoneVerificationPage.HandlePhoneChange | src/pages/PhoneVerificationPage.tsx:26-29 | the phone becomes the sanitised input |
| PhoneVerification.PhoneVerificationPage.HandleSendCode | src/pages/PhoneVerificationPage.tsx:31-40 | `sendMsg` is cleared; a code is requested exactly for an accepted number, which also clears the error and sets `isSending`; a rejected number sets the phone error |
| PhoneVerification.PhoneVerificationPage.SendCodeSettled | src/pages/PhoneVerificationPage.tsx:41-52 | success sets the server's message or the sent text; an error response sets its message or the failure text; no response sets the server-error text; `isSending` ends false |
| PhoneVerification.PhoneVerificationPage.HandleSubmit | src/pages/PhoneVerificationPage.tsx:55-78 | error and `sendMsg` are cleared; a rejected phone or an incomplete code sets its error, ends `isSubmitting` and sends nothing; otherwise (phone, six-digit code) is sent |
| PhoneVerification.PhoneVerificationPage.SubmitSettled | src/pages/PhoneVerificationPage.tsx:78-94 | only success stores "phone" and navigates, leaving `error` alone; the two failure kinds set their texts; `isSubmitting` ends false |
| PasswordSetup.ValidatePasswordMeaning | src/pages/PasswordSetupPage.tsx:12-15 | the rule accepts exactly the strings the pattern matches: at least 8 characters, no line terminator, one A-Z, one 0-9 and one listed special character |
| PasswordSetup.ValidatePassword | src/pages/PasswordSetupPage.tsx:12-15 | `validatePassword`; ValidatePasswordMeaning proves it equal to the lookahead pattern, and three lemmas fix concrete cases |
| PasswordSetup.SpecialClass | src/pages/PasswordSetupPage.tsx:14 | the special-character ranges are exactly the listed bracket expression, which leaves out '~' and '`' |
| PasswordSetup.StrongPasswordAccepted | src/pages/PasswordSetupPage.tsx:12-15 | "Penbot12!", with a capital, digits and a special character, passes the rule |
| PasswordSetup.PasswordWithoutCapitalRejected | src/pages/PasswordSetupPage.tsx:14 | "penbot12!" fails for lack of a capital letter |
| PasswordSetup.PasswordWithoutSpecialRejected | src/pages/PasswordSetupPage.tsx:14 | "Penbot123" fails for lack of a special character |
| PasswordSetup.CheckPassword | src/pages/PasswordSetupPage.tsx:21-28 | an invalid password always gets the rule message, whatever the confirmation; the mismatch message only for a valid one |
| PasswordSetup.BearerHeader | src/pages/PasswordSetupPage.tsx:32-41 | the header is "Bearer " followed by the token, or by "null" when none is stored |
| PasswordSetup.PasswordSetupPage.constructor | src/pages/PasswordSetupPage.tsx:5-9 | empty fields, not submitting |
| PasswordSetup.PasswordSetupPage.HandleSubmit | src/pages/PasswordSetupPage.tsx:17-41 | error and success are cleared; a failed check sets its message, leaves `isSubmitting` alone and sends nothing; otherwise `isSubmitting` is set and the password is sent with the bearer header |
| PasswordSetup.PasswordSetupPage.UpdateSettled | src/pages/PasswordSetupPage.tsx:42-53 | a truthy `accessToken` replaces "jwt"; success sets the success text and navigates; failure sets the error; `isSubmitting` ends false |
| ChatbotPage.TrimStart | src/pages/ChatbotPage.tsx:36 | the result is a suffix of the input, everything dropped is white space, and it does not start with white space |
| ChatbotPage.TrimEnd | src/pages/ChatbotPage.tsx:36 | the result is a prefix of the input, everything dropped is white space, and it does not end with white space |
| ChatbotPage.Trim | src/pages/ChatbotPage.tsx:36 | `trim()`, TrimEnd of TrimStart; their contracts state what is removed |
| ChatbotPage.IsBlank | src/pages/ChatbotPage.tsx:36 | `!inputText.trim()`; BlankIffAllWhitespace states it holds exactly for all-white-space input |
| ChatbotPage.BlankIffAllWhitespace | src/pages/ChatbotPage.tsx:36 | `!inputText.trim()` holds exactly when every character is white space |
| ChatbotPage.BotResponseIsCanned | src/pages/ChatbotPage.tsx:62-98 | every reply is one of the nine fixed texts |
| ChatbotPage.GetBotResponse | src/pages/ChatbotPage.tsx:62-98 | `getBotResponse`; BotResponseIsCanned, GetBotResponseIsFirstMatch, FallbackMeansNoKeyword and BotResponseIgnoresCase state its meaning |
| ChatbotPage.GetBotResponseIsFirstMatch | src/pages/ChatbotPage.tsx:63-97 | the chain of tests is the first-match reading of the keyword table, in source order |
| ChatbotPage.AnyKeywordIff | src/pages/ChatbotPage.tsx:65-93 | a keyword group matches exactly when one of its keywords occurs in the input |
| ChatbotPage.FirstMatchFallback | src/pages/ChatbotPage.tsx:93-97 | with no rule for the fallback, first-match gives the fallback exactly when no rule matches |
| ChatbotPage.NoRuleMatches | src/pages/ChatbotPage.tsx:63-97 | no rule matches exactly when no keyword of any rule occurs in the input |
| ChatbotPage.FallbackMeansNoKeyword | src/pages/ChatbotPage.tsx:63-97 | the fallback reply is given exactly when no keyword occurs in the lower-cased input |
| ChatbotPage.BotResponseIgnoresCase | src/pages/ChatbotPage.tsx:63 | the reply does not depend on the case of ASCII letters |
| ChatbotPage.RedundantKeywords | src/pages/ChatbotPage.tsx:65-79 | "예약하기", "편의시설" and "어떤 시설" contain the shorter keywords, so they never decide a group on their own |
| ChatbotPage.TopicOfFirstMatchingRule | src/pages/ChatbotPage.tsx:63-97 | an input containing the first keyword of rule k, and no character that starts a keyword of an earlier rule, gets rule k's reply |
| ChatbotPage.CancelBookingGetsBookingReply | src/pages/ChatbotPage.tsx:65-87 | "예약 취소" gets the booking reply, because reservation is checked before cancellation |
| ChatbotPage.BookingQuickQuestion | src/pages/ChatbotPage.tsx:65-67 | the quick question "예약 문의" gets the booking reply, not the contact one, because reservation is checked first |
| ChatbotPage.PriceQuickQuestion | src/pages/ChatbotPage.tsx:69-71 | the quick question "가격 안내" gets the price reply |
| ChatbotPage.LocationQuickQuestion | src/pages/ChatbotPage.tsx:73-75 | the quick question "위치/교통" gets the directions reply |
| ChatbotPage.FacilitiesQuickQuestion | src/pages/ChatbotPage.tsx:77-79 | the quick question "시설 정보" gets the facilities reply |
| ChatbotPage.CheckInQuickQuestion | src/pages/ChatbotPage.tsx:81-83 | the quick question "체크인/아웃" gets the check-in reply |
| ChatbotPage.CancellationQuickQuestion | src/pages/ChatbotPage.tsx:85-87 | the quick question "취소 정책" gets the cancellation reply |
| ChatbotPage.InitialChatInvariant | src/pages/ChatbotPage.tsx:15-22 | the conversation starts with the greeting alone and nothing pending |
| ChatbotPage.SendKeepsChatInvariant | src/pages/ChatbotPage.tsx:38-47 | appending a non-blank question queues it, and keeps "one reply per answered question, the latest ones pending, none blank" |
| ChatbotPage.ReplyKeepsChatInvariant | src/pages/ChatbotPage.tsx:50-59 | a firing reply timer answers the oldest unanswered question, dequeues it and keeps the invariant |
| ChatbotPage.ChatbotPage.constructor | src/pages/ChatbotPage.tsx:15-24 | the greeting with id "1", an empty input, not typing |
| ChatbotPage.ChatbotPage.SetInputText | src/pages/ChatbotPage.tsx:311 | the input becomes the text area's value |
| ChatbotPage.ChatbotPage.SendText | src/pages/ChatbotPage.tsx:35-59 | a blank text changes nothing; otherwise exactly one user message with the original text is appended, the input is cleared, `isTyping` is set and the reply is queued |
| ChatbotPage.ChatbotPage.HandleSendMessage | src/pages/ChatbotPage.tsx:35-60 | `SendText` on the current input |
| ChatbotPage.ChatbotPage.HandleKeyPress | src/pages/ChatbotPage.tsx:100-105 | Enter without Shift runs `handleSendMessage`, even while a reply is pending: a blank input changes nothing, otherwise the question is appended and queued, the input cleared and `isTyping` set; any other key changes nothing |
| ChatbotPage.ChatbotPage.HandleSendClick | src/pages/ChatbotPage.tsx:330 | the disabled button does nothing while the input is blank or a reply is pending; otherwise the question is appended and queued, the input cleared and `isTyping` set |
| ChatbotPage.ChatbotPage.DeliverReply | src/pages/ChatbotPage.tsx:50-59 | exactly one bot message answering the oldest pending question is appended, `isTyping` is cleared and the queue drops its head |
| ChatbotApi.TimeoutComesFirst | src/utils/chatbotApi.ts:36-42 | a timeout (`ECONNABORTED` or `AbortError`) gets the timeout text, whatever response or request the error carries |
| ChatbotApi.CatchReply | src/utils/chatbotApi.ts:33-79 | the catch block's cascade; its meaning is stated by TimeoutComesFirst, StatusMessagesDistinct, OtherStatusEmbedded, StatusMessageRoundTrip and ErrorFieldOnlyWhenGeneric |
| ChatbotApi.StatusMessagesDistinct | src/utils/chatbotApi.ts:44-64 | an error response's text depends only on its status, and different statuses get different texts |
| ChatbotApi.OtherStatusEmbedded | src/utils/chatbotApi.ts:62-64 | a status other than 404, 500 and 401 is embedded in the server-error text |
| ChatbotApi.StatusMessageRoundTrip | src/utils/chatbotApi.ts:63 | the embedded status can be read back from that text |
| ChatbotApi.ErrorFieldOnlyWhenGeneric | src/utils/chatbotApi.ts:67-78 | only the generic path sets `error` (the thrown error's message or "Unknown error"); no response with a request gets the network text |
| AdminDashboard.StatusColor | src/pages/AdminDashboard.tsx:94-111 | each of the six known statuses gets its colour, and exactly the other strings get '#666' |
| AdminDashboard.StatusColorsDistinguish | src/pages/AdminDashboard.tsx:94-111 | every booking and room status gets a non-default colour, and the three statuses of each kind get distinct colours |
| AdminDashboard.FilteredBookings | src/pages/AdminDashboard.tsx:113-116 | the filtered list is no longer than the list, and holds only listed bookings that match the term |
| AdminDashboard.MatchesSearch | src/pages/AdminDashboard.tsx:114-115 | the filter's test; FilterMembership, FilterIgnoresCase and SearchIgnoresOtherFields state its meaning |
| AdminDashboard.FilterMembership | src/pages/AdminDashboard.tsx:113-116 | a booking is shown exactly when it is listed and its guest name or room type contains the term, ignoring case |
| AdminDashboard.FilterDistributes | src/pages/AdminDashboard.tsx:113-116 | filtering a concatenation concatenates the filtered parts, so the order of the bookings is kept |
| AdminDashboard.EmptyTermKeepsAll | src/pages/AdminDashboard.tsx:113-116 | an empty search term keeps every booking |
| AdminDashboard.FilterIdempotent | src/pages/AdminDashboard.tsx:113-116 | filtering the result again with the same term changes nothing |
| AdminDashboard.FilterIgnoresCase | src/pages/AdminDashboard.tsx:114-115 | the case of ASCII letters in the term does not matter |
| AdminDashboard.SearchIgnoresOtherFields | src/pages/AdminDashboard.tsx:113-116 | the id, the dates and the status never decide whether a booking is shown; the search box's placeholder (src/pages/AdminDashboard.tsx:293) offers search "by guest name or booking ID", but the filter tests the guest name and the room type, never the id |
| AdminDashboard.CountStatus | src/pages/AdminDashboard.tsx:243-244 | a status count is at most the number of bookings, and positive exactly when some booking has that status |
| AdminDashboard.StatusCountsPartition | src/pages/AdminDashboard.tsx:242-244 | the confirmed, cancelled and pending counts add up to the number of bookings |
| AdminDashboard.CountStatusAppend | src/pages/AdminDashboard.tsx:243-244 | counting a concatenation counts each part |
| AdminDashboard.CountAvailable | src/pages/AdminDashboard.tsx:245 | the available-room count is at most the number of rooms, and positive exactly when some room is available |
| AdminDashboard.CountAvailableAppend | src/pages/AdminDashboard.tsx:245 | counting available rooms of a concatenation counts each part |
| AdminDashboard.DashboardStats | src/pages/AdminDashboard.tsx:241-245 | the four cards are the number of bookings, the confirmed and cancelled counts and the available-room count; Confirmed + Cancelled is at most Total, with equality exactly when none is pending; Available Rooms is at most the number of rooms |
| AdminDashboard.AccessGranted | src/pages/AdminDashboard.tsx:30-31 | the "token and `isHost()`" test is `isHost` on "jwt" alone, and passing it needs a present, non-empty, live token |
| AdminDashboard.LogoutClosesGate | src/pages/AdminDashboard.tsx:89-92 | once "jwt" is removed, the access test fails whatever the clock reads |
| AdminDashboard.AdminDashboardPage.constructor | src/pages/AdminDashboard.tsx:23-26 | the dashboard tab, no bookings, no rooms, an empty search term |
| AdminDashboard.AdminDashboardPage.Mount | src/pages/AdminDashboard.tsx:28-38 | a visitor who is not a host is sent to "/" and no data is loaded; a host gets the sample data |
| AdminDashboard.AdminDashboardPage.SelectTab | src/pages/AdminDashboard.tsx:166 | the active tab becomes the clicked item |
| AdminDashboard.AdminDashboardPage.SetSearchTerm | src/pages/AdminDashboard.tsx:295 | the search term becomes the box's value |
| AdminDashboard.AdminDashboardPage.ShownBookings | src/pages/AdminDashboard.tsx:113-116 | the table rows are exactly the listed bookings that match the current term |
| AdminDashboard.AdminDashboardPage.HandleLogout | src/pages/AdminDashboard.tsx:89-92 | "jwt" is removed and only it, and the page goes to "/" |

## Left out

- Rendering, styles, scrolling, focus moves between the code inputs, routing and React's scheduling of state updates are left out; they hold no logic beyond what is modelled.
- Network calls, `alert` and redirects are left out. A request is the value a handler returns, and its outcome is the reply passed to the matching "settled" method.
- `formatDate` (`toISOString().slice(0, 10)`) is not modelled. It serialises in UTC, so under a positive UTC offset a local-midnight date becomes the previous day. The model therefore sends dates as calendar values and makes no claim about their text form.
- Locale-formatted dates and times (`toLocaleDateString`, `toLocaleTimeString`) are a parameter `format`, or are left out; they come from a locale library.
- BookingCalendar.Nights: counts the whole-day difference of two local midnights. The source divides milliseconds and rounds up with `Math.ceil`, which can differ by one across a daylight-saving change; DST is not modelled.
- `new Date()` and `Date.now()` are read separately by each helper; the model uses one clock reading (`today` or `now`) per call.
- `atob` and `JSON.parse` are the abstract partial decoder `decode`. The model does not say what they yield for a given payload.
- No JWT signature is checked anywhere in the source, so the session model says nothing about security.
- An `exp` claim that is not a number (a string or an object) is not modelled; `exp` is an optional integer.
- Upper- and lower-casing (`toUpperCase`, `toLowerCase`) cover ASCII letters only. Other letters are kept as they are.
- PasswordSetup.ValidatePassword: counts the length in Unicode code points, where JavaScript counts UTF-16 units, so it differs from the source for passwords with characters outside the Basic Multilingual Plane.
- `setTimeout` timing, the `AbortController` and the try block of `callGeminiAPI` are event-loop and network behaviour, so they are left out. On success that try block returns `response.data` as it is.
- The quick-question buttons of the chat page are not modelled as methods. They set the input and later call `handleSendMessage` through a closure that captures the stale `inputText`, which depends on render timing. Only the routing of their labels is modelled.
- The chat page's typing indicator shows `isTyping` for the latest send. Several pending timers are modelled as a queue answered oldest first; the model does not say how the 1000 ms delays interleave with other events.
- `loadSampleData`'s fixture bookings and rooms are parameters of AdminDashboardPage.Mount, not constants.
- The cross-tab `storage` listener and the callback passed to `startTokenExpiryMonitor` are left out; the monitor's outcome says when the callback would run.
- `error.response.data.message` is read as an optional string. The source throws a `TypeError` when an error response has no `data`; that throw is not modelled.
- The `onChange` handlers of the password page's two inputs are plain assignments and are not modelled.
- `handleCheckAvailability`'s missing-end-date branch (`종료일 계산에 실패했습니다`) cannot be reached once a start date exists, and `handleBooking`'s matching branch likewise; BookingCalendar.BookingGuard and BookingCalendar.AvailabilityQuery have no such case.
- Dates are proleptic Gregorian over all integer years. `new Date(y, m, d)` maps years 0–99 to 1900–1999 and covers only about ±275,760 years around 1970; neither is modelled, so every member over dates assumes a year of 100 or later inside that range.
- BookingCalendar.PrevMonthStart: from January of year 100 the source lands on 1 December 99, as modelled, but from any month of years 1–99 it lands in the 1900s; those years are not modelled.
- BookingCalendar.NextMonthStart: from December 99 the source lands on 1 January 2000 (`new Date(99, 12, 1)`), and from any month of years 0–98 in the 1900s; the model stays in years 0–99.
- BookingCalendar.NavigationRoundTrip: is not a property of the source at 1 January 100, where going back and then forward lands on 1 January 2000; the model does not capture the 0–99 year mapping.
- BookingCalendar.BookingSystemPage.HandlePrevMonth: inherits the gap of PrevMonthStart for years 0–99.
- BookingCalendar.BookingSystemPage.HandleNextMonth: inherits the gap of NextMonthStart for years 0–99.
- BookingCalendar.MonthGrid: for a displayed year 0–99 the source builds the grid from the 1900s calendar; the model uses the year as written.
- BookingCalendar.BuildGrid: has the same year 0–99 gap as MonthGrid.
