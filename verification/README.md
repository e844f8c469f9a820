# HTP Pro landing page — a Dafny model of its scripts

This project models the behaviour of the landing page's three scripts.

- **Analytics** (`js/main.js`):
  - It classifies clicked links and buttons, with conversion values.
  - It keeps the session id in `localStorage`.
  - It logs flat event records in spread order (`event`, payload, `session_id`, `page_url`).
  - It reports scroll milestones and time-on-page intervals, each once.
  - It records the first interaction and the maximum scroll.
  - It builds the summary.
- **FormHandler** (`js/main.js`):
  - It validates fields, with the required/email/phone/name `else if` chain on the trimmed value.
  - It validates whole forms.
  - It submits forms: disabled button, success or error message, reset, a `form_submit` event, and the button restored.
- **ErrorHandler** (`js/main.js`): it keeps the list of reported errors and forwards each to analytics. A critical error shows a banner at most once per browser session. It also builds the error summary.
- **The offer countdown** (`js/script.js`): it ticks down with borrowing, restarts at 5:00:00, and writes two-digit texts.
- **Animations** (`js/animations.js`):
  - The mouse trail holds the last ten points.
  - The gradient hue counter counts modulo 360.
  - The scroll-effects throttle keeps at most one animation frame requested at a time.

What the model does with the browser:

- **Modelled as objects:**
  - Forms, their controls and the submit button are classes whose fields the handlers update.
  - `localStorage` and `sessionStorage` are `Browser.KeyValueStore` objects (string maps).
  - The closure variables of the handlers (`maxScroll`, the tracked sets, `interactionCount`, `trail`, `hue`, `ticking`) are class fields.
- **Modelled as inputs:** the clock, `Math.random`, the page address and the ISO time text make up one `Browser.Env` value per handler call. The request outcome of `sendFormData` is a boolean parameter.
- **Specification functions:** each method is proved against one, and the properties the page relies on are proved about those functions as lemmas:
  - `Milestones.Crossed` and `Milestones.Between` for the threshold walks.
  - `Validation.Verdict` for field validation.
  - `Countdown.Step` and `Countdown.ToSeconds` for the countdown.
  - `Errors.FlagAfter` and `Errors.BannersOver` for the banner.
- **The two regular expressions** are written out by hand. They appear as `Validation.EmailRegex` and `Validation.PhoneRegex`, each stated as "there is a split of the string into the pattern's parts". Each checker is proved equivalent to its pattern.

## Model

| member | source | states |
|---|---|---|
| Common.LastN | js/main.js:243 | `slice(-n)`: the result has min(n, length) elements and is the input's suffix |
| Common.LastNAppend | js/animations.js:394-398 | keeping the last n after every push gives the last n of the whole history |
| Common.RunningMax | js/main.js:68 | the repeated `Math.max` is at least the start, bounds every value seen, and is attained |
| Common.RunningMaxSnoc | js/main.js:68 | one more observation raises the maximum exactly when it exceeds it |
| Common.CountByKey | js/main.js:239-242 | the `reduce` count: a key is present iff it occurs, and its count is its multiplicity |
| Common.CountsSumToLength | js/main.js:239-242 | the per-type counts add up to the number of items |
| Text.Trim | js/main.js:321 | `trim()`; its contract is `Text.TrimSpec` |
| Text.SkipSpaces | js/main.js:321 | the first non-white-space position at or after k |
| Text.BackSpaces | js/main.js:321 | the position after the last non-white-space character before k |
| Text.TrimSpec | js/main.js:321 | `trim()` leaves a middle part with only white space around it, whose ends are not white space, and is empty iff the text is all white space |
| Text.TrimUnique | js/main.js:321 | any split into white space, a core with non-space ends, and white space has that core as `trim()` |
| Text.TrimPadded | js/main.js:321 | extra white space on both sides does not change `trim()` |
| Text.RemoveSpaces | js/main.js:347 | `replace(/\s/g, '')` leaves no white space, only shortens, is the identity on space-free text, and is empty iff the text was all white space |
| Text.Contains | js/main.js:132-142 | `includes`: the pattern occurs at some position |
| Text.IndexOf | js/main.js:337 | the first position of a character |
| Text.NatToString | js/script.js:37-39 | `String(n)`: a non-empty digit string without leading zero whose value is n |
| Text.IntToString | js/script.js:37-39 | `String(i)`: digits of i, with a minus sign for negatives |
| Text.PadStart | js/script.js:37-39 | `padStart`; its contract is `Text.PadStartSpec` |
| Text.Utf16LengthBounds | js/main.js:355 | `length` counts UTF-16 code units: between one and two per character, one each when none is astral |
| Text.PadStartSpec | js/script.js:37-39 | `padStart`: the result has the target width (or the original length), ends with the text, and is fill before it |
| Text.LeadingZeros | js/script.js:37-39 | leading zeros do not change a digit string's value |
| Buttons.GetButtonType | js/main.js:128-145 | the address rules, then the class rules, then `other`; its contract is `Buttons.GetButtonTypeSpec` |
| Buttons.TypeName | js/main.js:132-144 | the type strings the rules return, one per type |
| Buttons.FirstMatchSpec | js/main.js:132-144 | the ordered `if ... return` list yields nothing iff no pattern occurs, else the first matching rule's type |
| Buttons.GetButtonTypeSpec | js/main.js:128-145 | address rules decide first; otherwise class rules; `other` iff neither matches |
| Buttons.AddressDecides | js/main.js:132-138 | once an address rule matches, the class attribute is irrelevant |
| Buttons.TelegramLink | js/main.js:132-136 | a `t.me` link matching none of the four earlier addresses is `telegram` |
| Buttons.UnmatchedIsOther | js/main.js:144 | no rule matching gives `other` |
| Buttons.IsConversionButton | js/main.js:147-153 | conversion iff the type is not youtube, telegram, whatsapp, instagram or other |
| Buttons.GetConversionValue | js/main.js:170-179 | the value table with the default of 10: 10 exactly for untabled types, 100 only for the app |
| Buttons.Destination | js/main.js:40 | the address, else `data-action`, else `unknown`: never empty, and the address when there is one |
| Milestones.Crossed | js/main.js:71-79 | one `forEach` walk reports exactly the reached, untracked thresholds, without repeats, in list order |
| Milestones.Reach | js/main.js:72-73 | the tracked set after a walk adds every reached threshold |
| Milestones.CrossedSnoc | js/main.js:71-79 | the walk over a longer list extends the report by the new threshold exactly when it is reached and new |
| Milestones.ReportedAtMostOnce | js/main.js:61-79 | over any run of observations no threshold is reported twice, nor one already tracked |
| Milestones.FiredOver | js/main.js:63-80 | what a run of scroll or timer callbacks reports; its contract is `Milestones.ReportedAtMostOnce` |
| Milestones.Between | js/main.js:68-79 | the thresholds in (lo, hi] in list order; `Milestones.CrossedFromBelow` proves a walk reports them |
| Milestones.ReachBelow | js/main.js:68-73 | tracking from the thresholds below a bound leaves those below the larger of bound and value |
| Milestones.CrossedFromBelow | js/main.js:68-79 | a walk from the thresholds at or below lo reports exactly those in (lo, v] |
| Milestones.MonotoneRun | js/main.js:63-80 | with values that never go down, a run reports each threshold in (lo, last] once, ascending |
| Milestones.RunFromStart | js/main.js:59-61 | from a fresh page, a non-decreasing run reports each reached threshold once, ascending |
| Milestones.ThresholdListsAscending | js/main.js:60 | both threshold lists are strictly ascending and positive |
| Analytics.FreshSessionId | js/main.js:228 | a new id starts with `htp_` |
| Analytics.SessionIdFor | js/main.js:225-232 | the stored id when one is usable, otherwise a fresh `htp_` id |
| Analytics.StoreAfter | js/main.js:226-230 | the store afterwards holds that id, keeps other keys, and is untouched when an id existed |
| Analytics.SessionIdStable | js/main.js:225-232 | once stored, every later call returns the same id and writes nothing |
| Analytics.Fields | js/main.js:182-187 | the spread record: `event` first, then the payload over it, then `session_id` and `page_url` on top |
| Analytics.ThresholdEventsShape | js/main.js:74-77 | one event per reported threshold, naming the threshold |
| Analytics.ConversionCall | js/main.js:164-167 | the external call carries the type name and its conversion value |
| Analytics.ClickEvents | js/main.js:42-53 | a click logs `button_click`, followed by `conversion` exactly for conversion buttons |
| Analytics.ClickAndConversionAgree | js/main.js:42-53 | the two events of a conversion click agree on type and destination, and carry the elapsed time |
| Analytics.ObservationStep | js/main.js:68-79 | with the tracked set kept as the thresholds under the running maximum, a walk reports the window above it |
| Analytics.EventType | js/main.js:240 | the summary's grouping key: the record's `event` field after the spread |
| Analytics.ClickData | js/main.js:43-48 | the `button_click` payload: type, trimmed text, destination, time |
| Analytics.ThresholdEvents | js/main.js:74-77 | the events of one walk; its contract is `Analytics.ThresholdEventsShape` |
| Analytics.TypesOccur | js/main.js:239-242 | a type occurs among the event types iff some event has it |
| Analytics.Analytics.constructor | js/main.js:11-33 | empty state, then one `page_view` event, the session id stored |
| Analytics.Analytics.GetSessionId | js/main.js:225-232 | returns and stores the id `SessionIdFor`/`StoreAfter` give |
| Analytics.Analytics.LogEvent | js/main.js:181-194 | exactly one event appended, with the session id the store yields and the page address |
| Analytics.Analytics.FireThresholds | js/main.js:71-79 | the loop logs `Crossed`'s thresholds in order and tracks `Reach`'s set |
| Analytics.Analytics.VisitThreshold | js/main.js:72-78 | one threshold: tracked and logged exactly when reached and new |
| Analytics.Analytics.OnScroll | js/main.js:63-80 | keeps the invariant; raises the maximum; logs each milestone in (old maximum, percent] once, in order |
| Analytics.Analytics.OnTimeTick | js/main.js:95-107 | whole seconds since start; logs each interval newly passed, once, in order |
| Analytics.Analytics.OnBeforeUnload | js/main.js:83-88 | one `max_scroll` event with the maximum; `localStorage` as `getSessionId` leaves it |
| Analytics.Analytics.OnClick | js/main.js:37-55 | nothing outside links and buttons; otherwise `ClickEvents` and the external call for conversions |
| Analytics.Analytics.OnButtonClick | js/main.js:40-53 | a click on a link or button logs `ClickEvents` and hands conversions to the pixels |
| Analytics.Analytics.TrackConversion | js/main.js:155-168 | one `conversion` event and the external call with the type's value |
| Analytics.Analytics.OnInteraction | js/main.js:114-124 | counts every call; logs `first_interaction` only on the first, and only then can `localStorage` change (as `getSessionId` leaves it) |
| Analytics.Analytics.GetSummary | js/main.js:235-245 | total, duration, per-type counts that sum to the total, and the last five events |
| Validation.EmailValid | js/main.js:337-338 | the hand-written check agrees with `/^[^\s@]+@[^\s@]+\.[^\s@]+$/` on every string |
| Validation.PhoneValid | js/main.js:346-347 | the hand-written check agrees with `/^[\+]?[1-9][\d]{0,15}$/` on every string |
| Validation.RequiredBlankFails | js/main.js:330-333 | a required control that is blank after trimming gets the required message |
| Validation.OptionalBlankPasses | js/main.js:329-359 | a blank optional control passes every rule |
| Validation.EmailRule | js/main.js:336-342 | a non-blank email control passes iff its trimmed value matches the email pattern, else the email message |
| Validation.PhoneRule | js/main.js:345-351 | a non-blank `phone` control passes iff the trimmed value without white space matches the phone pattern |
| Validation.NameRule | js/main.js:354-359 | a non-blank `name` control passes iff its trimmed value is at least two UTF-16 code units long (two characters when none is astral) |
| Validation.AstralNamePasses | js/main.js:355 | a one-character name outside the Basic Multilingual Plane has `length` 2 and passes |
| Validation.UnruledFieldPasses | js/main.js:329-365 | a non-blank control no rule names passes |
| Validation.PaddingIgnored | js/main.js:321 | surrounding white space never changes the verdict |
| Forms.Outcome | js/main.js:450-456 | success shows a success message, failure the error message |
| Forms.SubmitEvents | js/main.js:414-417 | one `form_submit` event with the form type on success, none on failure |
| Forms.Form.Reset | js/main.js:411 | every control back to its default, errors untouched |
| Forms.ValidateField | js/main.js:319-366 | the control is valid iff `Verdict` is none, and shows exactly the verdict's message |
| Validation.Verdict | js/main.js:319-366 | the message the `else if` chain reaches on the trimmed value; its properties are the rule lemmas above |
| Forms.ValidateForm | js/main.js:306-317 | every required control validated (no early exit); the form passes iff all required controls pass; values unchanged |
| Forms.BeginSubmit | js/main.js:398-403 | button disabled and showing `Enviando...`; its old text handed back |
| Forms.FinishSubmit | js/main.js:422-426 | button enabled with its old text |
| Forms.ShowOutcome | js/main.js:409-420 | the outcome message; the form reset only on success |
| Forms.TrackSubmit | js/main.js:414-417 | `form_submit` logged only when an analytics object exists |
| Forms.SubmitForm | js/main.js:397-427 | button restored either way; message, reset and event on success; error message and nothing else on failure |
| Forms.HandleSubmit | js/main.js:286-304 | submitted iff every required control passed; required controls show their verdicts, optional ones keep their errors; values reset only after a successful request; when not submitted no message, button or analytics change, when submitted the `SubmitForm` outcome, events and store |
| Errors.ErrorRecord | js/main.js:685 | the forwarded record holds the error's fields and its `type` |
| Errors.IsCriticalError | js/main.js:696-699 | critical iff the type is `javascript_error` or `unhandled_promise_rejection` |
| Errors.MinorErrors | js/main.js:696-699 | image and console errors are never critical |
| Errors.FlagAfter | js/main.js:701-735 | the flag is set after a banner, the store untouched when already flagged, other keys kept |
| Errors.BannerAtMostOnce | js/main.js:690-692 | over any run of errors the banner shows at most once, never when flagged, otherwise iff some error is critical |
| Errors.BannersOver | js/main.js:690-692 | the banners a run of errors shows; its contract is `Errors.BannerAtMostOnce` |
| Errors.KindsOccur | js/main.js:760-762 | a type occurs among the error types iff some error has it |
| Errors.ErrorHandler.constructor | js/main.js:594-597 | an empty error list, no banner shown |
| Errors.ErrorHandler.ShowUserErrorMessage | js/main.js:701-741 | shown iff the flag is not truthy; then the flag is written as `true` |
| Errors.ErrorHandler.LogError | js/main.js:681-694 | error appended; `error` event and `localStorage` as `logEvent` leaves them when analytics exists; banner iff critical and not yet flagged; the at-most-once invariant kept |
| Errors.ErrorHandler.GetErrorSummary | js/main.js:757-766 | total, per-type counts that sum to the total, and the last five errors |
| Countdown.Step | js/script.js:18-34 | one run of the callback's borrow chain; its contract is `Countdown.StepSpec` |
| Countdown.Pad2 | js/script.js:37-39 | `String(n).padStart(2, '0')`; its contract is `Countdown.Pad2RoundTrip` |
| Countdown.FromSeconds | js/script.js:18-34 | an in-range clock for any number of seconds |
| Countdown.FromToSeconds | js/script.js:18-34 | converting an in-range clock to seconds and back gives the clock |
| Countdown.ToFromSeconds | js/script.js:18-34 | converting seconds to a clock and back gives the seconds |
| Countdown.StepSpec | js/script.js:18-34 | a tick takes exactly one second off, restarts 0:00:00 at 5:00:00, and keeps counters non-negative and in range |
| Countdown.RunsOutThenRestarts | js/script.js:17-40 | a clock reaches 0:00:00 after as many ticks as it has seconds, and restarts on the next |
| Countdown.Pad2RoundTrip | js/script.js:37-39 | a written counter reads back as the same number and is two digits below 100 |
| Countdown.Countdown.constructor | js/script.js:12-14 | the counters read from the page, shown padded |
| Countdown.Countdown.Tick | js/script.js:17-40 | the counters take one `Step` and the texts show them |
| Countdown.Countdown.Show | js/script.js:37-39 | the three texts are the padded counters |
| Animations.MouseTrail.constructor | js/animations.js:390 | an empty trail |
| Animations.MouseTrail.OnMouseMove | js/animations.js:393-401 | the trail stays the last ten points received, ending with the new one |
| Animations.GradientHue.constructor | js/animations.js:440 | hue 0 |
| Animations.GradientHue.Tick | js/animations.js:442-446 | hue is the tick count modulo 360: up by one, 359 wraps to 0 |
| Animations.ScrollEffects.constructor | js/animations.js:131-135 | position remembered, no frame requested |
| Animations.ScrollEffects.OnScroll | js/animations.js:142-147 | a frame is requested iff none was; the request count stays `Requests` of the history, every request but the outstanding one has run |
| Animations.ScrollEffects.OnAnimationFrame | js/animations.js:149-164 | the position is remembered, the frame is counted in the history and the next scroll may request again |
| Animations.ScrollCoalesced | js/animations.js:142-163 | any run of scrolls and frames requests at most one frame more than it runs, none more when one was outstanding |
| Animations.BurstRequestsOnce | js/animations.js:142-147 | a burst of scroll events requests one frame |
| Browser.KeyValueStore.SetItem | js/main.js:229 | the key holds the value, other keys unchanged |

## Left out

- The DOM is not modelled: element creation, styles, class lists, the trail's and the banner's elements, the parallax, blur and mentor effects, lazy images. Only the state the handlers keep and the texts they write are modelled.
- Timers, `throttle`/`debounce` and event listener registration are left out. Each handler is a method that the caller invokes.
- Floating point is not modelled:
  - The scroll percentage (`Math.round` of a division) is an integer input to `Analytics.Analytics.OnScroll`.
  - The hue filter and the trail's opacity and size are not computed.
- `sendFormData` is an input: its random success or failure is the `sendOk` parameter, and its delay is not modelled.
- These calls go to code that is not part of this model or is empty: `sendToServer`, `sendToExternalAnalytics` (the call it would make is returned as an `ExternalCall` value), `sendToErrorService`, and `console.log`.
- The `console.error` override is not modelled. Because of it, the source's `console.error` in the submit `catch` block would also report a `console_error` through `logError`.
- `handleImageError` and the error-record builders of the global listeners are DOM work. An error is taken as its type plus its other fields.
- `LazyLoader`, `BrowserSupport`, `PerformanceMonitor` and the application bootstrap are not part of this model.
- Analytics.Record: key order of the flat records is not modelled (they are maps).
- Countdown.Countdown.constructor: the counters are the integers `parseInt` produced. Text that does not parse (`NaN`, which then never changes) is not modelled. The elements are taken to show the padded counters before the first tick, as the markup's `05`, `00`, `00` do.
- Errors.ErrorHandler.LogError: requires that the analytics object's `localStorage` is not the handler's `sessionStorage`. They are two distinct browser objects.
- Animations.ScrollEffects.OnAnimationFrame: requires a requested frame (`ticking`), because the browser runs `updateScrollEffects` only as the frame `onScroll` requested.
- Forms.Input: each control keeps its own error. The source looks up `.error-message` in the control's parent node, so controls that share a parent share one message element, and after `validateForm` it shows the message of the last failing control among them.
- Forms.Form: the submit button always exists. In the source `querySelector('button[type="submit"]')` can return `null`; `submitForm` then throws, and the rejected promise reaches the `unhandledrejection` listener as a critical error.
- Common.CountByKey: the count is a map. The source's `reduce` starts from `{}`, so keys that name `Object.prototype` members count differently (`constructor` yields a string, `__proto__` is dropped); event and error types never take those names on this page.
- Text.Utf16Length: strings are sequences of Unicode code points, so a JavaScript string holding a lone surrogate has no counterpart.
