# Chai Culture landing page: a verified model of its script

The landing page's script (`script.js`) wires a handful of behaviours into the
page: an email-capture form that trims and validates the address and shows a
toast, smooth scrolling for in-page anchors, Enter/Space activation of social
icons, and a hidden "Konami code" that sets off a shower of golden particles.
This project models the logic inside those handlers and proves what the page
promises about it.

- `chars.dfy` (module `Chars`): the whitespace class shared by the `\s` escape
  and `String.prototype.trim`, `trim` itself, ASCII lower-casing of key
  names, and a first-occurrence search used by the email checker.
- `email.dfy` (module `Email`): the language of the regular expression
  `^[^\s@]+@[^\s@]+\.[^\s@]+$` as a predicate over positions, a checker
  `ValidateEmail` that finds the first `@` and then a `.` strictly inside the
  domain, and proofs that the two agree and that the checker accepts exactly
  the strings with no whitespace, exactly one `@`, a non-empty local part and
  an inner dot in the domain.
- `form.dfy` (module `Form`): the decision `handleFormSubmit` makes, as a
  function from the input's raw value to the toast kind, its text and the
  input's new value.
- `konami.dfy` (module `Konami`): the key-down step on the cursor
  `konamiIndex`, its fold over key lists, lemmas about firing and resetting,
  and the class `KonamiDetector` whose `KeyDown` method mutates the cursor.
- `page.dfy` (module `Page`): the page state the script changes (email input
  value, style elements in the head, toasts, scheduled particle spawns,
  particles) as the class `LandingPage`; the `#notificationStyles` and
  `#particleStyles` guard as insert-if-absent; the celebration's spawn
  schedule computed by the same loop as the source.
- `navigation.dfy` (module `Navigation`): the anchor-click and icon-key
  decisions.

`IsSpace` is the set of characters `\s` matches in JavaScript, which is also
the set `trim` removes (WhiteSpace plus LineTerminator); one predicate serves
both. Characters are Unicode scalar values, whereas JavaScript strings are
UTF-16 code units; the validator's verdict is the same either way, since a
surrogate half is neither whitespace nor `@`.

## Model

| member | source | states |
|---|---|---|
| Chars.IsSpace | script.js:24 | exactly the characters `\s` matches (script.js:48) and `trim` removes: JavaScript's WhiteSpace and LineTerminator code points |
| Chars.Trim | script.js:24 | the result starts and ends with a non-space (or is empty) and is the input with only whitespace removed before and after it |
| Chars.TrimStrips | script.js:24 | trimming whitespace + t + whitespace, with t already trimmed, gives exactly t |
| Chars.TrimIdempotent | script.js:24 | trimming a trimmed value changes nothing |
| Chars.TrimAbsorbsPadding | script.js:24 | extra whitespace typed around a value does not change its trimmed form |
| Email.MatchesEmailRegex | script.js:48 | the language of `^[^\s@]+@[^\s@]+\.[^\s@]+$`: an '@' and a later '.' split the string into three non-empty runs of characters that are neither whitespace nor '@' |
| Email.InnerDot | script.js:48 | returns a '.' index strictly inside the domain, and -1 exactly when there is none |
| Email.ValidateEmail | script.js:47-50 | an accepted address contains '@' and no whitespace |
| Email.ValidImpliesMatch | script.js:48 | every string the checker accepts is in the language of the regular expression |
| Email.MatchImpliesValid | script.js:48 | every split of a string into local@domain.tld with non-empty `[^\s@]` runs is accepted |
| Email.ValidateEmailMatchesRegex | script.js:47-49 | the checker accepts exactly the language of `^[^\s@]+@[^\s@]+\.[^\s@]+$` |
| Email.ValidateEmailShape | script.js:47-49 | accepted iff no whitespace, exactly one '@', something before it, and a '.' strictly between the domain's first and last character |
| Email.RejectsWhitespace | script.js:48 | a string with whitespace anywhere is rejected |
| Email.RejectsMissingAt | script.js:48 | a string without '@' is rejected |
| Email.RejectsSecondAt | script.js:48 | a string with two or more '@' is rejected |
| Email.AcceptsThreeParts | script.js:48 | every a@b.c with non-empty `[^\s@]` runs a, b, c is accepted |
| Email.SampleAccepted | script.js:48 | "user@example.com" is accepted |
| Email.SampleRejected | script.js:48 | "not-an-email" is rejected |
| Form.SuccessMessage | script.js:29 | the success text carries the address verbatim right after its fixed prefix |
| Form.SubmitOutcome | script.js:21-40 | the submit decision: trim the value, then the success toast quoting the address with the input cleared, or the error toast with the input kept (its properties are stated by Form.SubmitOutcomeSpec) |
| Form.SubmitOutcomeSpec | script.js:21-40 | success iff the trimmed value is valid; success quotes the trimmed address and clears the input; otherwise the fixed error text and the input left as typed |
| Form.PaddingDoesNotMatter | script.js:24-27 | whitespace around the value never changes the kind or text of the toast |
| Form.PaddedValidAddressAccepted | script.js:24-32 | a valid address with surrounding whitespace is accepted, quoted without the whitespace, and the input is cleared |
| Form.SampleSubmitAccepted | script.js:24-32 | submitting "user@example.com" shows the success text with that address and clears the input |
| Form.SampleSubmitRejected | script.js:36-39 | submitting "not-an-email" shows "Please enter a valid email address." and keeps the input |
| Konami.KeyMatchesLower | script.js:207 | the character-wise key comparison is the comparison of the lower-cased strings |
| Konami.KeyMatches | script.js:207 | the pressed key equals the expected one ignoring letter case: same length and equal lower-cased characters (Konami.KeyMatchesLower ties it to comparing lower-cased strings) |
| Konami.Next | script.js:206-217 | after any key the cursor is again in 0..9 |
| Konami.MatchAdvances | script.js:207-213 | the expected key advances the cursor by exactly one, and the tenth fires and re-arms at 0 |
| Konami.MismatchResets | script.js:214-216 | any other key resets the cursor to 0 and fires nothing |
| Konami.Run | script.js:206-217 | the handler folded over a key sequence: the cursor stays in 0..9 and there is one firing flag per key |
| Konami.RunAppend | script.js:206-217 | pressing a then b is pressing a + b: the cursor carries over and the firings concatenate |
| Konami.PartialCodeAdvances | script.js:203-209 | the code's keys from position i up to j < 10 move the cursor from i to j without firing |
| Konami.CodeCompletes | script.js:203-213 | the rest of the code from any cursor fires once, on its last key, and leaves the cursor at 0 |
| Konami.FullCodeFiresOnce | script.js:203-213 | the ten keys from cursor 0 fire exactly once, on the last key, and return the cursor to 0 |
| Konami.CodeTwiceFiresTwice | script.js:210-213 | the code entered twice in a row fires twice, at the end of each entry |
| Konami.RunIgnoresCase | script.js:207 | key lists that agree after lower-casing drive the detector identically |
| Konami.UpperCaseLettersMatch | script.js:203-207 | upper-case B and A complete the code like b and a |
| Konami.ThreeArrowUpsReset | script.js:207-216 | ArrowUp three times leaves the cursor at 0: the mismatch is not re-tested against the first key |
| Konami.NothingFiresEarly | script.js:206-216 | nothing fires while the cursor plus the number of presses stays below 10 |
| Konami.SingleDeviationNeverFires | script.js:206-216 | one wrong key anywhere in an entry of the code means that entry fires nothing |
| Konami.KonamiDetector.constructor | script.js:204 | the cursor starts at 0 |
| Konami.KonamiDetector.KeyDown | script.js:206-217 | keeps the cursor in 0..9 and moves it, and reports firing, exactly as one step of the handler |
| Page.NotificationOf | script.js:114-120 | a toast leaves the page 4300 ms after it appears |
| Page.WithStyle | script.js:83-109 | the guarded id is present afterwards, nothing already in the head is removed or reordered, and at most one element is added |
| Page.WithStyleCounts | script.js:83-109 | the guarded id ends up once unless it was already there, and no other id is added or removed |
| Page.WithStyleIdempotent | script.js:253-265 | a second run of the guard adds nothing |
| Page.StyleInsertedOnce | script.js:253-265 | however many times the guard runs, a missing style is appended exactly once |
| Page.CelebrationSchedule | script.js:226-230 | the loop schedules 50 spawns, the i-th at i * 100 ms |
| Page.SpawnDelays | script.js:226-230 | the celebration schedule as a value: 50 delays, the i-th being i * 100 ms (Page.CelebrationSchedule computes it with the source's loop) |
| Page.SpawnDelaysShape | script.js:226-230 | spawns start at 0 ms, are 100 ms apart and end at 4900 ms |
| Page.LandingPage.constructor | script.js:10-11 | the page starts with the given input value, an empty head, no toasts, spawns or particles |
| Page.LandingPage.EnsureStyle | script.js:83-109 | the head becomes the guarded insert-if-absent of the id |
| Page.LandingPage.ShowNotification | script.js:57-121 | injects the toast styles at most once and appends exactly one toast |
| Page.LandingPage.HandleFormSubmit | script.js:21-40 | one toast per submission, with the outcome's kind and text, and the input set as the outcome says |
| Page.LandingPage.ActivateEasterEgg | script.js:222-233 | appends one burst of 50 spawns to what is already scheduled and shows the celebration toast |
| Page.LandingPage.CreateGoldenParticle | script.js:239-273 | injects the particle styles at most once and appends one particle removed after 5000 ms |
| Page.LandingPage.OnKeyDown | script.js:206-217 | steps the detector and, exactly when it fires, schedules a burst, shows the celebration toast and guards the toast styles; any other key leaves spawns, toasts and head unchanged |
| Navigation.AnchorClick | script.js:156-171 | the default jump is suppressed iff the href is not "#", and a scroll happens only to an existing element the href names |
| Navigation.MissingTargetIsSilent | script.js:160-169 | "#missing-id" with no such element suppresses the jump and does nothing else |
| Navigation.ScrollTargetExists | script.js:162-169 | a scroll target exists on the page and the href is '#' followed by its id |
| Navigation.IconKeyDown | script.js:191-197 | a click and a suppressed default happen together, exactly for Enter and Space |
| Navigation.SpaceIsTheBlankKey | script.js:193 | Space is recognised by the key value " ", not by the names "Space" or "Spacebar" |

## Left out

- DOM element creation, `className`, `cssText`, the keyframe texts, `appendChild`, `remove` and `scrollIntoView` are browser calls; the model records only what they add (ids in the head, toasts, particles) and the scroll target.
- Timers are not run: the 4000 + 300 ms toast removal, the 5000 ms particle removal and the `i * 100` ms spawns are kept as data, so nothing is ever removed from the model's page and scheduled spawns are not turned into particles by the model itself.
- `Math.random()` particle position and fall duration are floating-point randomness.
- The lantern scroll listener has an empty body and no effect.
- The commented-out `sendEmailToBackend` network call is inert.
- The two `console.log` lines at start-up.
- The page lookups that can fail (`getElementById` returning null, the `.container` lookup) and the per-element listener registration are not modelled; the handlers are modelled as if their elements exist.
- `e.preventDefault()` on the form submit is unconditional and is not represented.
- Chars.ToLower: lowers ASCII letters only; JavaScript's `toLowerCase` lowers all of Unicode, which matters only for pressed keys with non-ASCII letters, never for the code's own key names.
- Navigation.AnchorClick: treats the href after '#' as a plain element id; `querySelector` parses it as a CSS selector, so an href such as "#1a" throws and "#a.b" also requires a class, neither of which is modelled.
