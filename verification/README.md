# Portfolio page script: tilt, typewriter and form validation

`script.js` drives a single-page portfolio. Most of it wires DOM events to
style changes. Three parts carry logic with a behaviour worth stating, and
this Dafny project models them as one functional core:

- **The embedded vanilla-tilt library.** It covers:
  - settings resolution: an explicit override, else a `data-tilt-*`
    attribute, else the built-in default;
  - the boolean readings through `isSettingTrue`;
  - pointer normalisation and the tilt formulas of `getValues`;
  - the axis choice and glare opacity of `update`;
  - `reset`, which moves a synthetic pointer to the start angles with the
    scale forced to 1;
  - the mouse, resize and device-orientation handlers, with the gyroscope
    calibration;
  - the animation-frame coalescing (one pending update at most);
  - the constructor;
  - `VanillaTilt.init` and its skip-if-attached rule.
- **The hero banner's typewriter.** `type` and `erase` form a state machine:
  word index, character index, shown text, and the step the pending timeout
  will run.
- **The contact form's `Validation` class.** It covers:
  - JavaScript `trim`;
  - the five regular expressions, read over characters (see "Left out" for
    text outside the Basic Multilingual Plane);
  - the decision `input()` takes, including the shared password slot `tp`
    that the confirmation field compares against.

Modules:

- `Optional` is a small option type.
- `Numbers` models JavaScript numbers as exact reals extended with both
  infinities and NaN. Division by a zero element size or by `2 * max` is
  therefore modelled, not excluded.
- `TiltSettings`, `TiltGeometry` and `TiltInstance` cover the tilt library.
  An attached instance is an immutable record. Every handler is a function
  from instance to instance.
- `Typewriter` and `FormValidation` cover the other two parts.

Calls whose results the model cannot compute become parameters:

- `JSON.parse` is `parse`, a partial function where `None` means it threw.
- The element's attribute lookup is `attribute`.
- Settings values are `JsValue`s: undefined, null, booleans, numbers, strings,
  DOM nodes, and any other object (such as an array `JSON.parse` returns).
- `document.querySelector` is `query`.
- `parseInt` is `parseInt`.
- The constructor used by `init` is `make`.
- Layout reads (`getBoundingClientRect`, `offsetWidth`, the client size)
  arrive as `Rect` and `Viewport` arguments.
- Timers are modelled as the step that runs next and its delay.

## Model

| member | source | states |
|---|---|---|
| `Numbers.Div` | script.js:245-251 | Finite over non-zero finite divides exactly; a NaN operand gives NaN; a positive, negative or zero numerator over a zero size gives +Infinity, -Infinity or NaN; a finite value over an infinity is 0 |
| `Numbers.Max` | script.js:253-254 | `Math.max`: NaN if either argument is NaN, otherwise one of the two arguments and at least both |
| `Numbers.Min` | script.js:253-254 | `Math.min`: NaN if either argument is NaN, otherwise one of the two arguments and at most both |
| `Numbers.Clamp01` | script.js:253-254 | `min(max(x, 0), 1)` is NaN exactly for NaN; otherwise a finite value in [0, 1]; values inside are kept; values below 0 (or -Infinity) give 0 and values above 1 (or +Infinity) give 1 |
| `TiltSettings.ExtendSettings` | script.js:433-450 | The result has exactly the recognised options as keys, so unknown override keys are dropped; each option is the override if given, else the parsed attribute (the raw text when parsing throws), else the default |
| `TiltSettings.ResolveOption` | script.js:434-447 | One option takes the override when the settings object has it; else, when the attribute is present, what `JSON.parse` makes of its text, or the raw text when parsing throws; else the default |
| `TiltSettings.ExtendSettingsIdempotent` | script.js:433-450 | Resolving resolved settings again, against any attributes, gives them back unchanged |
| `TiltSettings.DefaultsWhenUnset` | script.js:407-450 | With no overrides and no `data-tilt-*` attributes every option is its built-in default |
| `TiltSettings.FlagFromAttribute` | script.js:60-62 | A flag set only by its attribute is on exactly when the text is empty or parses to `true`, `1` or `""` |
| `TiltSettings.SettingTrueVersusTruthy` | script.js:60-62 | `isSettingTrue` holds exactly for `""` and for the truthy values `true` and `1`; so the empty string is a set flag though falsy, and every other truthy value (`"yes"`, `2`, a node, an array) is not a set flag |
| `TiltSettings.EmptyAttributeReadings` | script.js:33-35 | An empty `data-tilt-glare` turns glare on (`isSettingTrue`), but an empty `data-tilt-reverse` does not reverse (truthiness) |
| `TiltSettings.ToConfig` | script.js:33-39 | `reverse` and `reset` are read by truthiness; the glare, glare-prerender, reset-to-start, full-page and gyroscope flags through `isSettingTrue`; `axis` through strict comparison with `"x"` and `"y"`; `max`, the start angles, `max-glare`, the four gyroscope angles and `gyroscopeSamples` as their numbers; `perspective`, `scale` and `mouse-event-element` as given. There is no configuration exactly when one of those arithmetic options does not hold a number |
| `TiltSettings.DefaultConfig` | script.js:407-431 | The defaults read as max 15, start angles 0, no reverse, no glare, reset and reset-to-start on, gyroscope on, element listening |
| `TiltSettings.AxisOf` | script.js:281-284 | The axis is `x` exactly for the string `"x"` and `y` exactly for `"y"`; anything else locks neither |
| `TiltSettings.ListenerSurface` | script.js:68-86 | The document in full-page mode; else the node the selector finds; else a node given directly; else the element itself |
| `TiltGeometry.Normalize` | script.js:245-254 | Each normalised coordinate is NaN or within [0, 1], for any pointer including one outside the element |
| `TiltGeometry.GetValues` | script.js:242-266 | For `max >= 0`, both tilts are NaN or within [-max, max], and both percentages are NaN or within [0, 100] |
| `TiltGeometry.TiltBounded` | script.js:256-257 | For a clamped coordinate both tilt formulas stay within [-max, max] and are NaN only for a NaN coordinate |
| `TiltGeometry.GlareOpacity` | script.js:286-289 | For a percentage in [0, 100] and a non-negative `max-glare` the opacity is within [0, max-glare] |
| `TiltGeometry.TransformFor` | script.js:281-284 | The transform carries the `perspective` and `scale` settings; axis `x` makes rotateX 0 and otherwise rotateX is tiltY; axis `y` makes rotateY 0 and otherwise rotateY is tiltX |
| `TiltGeometry.NormalizeFinite` | script.js:249-254 | On a box of positive size a finite pointer gives finite coordinates; inside the box they are the exact relative position |
| `TiltGeometry.OutsideSaturates` | script.js:249-254 | A pointer left of the element gives coordinate 0, one right of it gives 1 |
| `TiltGeometry.ZeroWidth` | script.js:249-254 | On a zero-width element any offset saturates the coordinate, and a pointer on the left edge gives NaN |
| `TiltGeometry.CentreIsLevel` | script.js:256-264 | At the centre of the element (or page) the tilt is (0, 0) and both percentages are 50 |
| `TiltGeometry.TopLeftCorner` | script.js:256-257 | In element mode (not full-page), a pointer at the element's top-left corner gives the tilt (reverse * max, -reverse * max) |
| `TiltGeometry.ReverseNegates` | script.js:256-264 | Flipping `reverse` negates both tilts for the same pointer and leaves the percentages alone |
| `TiltInstance.CancelUpdate` | script.js:197-199 | Cancelling removes the queued update and keeps every queued reset |
| `TiltInstance.Update` | script.js:278-296 | The stored sample's values are applied; axis `x` zeroes rotateX and axis `y` zeroes rotateY, otherwise they carry tiltY and tiltX; rotations stay within [-max, max]; the perspective and scale are the settings; with glare enabled the glare is lit with the opacity `percentageY * max-glare / 100` of the applied values, so within [0, max-glare]; the pending marker is cleared; nothing else changes |
| `TiltInstance.Reset` | script.js:213-233 | The element is remeasured and the sample moved to the rest pointer; the transform is the one for the rest tilt with scale 1, and the settings, including `scale`, are the same afterwards; an enabled glare is at rest and a disabled one untouched; no update is pending; the queue, calibration, viewport and subscriptions are untouched |
| `TiltInstance.RestPointerSpan` | script.js:216-226 | In element mode the rest pointer spans the element: a start angle of `-max` puts it on the left (top) edge and one of `max` on the right (bottom) edge |
| `TiltInstance.ResetGlare` | script.js:235-240 | An enabled glare is put at rest; nothing else changes, and without glare nothing changes at all |
| `TiltInstance.RestValues` | script.js:216-230 | The rest pointer yields the start angles clamped to [-max, max], with the reverse sign: tilt (-reverse * startX, reverse * startY) |
| `TiltInstance.ResetRestsAtStart` | script.js:213-233 | For `max > 0` and a box of positive size, `reset` leaves tilt (-reverse * startX, reverse * startY), clamped to [-max, max] |
| `TiltInstance.ResetWithZeroStartIsLevel` | script.js:213-233 | With the default start angles 0, `reset` lays the element flat |
| `TiltInstance.OnMouseEnter` | script.js:190-194 | Entering remeasures the element and changes nothing else |
| `TiltInstance.OnMouseMove` | script.js:196-203 | The new sample is stored and an update is pending; a pending update is cancelled and one update is appended, so at most one stays queued, queued resets are kept, and nothing else changes |
| `TiltInstance.OnMouseLeave` | script.js:205-211 | A reset is appended to the frame queue exactly when the `reset` setting is truthy; nothing else changes; the single-update rule is kept |
| `TiltInstance.OnWindowResize` | script.js:364-367 | Only an instance subscribed to resizes (glare or full-page mode) takes the new client size; nothing else changes |
| `TiltInstance.Calibrate` | script.js:151-164 | While samples remain, the counter drops by one; the first sample becomes the baseline and each later one is averaged with the previous baseline, `(sample + previous) / 2`; with none left nothing changes |
| `TiltInstance.CalibrateFirstTwo` | script.js:155-161 | With at least two samples to go, one sample `a` gives the baseline `a`, and samples `a` then `b` give the average of `b` and `a` |
| `TiltInstance.GyroRangeSpansElement` | script.js:166-185 | In element mode the configured angle range spans the element: the baseline plus the minimum angle maps to the left (top) edge, the baseline plus the maximum angle to the right (bottom) edge |
| `TiltInstance.OnDeviceOrientation` | script.js:144-188 | Without a listener, or with a null `gamma` or `beta`, nothing changes; otherwise the calibration step runs, the element is remeasured, the stored sample is the angle-mapped pointer, and one update replaces any pending one; settings, viewport and everything else are unchanged |
| `TiltInstance.RunCallbacks` | script.js:213-296 | Running a frame's callbacks leaves no update pending if any ran, keeps the settings, and if any ran the last tilt values are those of the final geometry and sample |
| `TiltInstance.AnimationFrame` | script.js:196-203 | After a frame the queue is empty, the settings are kept, an update is still pending exactly when one was pending with nothing queued, and if anything was queued the last tilt values match the final geometry and sample |
| `TiltInstance.EventsKeepOnePending` | script.js:196-203 | Over any sequence of moves, leaves, resizes, orientation samples and frames, at most one update is queued, and one exactly when the pending marker is set |
| `TiltInstance.LatestSampleWins` | script.js:196-203 | Two moves before a frame leave exactly what the second alone leaves |
| `TiltInstance.FrameShowsLatestMove` | script.js:196-296 | A move followed by a frame, with no reset queued, shows the tilt of that move's sample |
| `TiltInstance.CalibrationFreezes` | script.js:150-164 | Once the sample counter reaches 0 the baseline and counter never change again |
| `TiltInstance.CalibrationCounts` | script.js:150-164 | From n samples to go, the counter counts down one per orientation sample and stops at 0, with a baseline after the first sample |
| `TiltInstance.BaselineWithinSamples` | script.js:154-160 | The baseline is an average of samples, so samples within a range keep it within that range |
| `TiltInstance.NeutralOrientationIsLevel` | script.js:166-186 | With a symmetric angle range, a sample equal to the baseline places the pointer at the element's centre and the next update lays it flat |
| `TiltInstance.Construct` | script.js:33-58 | The constructor picks the listener surface, subscribes to resizes exactly with glare or full-page mode and to orientation exactly with the gyroscope, starts with an empty frame queue and the configured number of calibration samples, resets to the configured start angles, and only afterwards zeroes the start angles when `reset-to-start` is off |
| `TiltInstance.Attach` | script.js:6-58 | When every arithmetic option resolves to a number, the instance is built from the resolved settings; settings where one does not are outside the model (`None`) |
| `TiltInstance.AttachPlainElement` | script.js:6-58 | An element with no `data-tilt-*` attributes, attached without settings, listens to orientation but not to resizes and starts flat |
| `TiltInstance.AttachEach` | script.js:466-472 | Nodes not yet attached get a new instance and attached ones keep theirs; the walk throws exactly when an entry is neither a node nor an object already tagged with an instance, and otherwise attaches every listed node |
| `TiltInstance.Init` | script.js:453-471 | A single node is wrapped and attached unless it already has an instance; anything that is not a node, node list or array leaves every instance as it was; existing instances are never replaced and new ones are made by the constructor |
| `TiltInstance.InitNodeList` | script.js:453-473 | `init` on a node list attaches exactly the listed nodes that were not attached and keeps every existing instance |
| `TiltInstance.FirstSettingsKept` | script.js:488-494 | The page's second `init` call, without settings, does not replace the instance the first call made with its settings |
| `TiltInstance.InitIdempotent` | script.js:466-472 | Running `init` twice on the same node list is the same as running it once |
| `Typewriter.Prefix` | script.js:542 | `substring(0, n)` is the first n characters, or the whole word when n exceeds its length |
| `Typewriter.Start` | script.js:554-556 | Nothing is scheduled for an empty list; otherwise the first word starts after 2250 ms on an empty span, a state where the prefix invariant holds |
| `Typewriter.Type` | script.js:526-537 | Before the word is complete, one character is appended and typing continues after 200 ms; afterwards the text stays and erasing follows after 2000 ms; the cursor is marked typing exactly while typing continues |
| `Typewriter.Erase` | script.js:539-552 | While characters remain, one fewer is shown and erasing continues after 100 ms; at 0 the word index advances modulo the list length and typing follows after 1300 ms |
| `Typewriter.Step` | script.js:526-552 | Running the pending step keeps the word index within the list |
| `Typewriter.StepKeepsInv` | script.js:526-552 | Every step keeps the shown text equal to the typed prefix of the current word, with the character index within the word and the word index within the list |
| `Typewriter.RunKeepsInv` | script.js:526-552 | The prefix invariant holds after any number of timeouts |
| `Typewriter.BannerShowsPrefixes` | script.js:519-556 | From page load on, after any number of timeouts the span shows a prefix of the current word |
| `Typewriter.RunAdd` | script.js:526-552 | Running a then b timeouts is running a + b, and so is the time they take |
| `Typewriter.TypeRun` | script.js:526-531 | While typing, k timeouts type the next k characters, 200 ms apart |
| `Typewriter.EraseRun` | script.js:540-544 | While erasing, k timeouts remove the last k characters, 100 ms apart |
| `Typewriter.TypeAndHold` | script.js:526-537 | From an empty span, word length + 1 timeouts show the whole word and schedule its erasure |
| `Typewriter.EraseAndAdvance` | script.js:539-552 | From the whole word, word length + 1 timeouts empty the span and move to the next word, cyclically |
| `Typewriter.WordCycle` | script.js:519-552 | A full word takes 2 * length + 2 timeouts and 300 * length + 3300 ms, ending on an empty span at the next word (cyclically) |
| `Typewriter.Cycles` | script.js:526-552 | Typing and erasing `m` whole words from the start of a word ends at the start of the word `m` places on (wrapping), with an empty span |
| `Typewriter.BannerReachesLast` | script.js:519-552 | From the start, the banner's list reaches its last word, `THINGS`, with an empty span after 96 timeouts |
| `Typewriter.BannerWraps` | script.js:519-556 | The banner's list starts after 2250 ms and, 110 timeouts in, has erased `THINGS` and is back at its first word |
| `FormValidation.TrimStart` | script.js:826 | The leading characters removed are whitespace, and what remains does not start with whitespace |
| `FormValidation.TrimEnd` | script.js:826 | The trailing characters removed are whitespace, and what remains does not end with whitespace |
| `FormValidation.Trim` | script.js:826 | The trimmed value neither starts nor ends with whitespace |
| `FormValidation.TrimSlice` | script.js:826 | The trimmed value is the slice of the input between a whitespace prefix and a whitespace suffix |
| `FormValidation.TrimBlank` | script.js:826 | A value trims to nothing exactly when it is all whitespace |
| `FormValidation.TrimIdempotent` | script.js:825-826 | Trimming twice is trimming once |
| `FormValidation.TrimUnchanged` | script.js:825-826 | A value without whitespace at either end is its own trim |
| `FormValidation.IndexOf` | script.js:812 | The first `@` of a value, or its length when there is none |
| `FormValidation.LastIndexOf` | script.js:812 | The last dot of a value, or -1 when there is none |
| `FormValidation.NameRegexCases` | script.js:812 | `re[0]` accepts `Ada` and rejects the empty text, `Ada Lovelace` and `O'Hara` |
| `FormValidation.PhoneRegexCases` | script.js:812 | `re[1]` accepts ten digits and rejects nine, eleven, or ten characters with a `-` |
| `FormValidation.UsernameRegexCases` | script.js:812 | `re[3]` accepts five and twenty word characters and rejects four, twenty-one, or a `-` |
| `FormValidation.PasswordRegexCases` | script.js:812 | `re[4]` accepts `Abcdefg1` and rejects seven characters, or a value missing an upper-case letter, a lower-case letter or a digit |
| `FormValidation.EmailMatchesRegex` | script.js:812 | Splitting at the first `@` and after the last dot decides the email expression exactly |
| `FormValidation.EmailAcceptsSpace` | script.js:812 | The email local part accepts a space (`a b@c.de`) |
| `FormValidation.EmailRejectsHyphen` | script.js:812 | The email local part rejects a hyphen (`a-b@c.de`), since its class holds a space-to-space range, not `-` |
| `FormValidation.EmailRejectsLongTail` | script.js:812 | A last label longer than four characters is rejected (`ab@c.museum`) |
| `FormValidation.CheckPassword` | script.js:812 | One scan decides the password expression: three lookaheads (digit, lower case, upper case) and at least eight characters without a line terminator |
| `FormValidation.Code` | script.js:815-816 | A missing or empty `data-*` attribute gives no code; otherwise the code is its `parseInt` reading |
| `FormValidation.Attach` | script.js:811-823 | Submit buttons are not validated; every other control is validated with the codes of its `data-a` and `data-b` |
| `FormValidation.Input` | script.js:824-846 | A password field records its trimmed value; a value that trims to nothing is blank and shows `Required` on a required field; otherwise the confirmation field is accepted exactly when its untrimmed value equals the recorded password, and any other field exactly when `re[da]` accepts the untrimmed value; the handler throws for a `data-a` outside 0..4; rejection raises the error and shows `data-msg` but leaves the message text as it was |
| `FormValidation.OnlyConfirmReadsPassword` | script.js:825-831 | Fields other than the confirmation give the same verdict and display whatever password was recorded |
| `FormValidation.StrictValuesAreTrimmed` | script.js:826-831 | A name, phone number or username the expression accepts has no whitespace at either end, so the untrimmed test and the trimmed blank check agree |
| `FormValidation.ConfirmAsWritten` | script.js:825-831 | As written, the confirmation accepts a non-blank value exactly when it equals the trimmed password |
| `FormValidation.PaddedPasswordPasses` | script.js:812 | ` Abcdefg1` satisfies the password expression |
| `FormValidation.PaddedPasswordRejected` | script.js:825-831 | ` Abcdefg1` passes the password field, yet the same text in the confirmation field is rejected |
| `FormValidation.InputCorrected` | script.js:831 | With the confirmation value trimmed before comparing, a non-blank confirmation is accepted exactly when it equals the recorded password once trimmed; other fields are unchanged |
| `FormValidation.ConfirmCorrected` | script.js:825-831 | Corrected, the confirmation accepts a non-blank value exactly when it trims to the trimmed password, so the same text in both fields is always accepted |

## Left out

- DOM side effects are not modelled. This covers style writes, `will-change`, transition strings and their timeout (`setTransition`), glare element creation and sizing (`prepareGlare`, `updateGlareSize`), the `tiltChange` event, `removeEventListeners` and `destroy`. None of them has a computable result.
- `TiltGeometry.GetValues`: the tilts are the unrounded values. `toFixed(2)` rounding and the string it returns are not modelled, and the bounds are stated for the exact values.
- `TiltGeometry.GetValues`: the `atan2` glare angle is not computed. Trigonometry over reals is out of reach, and only the glare opacity is modelled.
- `Numbers.Div`: signed zero and rounding are not modelled. A zero divisor is taken as +0, which is the only zero a measured size or a doubled non-negative `max` produces.
- `TiltSettings.ToConfig`: an arithmetic option that does not hold a number after resolution gives no configuration. JavaScript's string-to-number coercion in `-`, `*` and `/` is not modelled.
- The `easing`, `speed` and `transition` options are only carried in the settings, because they only feed transition strings.
- `TiltInstance.OnWindowResize`: only the client-size update is modelled. The glare resize is a style write.
- `TiltInstance.Calibrate`: the `lastgammazero`/`lastbetazero` fields are folded into the averaging step, because they only hold the previous baseline for that step.
- `TiltInstance.GyroPointer`: the pixel mapping is modelled with extended-real division. Its properties are stated for a positive element size and a non-empty angle range; a zero size is computed but has no lemma of its own, as the result is clamped later.
- `TiltInstance.OnMouseEnter`: only the remeasurement is modelled. The style writes are DOM-side.
- Scheduling is modelled only as the coalescing rule: `requestAnimationFrame` is a queue of callbacks run in order at a frame. Timer-based transitions are not modelled.
- The cursor follower and skill bars (script.js:499-514, script.js:557-766) are not modelled. They are constant style assignments and event wiring.
- `submitform` (script.js:789-808) is not modelled. It is XHR I/O and refers to an undefined `x`.
- `setform` (script.js:848-858) is not modelled. It only applies the constructor to every control of a form marked `data-validation`, which `FormValidation.Attach` models per control.
- `backend/frontend.js` is not part of this model. It is a single network POST.
- `FormValidation.Input`: a missing label `span` or `.error-msg` element, which would make the handler throw, is not modelled. The `data-a` and `data-b` codes are the `parseInt` readings taken once; the source re-reads both `data-a` and `data-b` on every call (script.js:831, script.js:834).
- `FormValidation.Input`: the check at script.js:834-838, which clears the error when the confirmation matches, is unreachable in the rejection branch. The model therefore raises the error on every rejection.
- `TiltSettings.ListenerSurface`: `document.querySelector` is a total lookup. An invalid selector, such as the raw text `""` that reaches it when `data-tilt-mouse-event-element=""` fails to parse, makes `querySelector` throw and abort the constructor. The model falls back to the element instead.
- `TiltInstance.Attach`: the source constructor only throws for a non-node. With an arithmetic option that does not hold a number, it still builds an instance, computing with coerced values or NaN, even when the option is never read (`data-tilt-max-glare="abc"` with glare off). The model returns `None` for these settings and promises nothing about them.
- `FormValidation.CheckPassword`: characters are Unicode scalar values, while a JavaScript expression without the `u` flag counts UTF-16 code units. Text outside the Basic Multilingual Plane is counted differently: `Ab1` followed by three emoji is 9 code units, which `re[4]` accepts, but 6 characters here, so it is rejected.
- `FormValidation.Input`: the expressions it applies inherit the same character counting, so for text outside the Basic Multilingual Plane its verdict can differ from the source's.
- `Typewriter.Start`: the span is assumed empty at page load. The source appends to whatever text `#skills` already holds (script.js:529) and never clears it until the first erase replaces it with a prefix of the word (script.js:542), so any text in the page's markup would show before the first word.
- `Typewriter.Type`: `charAt` and `length` count UTF-16 code units, and the model counts characters. The banner's words are ASCII, so they agree on them.
- The email expression is modelled exactly as written: its local-part class admits a space but not `-`, and this is not corrected.

## Findings

| source | as written | input that shows it | evidently intended | confidence | as-written member | corrected member |
|---|---|---|---|---|---|---|
| script.js:825-831 | The password field records `value.trim()` in `tp`, but the confirmation field compares its untrimmed value with `tp` | ` Abcdefg1` (leading space) typed into both the password and the confirmation field: the password is accepted and the confirmation rejected | The confirmation accepts the text the password field accepted | high (not executed) | `FormValidation.PaddedPasswordRejected` | `FormValidation.ConfirmCorrected` |
