# Valentine card page: a Dafny model of its state logic

The page `src/pages/Index.tsx` is a three-screen greeting card. The first screen, `NameEntry`, lets through only the names on a two-entry allow-list. The second screen, `TheQuestion`, asks "Will you be my Valentine?". There, a "No" button jumps away and shrinks each time the pointer reaches it, while "Yes" grows. The third screen, `Celebration`, is the end. The parent component `Index` holds the current step (1, 2 or 3) and the name and picture carried between screens.

This project models the state logic of that page:

- `text.dfy` (module `Text`): `trim()` and `toLowerCase()` as `Trim` and `ToLower`, with lemmas about what trimming cuts and keeps.
- `name_gate.dfy` (module `NameGate`): the allow-list test `Validate`, which takes the list as a parameter (`ALLOWED_NAMES` is the page's own). It also has the `NameEntry` state as pure functions (`ChangeName`, `LoadImage`, `Submit`) and a class `NameEntry` whose handlers are proved against those functions.
- `flow.dfy` (module `Flow`): the step number as the subset type `1..3` and the two callbacks `onContinue` and `onYes` as `Next`. It also has lemmas over whole runs and a class `Index` with `OnContinue` and `OnYes`.
- `evasion.dfy` (module `Evasion`): the clamped updaters `Grow` and `Shrink`, the random jump `Place`, and one `moveNo` as `Trigger`. It also has closed forms and saturation after 8 triggers, and a class `TheQuestion` whose `MoveNo` keeps a ghost history of encounters.
- `app.dfy` (module `App`): the page as one state machine, where only the shown screen's handlers can fire. It proves an invariant of every reachable page: past the first screen, the committed name is the trimmed text of the box and passes the gate as it is.
- `wrappers.dfy`: `Option` and `Result`.

The scales are exact reals; `0.25` and `0.08` are exact in Dafny. Each `Math.random()` draw is a `Fraction`, a real in `[0, 1)`. `window.innerWidth` and `window.innerHeight` are integer parameters of each trigger.

Facts about the code that the model keeps:

- The jump target is `x = rx * (innerWidth - 120)` with `rx` in `[0, 1)`, so it lies in the half-open range `[0, innerWidth - 120)`.
- In a window no wider than 120 pixels (or no taller than 60), the range flips and the point lies at or left of (above) the origin. `Place` states both cases.
- The allow-list is a sequence tested with `includes`.

## Model

| member | source | states |
|---|---|---|
| Text.IsSpace | src/pages/Index.tsx:69 | the characters `trim()` removes: no letter is one of them, and among ASCII characters they are exactly the space and TAB through CR |
| Text.Trim | src/pages/Index.tsx:69 | `name.trim()`: the result is never longer than the input; `TrimSplit` states what it keeps and cuts |
| Text.TrimStartCuts | src/pages/Index.tsx:69 | the leading part `trim` drops is all white space, and what it keeps starts with a non-space |
| Text.TrimEndCuts | src/pages/Index.tsx:69 | the trailing part `trim` drops is all white space, and what it keeps ends with a non-space |
| Text.TrimSplit | src/pages/Index.tsx:69 | every string is white space, then `Trim(s)`, then white space, and `Trim(s)` has non-space ends |
| Text.TrimPadded | src/pages/Index.tsx:69 | for any white space `p`, `q` and string `w` with non-space ends, `Trim(p + w + q) == w` (inverse of `TrimSplit`) |
| Text.TrimIdempotent | src/pages/Index.tsx:69 | trimming twice equals trimming once |
| Text.TrimEmpty | src/pages/Index.tsx:126 | the trimmed text is empty exactly when the text is all white space, which is when Continue is disabled |
| Text.LowerChar | src/pages/Index.tsx:70 | A-Z map to a-z (code + 32); every other character is unchanged; the result is never an ASCII capital |
| Text.ToLower | src/pages/Index.tsx:70 | `toLowerCase()`: same length, each character folded on its own |
| Text.LowerIdempotent | src/pages/Index.tsx:70 | lower-casing twice equals lower-casing once |
| NameGate.Validate | src/pages/Index.tsx:68-73 | a success carries a name whose lower-case form is listed and that is no longer than the input; a failure carries the fixed message |
| NameGate.AcceptsPadded | src/pages/Index.tsx:69-75 | a listed name in any ASCII case, with any white space around it, is accepted and handed on as exactly that name in its typed case |
| NameGate.RejectsPadded | src/pages/Index.tsx:69-72 | a tight string whose lower-case form is not listed is refused with the fixed message, whatever white space surrounds it |
| NameGate.ValidateSplits | src/pages/Index.tsx:69-70 | every input splits into white space, a tight block and white space; it is accepted exactly when the block's lower-case form is listed, and the block is what is handed on |
| NameGate.AcceptedIsStable | src/pages/Index.tsx:69-75 | the accepted, trimmed name passes the gate again unchanged |
| NameGate.BlankRejected | src/pages/Index.tsx:69-72 | with no empty entry in the list, an empty or all-white-space name is refused |
| NameGate.BubuWithSpacesAccepted | src/pages/Index.tsx:46-75 | `"  Bubu "` is accepted by the page's list and handed on as `"Bubu"` |
| NameGate.BobRejected | src/pages/Index.tsx:46-72 | `"Bob"` is refused with the fixed message |
| NameGate.ChangeName | src/pages/Index.tsx:78-81 | an edit sets the text, keeps the picture and leaves no error on screen |
| NameGate.LoadImage | src/pages/Index.tsx:63 | the picture becomes the data URL that was read; text and error are kept |
| NameGate.ContinueEnabled | src/pages/Index.tsx:126 | `disabled={!name.trim()}`: Continue is enabled exactly when the text holds a character that is not white space |
| NameGate.Submit | src/pages/Index.tsx:68-76 | something is handed on exactly when the trimmed, lower-cased text is listed; then the error is cleared and the trimmed text goes with the picture; otherwise the fixed error is set; text and picture are kept |
| NameGate.ErrorOnlyForSubmittedText | src/pages/Index.tsx:68-81 | after an edit no error is shown, and after the next Continue an error is shown exactly when nothing was handed on |
| NameGate.NameEntry.constructor | src/pages/Index.tsx:54-56 | the text, picture and error all start empty |
| NameGate.NameEntry.HandleNameChange | src/pages/Index.tsx:78-81 | the new state is `ChangeName` of the old one |
| NameGate.NameEntry.HandleImageLoaded | src/pages/Index.tsx:63 | the new state is `LoadImage` of the old one |
| NameGate.NameEntry.HandleContinue | src/pages/Index.tsx:68-76 | the new state and the value handed to `onContinue` are those of `Submit` on the old state |
| Flow.Next | src/pages/Index.tsx:296-310 | a callback moves the step by at most one and never back; the step changes exactly when the callback's screen is shown (1 for Continue, 2 for Yes); step 3 is never left; name and picture change only through Continue on step 1, which sets them together |
| Flow.StepNeverDecreases | src/pages/Index.tsx:289-310 | in any run of callbacks, the step at an earlier point is at most the step at a later one |
| Flow.CommittedValuesFrozen | src/pages/Index.tsx:299-310 | once past step 1, no callback changes the name or picture, and the step does not go back |
| Flow.CelebrationIsFinal | src/pages/Index.tsx:310 | from step 3, every run of callbacks leaves the session unchanged |
| Flow.CelebrationNeedsContinueThenYes | src/pages/Index.tsx:296-310 | a run from the start that reaches step 3 contains a Continue and a later Yes, and the Continue carried the name and picture shown |
| Flow.ContinueOf | src/pages/Index.tsx:299-303 | a run from the start that is on step 2 contains a Continue that carried the current name and picture |
| Flow.Index.constructor | src/pages/Index.tsx:289-291 | step 1 with empty name and picture |
| Flow.Index.OnContinue | src/pages/Index.tsx:299-303 | on step 1, the new session is `Next` of the old one under Continue(n, img) |
| Flow.Index.OnYes | src/pages/Index.tsx:308 | on step 2, the new session is `Next` of the old one under Yes |
| Evasion.Min | src/pages/Index.tsx:159 | `Math.min`: the result is at most both arguments and equal to one of them |
| Evasion.Max | src/pages/Index.tsx:160 | `Math.max`: the result is at least both arguments and equal to one of them |
| Evasion.Grow | src/pages/Index.tsx:159 | the "Yes" scale never exceeds 3, never decreases from a value up to 3, and rises by at most 0.25; it reaches 3 exactly when s + 0.25 >= 3, and below 3 it is exactly s + 0.25 |
| Evasion.Shrink | src/pages/Index.tsx:160 | the "No" scale never drops below 0.4, never increases from a value of at least 0.4, and falls by at most 0.08; it reaches 0.4 exactly when s - 0.08 <= 0.4, and above 0.4 it is exactly s - 0.08 |
| Evasion.Scaled | src/pages/Index.tsx:156-157 | a random fraction of an extent lies in `[0, extent)` for a positive extent, is 0 for 0, and lies in `(extent, 0]` for a negative extent |
| Evasion.Place | src/pages/Index.tsx:153-158 | the jump target lies in `[0, innerWidth - 120) x [0, innerHeight - 60)` when the window is larger than that room, and at or before the origin on an axis where it is not |
| Evasion.Trigger | src/pages/Index.tsx:152-161 | after a trigger "No" is never docked and stands at the drawn point; from in-range scales, the scales stay in range, "Yes" does not decrease and "No" does not increase |
| Evasion.ScalesClosedForm | src/pages/Index.tsx:147-160 | after n triggers from (1, 1), "Yes" is min(1 + 0.25 n, 3) and "No" is max(1 - 0.08 n, 0.4) |
| Evasion.SaturatesAtEight | src/pages/Index.tsx:159-160 | both scales are still moving after fewer than 8 triggers and are fixed at (3, 0.4) from the 8th on |
| Evasion.FirstTrigger | src/pages/Index.tsx:147-160 | one trigger from the start gives (1.25, 0.92) |
| Evasion.RunFromInitial | src/pages/Index.tsx:147-161 | after a run of encounters from a fresh mount, the scales are the n-step values, "No" is docked exactly when there were no encounters, and otherwise it stands at the last drawn point |
| Evasion.RunMonotone | src/pages/Index.tsx:152-161 | along any run from in-range scales, the scales stay in range and never reverse, and once "No" has left its dock it never returns |
| Evasion.NoButtons | src/pages/Index.tsx:189-217 | of the two conditional renderings, exactly one "No" button is shown: docked while there is no position, and fixed at the position once there is one |
| Evasion.TheQuestion.constructor | src/pages/Index.tsx:147-149 | a fresh mount starts at scales (1, 1) with "No" docked, whatever earlier mounts did |
| Evasion.TheQuestion.MoveNo | src/pages/Index.tsx:152-161 | the new state is `Trigger` of the old one; the history grows by this encounter; the scales equal the n-step values; "Yes" did not decrease and "No" did not increase; "No" is undocked |
| App.Dispatch | src/pages/Index.tsx:296-310 | only the shown screen's handlers change anything; the disabled Continue (line 126) is a no-op; an accepted name moves the session on and mounts a fresh question; `DispatchKeepsConsistent` states what each action preserves |
| App.Consistent | src/pages/Index.tsx:289-310 | the page invariant: on step 1 nothing is committed and the question is unmounted; past it, the name is the non-empty trimmed box text that passes the gate unchanged, and the picture is the one picked; the scales are in range |
| App.SubmitKeepsConsistent | src/pages/Index.tsx:296-305 | pressing an enabled Continue on step 1 keeps the page invariant; an accepted name commits the trimmed text and the picture |
| App.DispatchKeepsConsistent | src/pages/Index.tsx:296-310 | every user action keeps the page invariant and never lowers the step |
| App.ReplayConsistent | src/pages/Index.tsx:296-310 | every page reachable from the first render satisfies the invariant: nothing is committed on step 1; past it, the name is the trimmed box text and passes the gate unchanged, and the picture is the one picked |
| App.ReplayNeverGoesBack | src/pages/Index.tsx:289-310 | in any sequence of user actions, the step never decreases |
| App.CommittedNameNonEmpty | src/pages/Index.tsx:299-303 | for every allow-list, the name shown on steps 2 and 3 is never empty, because Continue is disabled while the trimmed text is empty (line 126) |
| App.RefusedNameStays | src/pages/Index.tsx:68-73 | a refused name leaves the session (step, name, picture) untouched, and when the button was enabled the fixed error is set |
| App.AcceptedNameAdvances | src/pages/Index.tsx:74-75 | an accepted name moves to step 2 with the trimmed name and the picture, clears the error, and mounts a fresh docked question |

## Left out

- `FloatingHearts`, `HeartFrame` and all markup, class names and CSS animations (src/pages/Index.tsx:6-44 and the JSX). They are presentation only; their `Math.random` style values have no effect on behaviour.
- The `FileReader` read of a chosen file (src/pages/Index.tsx:59-66). It is asynchronous browser I/O that fails silently. Only its `onload` effect is modelled (`LoadImage`), with the data URL as an opaque string.
- The `Celebration` confetti loop (src/pages/Index.tsx:224-245). It calls a foreign library, reads the wall clock with `Date.now()` and schedules with `requestAnimationFrame`. The model only reaches step 3.
- `PRESET_IMAGE` and `import.meta.env.BASE_URL` (src/pages/Index.tsx:47): build configuration.
- The pulse animation of "Yes" and the `transform: scale(...)` styling. The model keeps the scale values, not how they are drawn.
- IEEE-754 arithmetic: the scales are exact reals, so repeated `- 0.08` in binary floating point is not modelled exactly. The saturation points and bounds hold of the exact values.
- React's update batching: the three state setters of `moveNo` (`setYesScale`, `setNoScale`, `setNoPos`) and the three of `onContinue` (`setName`, `setImage`, `setStep`) are each applied as one step. Nothing reads state between them.
- Text.ToLower: folds only the ASCII letters A-Z, while `toLowerCase()` follows full Unicode case mapping. Outside A-Z, only two upper-case characters lower-case to something containing an ASCII letter: the Kelvin sign U+212A (to `k`) and U+0130 (to `i` and a combining dot). Neither can complete a name on the page's own list, so for that list the verdict is the same.
- NameGate.Validate: the allow-list is a parameter; the page hard-codes `["bubu", "celia"]`, which is `ALLOWED_NAMES`.
