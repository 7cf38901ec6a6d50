# Timed composite actions of a gamepad remapper, modelled in Dafny

This project models the action-execution core of SC Controller, a gamepad
remapping daemon: what happens when a virtual button bound to a composite
action is pressed and released.

- **Macro** (`scc/macros.py`): a flat list of steps, each an action with a
  trailing `delay_after`. A press starts a run. Each `timer` tick presses
  the next step, waits `HOLD_TIME`, releases it, and waits the step's
  `delay_after`. A repeating macro restarts while the outer button stays
  held. Construction flattens nested macros and lets a bare float retime
  the step before it.
- **Generators**: `Type` turns text into key steps, pressing left shift
  before uppercase runs. `Cycle` forwards successive press/release pairs
  to successive children. `Repeat` sets the repeat flag.
- **Leaf actions and decorators**: `SleepAction` (a pause), `PressAction`
  and `ReleaseAction` (which keep only one edge of an inner action), and
  `TapAction` (a short press, or release-press-release-press when the
  button is already held).
- **Axis bindings** (`src/actions/axis.c`): `axis`, `raxis` and the four
  `hat*` keywords, which move an output axis to a configured maximum on
  press and back to the minimum on release, clamped to the axis's range.

The dispatcher ("mapper") is modelled as a class with three parts: a FIFO
queue of `(delay, callback)` registrations, the table of logically pressed
buttons, and a ghost trace. The trace records each call a composite action
makes into a child (`Invoke(edge, action)`) and each primitive key edge
(`KeyEvent(edge, key)`). Delays are `real` seconds that are stored and
passed along.

The Macro state machine appears twice:
- as pure functions over a `Run` value (`MacroRun.Press`, `MacroRun.Tick`,
  `MacroRun.Drive`), where the run properties are proved;
- as the class `MacroObject.Macro`, whose methods update the fields in
  place. Each method is proved equal to those functions.

Modules, in dependency order: `Wrappers`, `Actions`, `Scheduler`,
`MacroRun`, `MacroObject`, `MacroBuild`, `TypeString`, `Cycling`,
`Tapping`, `AxisBinding`.

Facts of the code the model follows:
- **Hold time.** `Type` declares `HOLD_TIME = 0.001` (scc/macros.py:143),
  but the constructor reads `Macro.HOLD_TIME` (scc/macros.py:29), so every
  macro, `Type` included, holds each step for 0.01 s.
  `TypeString.TYPE_HOLD_TIME` is declared and never read.
- **Tap on a held button.** The first release runs synchronously inside
  `button_press` (scc/macros.py:327). The other three steps each run from a
  callback scheduled at delay 0 (scc/macros.py:333-337).
- **Default `delay_after`.** It comes from the `Action` base class, which
  is not part of this model. `Actions.ACTION_DELAY_AFTER` is therefore a
  constant whose value is left open.

## Model

| member | source | states |
|---|---|---|
| Actions.NewStep | scc/macros.py:240-243 | A new step keeps its action. A sleep's `delay_after` is its delay minus the hold time; any other action gets the default `delay_after` |
| Actions.KeyEffect | scc/macros.py:258-305 | One edge of a step makes at most one key edge, on the key of the button under the decorators. A sleep makes none, and a press-only or release-only step makes none on release |
| Actions.SleepPadsToDuration | scc/macros.py:240-259 | A sleep step's `delay_after` is its delay minus `Macro.HOLD_TIME`, so hold plus delay equals the requested duration; its press and release produce no key edge |
| Actions.DecoratorEdges | scc/macros.py:287-305 | PressAction's press is the inner press and its release does nothing; ReleaseAction's press is the inner release and its release does nothing |
| Actions.PressReleaseBracket | scc/macros.py:262-305 | A press-only step and a later release-only step of the same action, each run as a full step, give exactly one inner press and one inner release around whatever ran between them |
| MacroRun.Press | scc/macros.py:44-54 | An empty macro is a no-op. A running macro only sets `active`. An idle macro becomes active, presses its first step and schedules one tick after the hold time. The run invariant is preserved |
| MacroRun.Tick | scc/macros.py:57-78 | With nothing held, pops and presses the head step and schedules after the hold time. Otherwise releases the held step, then restarts (if repeating and active), goes idle (list empty) or schedules after that step's `delay_after`. Exactly one event each time; a tick is scheduled iff the macro still runs; `active` is unchanged |
| MacroRun.Drive | scc/macros.py:57-78 | Running `timer` again and again as the scheduler does, stopping once the macro is idle: the run invariant holds throughout and `active` is not changed |
| MacroRun.FinishRun | scc/macros.py:57-78 | From any running state, the remaining ticks press and release every remaining step once, in order, with the matching delays. The run ends idle, or freshly restarted when repeating and active |
| MacroRun.SingleRun | scc/macros.py:44-78 | A non-repeating macro of n steps, pressed while idle, makes n press/release pairs in list order over 2n-1 ticks. Each press is followed by the hold time and each release but the last by its step's `delay_after`. It ends idle |
| MacroRun.RepeatRestarts | scc/macros.py:66-70 | A repeating macro held down plays every step once and then refills its list, with the next tick pending after the last step's `delay_after` |
| MacroRun.RepeatIsPeriodic | scc/macros.py:66-70 | While held, a repeating macro returns to the same state after every 2n ticks, producing the same events and delays each time |
| MacroRun.ReleaseNeverTruncates | scc/macros.py:107-108 | Releasing the outer button mid-run only clears `active`: every queued or held step still completes, in order, and the macro then goes idle instead of restarting |
| MacroRun.PressWhileRunning | scc/macros.py:49-52 | Pressing a running macro again changes neither its queue nor its held step, and schedules nothing |
| MacroObject.Macro.constructor | scc/macros.py:25-32 | A new macro is idle, inactive and holds for `Macro.HOLD_TIME` |
| MacroObject.Macro.IdleTickPending | scc/macros.py:31 | An idle macro, as every new one is, has no tick pending in any queue holding nothing of its own, so the one-tick invariant holds from construction |
| MacroObject.Macro.ButtonPress | scc/macros.py:44-54 | Fields, trace and queue change exactly as `MacroRun.Press` says. If the macro had exactly one tick queued while running and none while idle, it still does afterwards |
| MacroObject.Macro.Timer | scc/macros.py:57-78 | Fields, trace and queue change exactly as `MacroRun.Tick` says. One tick is registered iff the macro still runs |
| MacroObject.Macro.RunTick | scc/macros.py:57-78 | Running the tick at the front of the queue: it is taken off, then fields, trace and queue change as `MacroRun.Tick` says. A tick at the front means the macro was running, and afterwards exactly one tick is queued iff it still runs |
| MacroObject.Macro.ButtonRelease | scc/macros.py:107-108 | Clears `active` and nothing else; the number of queued ticks is left as it was |
| MacroBuild.Append | scc/macros.py:34-41 | A float after a step keeps the earlier steps and that step's action and sets its `delay_after`. Any other argument keeps every earlier step and adds after them exactly: a nested macro's own steps, an action as one step, anything else as one button step, and a leading float as a button step |
| MacroBuild.Flatten | scc/macros.py:33-41 | Without nested macros, the step list is never longer than the argument list. A list of actions and raw values gives exactly one step per argument, in order: the action itself, or a button over the raw value |
| MacroBuild.Construct | scc/macros.py:25-41 | A newly built macro does not repeat |
| MacroBuild.FlattenLength | scc/macros.py:33-41 | Appending an argument: a float after a step only rewrites that step's `delay_after`; a leading float adds a button step; a macro adds exactly its own steps, an action exactly itself, and anything else exactly a button over it |
| MacroBuild.NestedMacroSplices | scc/macros.py:36-37 | `Macro(Macro(ps), qs)` has exactly the steps of `Macro(ps, qs)` |
| MacroBuild.FirstActionStable | scc/macros.py:33-41 | Later arguments never change the first step's action |
| MacroBuild.LeadingNumberIsButton | scc/macros.py:34-41 | A leading float is not a delay: it becomes a button step |
| MacroBuild.Repeat | scc/macros.py:226-230 | The result always repeats |
| MacroBuild.RepeatKeepsSteps | scc/macros.py:226-230 | A macro keeps its steps; any other action becomes a one-step macro |
| MacroBuild.RepeatIdempotent | scc/macros.py:226-230 | Repeating twice is repeating once |
| MacroBuild.Describe | scc/macros.py:111-115 | A non-empty name is the whole description. Otherwise the description ends with the children's descriptions joined by "; ", and starts with "repeat " when the macro repeats |
| MacroBuild.ToString | scc/macros.py:118-122 | The text starts with `pad` spaces. A repeating macro continues with "repeat(" and ends with ")"; a plain one continues with exactly the children's forms joined by "; " |
| MacroBuild.RepeatPrefix | scc/macros.py:111-122 | A repeating macro without a non-empty name is described as "repeat " plus the plain description; a non-empty name is both descriptions. It is written as `repeat(...)` around the plain form after the padding |
| MacroBuild.EmptyNameIsUnnamed | scc/macros.py:112-114 | An empty name counts as no name: a repeating macro named "" is still described as "repeat " plus its children's descriptions |
| TypeString.CharActions | scc/macros.py:149-165 | An accepted character adds its own key last, preceded by one shift step exactly when a lowercase letter or digit finds shift down (a release) or an uppercase letter finds it up (a press) |
| TypeString.NextShift | scc/macros.py:149-165 | Shift is up after a lowercase letter or digit, down after an uppercase letter, and unchanged by a space |
| TypeString.Typed | scc/macros.py:148-166 | A successful result has one to two actions per character; a failure names a character of the text that Type does not accept |
| TypeString.TypeParams | scc/macros.py:145-166 | The character loop returns exactly the `Typed` actions, or the first rejected character |
| TypeString.NewType | scc/macros.py:145-167 | `Type(s)` is an idle plain Macro over the generated actions, or fails naming the rejected character |
| TypeString.TypeStepsAreActions | scc/macros.py:167 | Each generated action becomes one step, in order, with its own default delay |
| TypeString.TypedRejects | scc/macros.py:148-166 | Type succeeds iff every character is a letter, digit or space; otherwise the error names the first other character |
| TypeString.CharStep | scc/macros.py:149-165 | One character presses exactly its own key. Shift is down iff the character is uppercase; a space keeps the shift state. A shift step appears only when the state changes |
| TypeString.TypeCasing | scc/macros.py:148-165 | The keys pressed are the characters of the text, in order; every letter or digit is pressed with shift down iff it is uppercase |
| TypeString.ShiftAlternates | scc/macros.py:151-163 | Shift presses and releases strictly alternate, starting with a press; shift ends down iff their number is odd |
| TypeString.TrailingUpperKeepsShift | scc/macros.py:159-165 | Text ending in an uppercase letter leaves shift pressed, with no final release |
| TypeString.ExampleAb1 | scc/macros.py:145-166 | "Ab 1" gives shift press, A, shift release, b, space, 1 |
| TypeString.ExampleSpaceKeepsShift | scc/macros.py:156-158 | "A B" gives shift press, A, space, B: a space does not release shift |
| TypeString.ExampleHash | scc/macros.py:166 | "a#" fails naming '#' |
| TypeString.AsWrittenFailsAtShift | scc/macros.py:151-165 | With the key code wrapped as a ButtonAction, the steps as written are exactly CharActions; the written steps that cannot run are exactly the shift presses and releases |
| TypeString.UpperAsWrittenCannotRun | scc/macros.py:159-162 | As written, "A" starts with PressAction over the bare key code, which has no `button_press` |
| TypeString.CharStepsAsWritten | scc/macros.py:149-165 | As written, a character adds its own key as a runnable ButtonAction last, preceded on a shift change by a release (lowercase or digit) or press (uppercase) over the bare key code |
| TypeString.Fix | scc/macros.py:151-162 | A runnable step is unchanged; a bare key code under PressAction or ReleaseAction becomes that decorator over the key's ButtonAction |
| Scheduler.Mapper.Schedule | scc/macros.py:62 | Registers the callback once at the end of the queue; that callback has one more run pending and the trace is unchanged |
| Scheduler.Mapper.Pop | scc/macros.py:62 | Takes the oldest registration off the queue and returns it: that callback has one run fewer pending and every other as many as before |
| Cycling.Next | scc/macros.py:195-200 | The index after `i` stays below the length and equals (i + 1) mod n |
| Cycling.AdvanceWraps | scc/macros.py:195-200 | After k releases the index is (i + k) mod n |
| Cycling.CycleWraps | scc/macros.py:190-200 | Press/release pair j goes to the action the index reaches after j releases, press first, then release |
| Cycling.CycleModulo | scc/macros.py:190-200 | Press/release pair j goes to action (i + j) mod n |
| Cycling.FullRound | scc/macros.py:195-200 | n releases bring the index back to where it started |
| Cycling.PressReleaseTimes | scc/macros.py:190-200 | k press/release pairs on a non-empty cycle send the children exactly the calls `Pairs` lists, leave the index k places on, and schedule nothing |
| Cycling.ExampleFourPresses | scc/macros.py:175-200 | cycle(X, Y, Z): the third press goes to Z and the fourth to X again |
| Cycling.Cycle.constructor | scc/macros.py:184-187 | A new cycle starts at index 0 |
| Cycling.Cycle.ButtonPress | scc/macros.py:190-192 | Forwards the press to the current action without moving the index; a no-op on an empty list |
| Cycling.Cycle.ButtonRelease | scc/macros.py:195-200 | Forwards the release to the same action, then advances the index with wrap-around, keeping it inside the list; a no-op on an empty list |
| Tapping.Held | scc/macros.py:319 | A button is held only if the mapper lists it, and a listed button is held iff its count is positive |
| Tapping.HeldTapEdges | scc/macros.py:321-326 | The held-button sequence produces release, press, release, press |
| Tapping.TapAction.ButtonPress | scc/macros.py:318-330 | On a held button: one release now, three steps left, one zero-delay callback scheduled, and the emitted edges plus those still queued are release, press, release, press. Otherwise: one press now and exactly one zero-delay release scheduled |
| Tapping.TapAction.RelTapPress | scc/macros.py:333-337 | Pops and runs the first queued primitive, then schedules itself at delay 0 iff steps remain. Emitted plus remaining edges are unchanged. An empty list is the source's IndexError |
| Tapping.TapAction.ScheduledRelease | scc/macros.py:340-341 | Releases the button |
| AxisBinding.Clamp | src/actions/axis.c:95-109 | The result lies in the trigger range for ABS_Z/ABS_RZ, in [-1, 1] for the hats, and in the stick range otherwise. It is the value itself inside the range and the nearer bound outside |
| AxisBinding.ClampIdempotent | src/actions/axis.c:95-109 | Clamping twice is clamping once |
| AxisBinding.KeywordKinds | src/actions/axis.c:58-69 | Of the registered keywords, exactly the four `hat*` ones start with "hat"; of those, exactly `hatdown` and `hatright` contain "down" or "right" |
| AxisBinding.HatSetting | src/actions/axis.c:58-70 | Hat keywords set min 0 and max to stick min + 1, or stick max - 1 for down/right; they succeed iff exactly one parameter is given |
| AxisBinding.AxisSetting | src/actions/axis.c:72-84 | `axis` defaults to the trigger range on triggers and the stick range elsewhere; a second parameter overrides min, a third overrides max |
| AxisBinding.RaxisSwaps | src/actions/axis.c:82-89 | `raxis` gives `axis`'s min and max exchanged |
| AxisBinding.HatOnDpad | src/actions/axis.c:111-121 | A hat binding on a d-pad axis presses to full deflection (+1 for down/right, -1 otherwise) and releases to 0 |
| AxisBinding.AxisParams | src/actions/axis.c:55-92 | Only a hat keyword given more than one parameter fails. A hat gets min 0 and max one step inside the stick range. Otherwise the pair (min, max) is, in some order, the given second and third parameters, the second parameter with the default maximum, or the trigger or stick range; min is the second parameter unless `raxis` |
| AxisBinding.AxisMapper.SetAxis | src/actions/axis.c:111-121 | The given axis now holds the value; every other axis is unchanged |
| AxisBinding.AxisAction.constructor | src/actions/axis.c:166-173 | A freshly allocated action has no keyword and no parameter list yet |
| AxisBinding.AxisAction.ApplyAxisParams | src/actions/axis.c:55-92 | Sets axis and scale 1.0, and min, max and success exactly as `AxisParams` says. The keyword is set only on success |
| AxisBinding.AxisAction.ButtonPress | src/actions/axis.c:111-115 | Sets the bound axis to its max clamped to the axis range |
| AxisBinding.AxisAction.ButtonRelease | src/actions/axis.c:117-121 | Sets the bound axis to its min clamped to the axis range |
| AxisBinding.AxisConstructor | src/actions/axis.c:162-185 | Passes on a checker error. Fails with invalid-number-of-parameters iff apply fails. Otherwise returns a new action with the parameter list kept, scale 1.0 and the computed min/max |

## Left out

- Child actions are a closed set: buttons, sleeps, press-only and release-only. A macro step that is a TapAction, and a cycle element that is a Macro, Cycle or TapAction, is not modelled as a running object. Nested macros are flattened into their steps, as the constructor does.
- A Cycle given to `Macro(...)` is itself a Macro (scc/macros.py:175), so it is flattened like one: its elements, kept unwrapped (scc/macros.py:186), are spliced in and play one after another, and the cycling is lost. The model expresses this only as a `Composite` argument, and only when every element of the cycle is an action a step can hold.
- Nested-macro steps are values here, but the source shares the same step objects between the outer and inner macro. Aliasing between them is not captured.
- `MacroBuild.Repeat` returns a new value. In the source, `Repeat(m)` on a Macro sets `repeat` on that same object and returns it. `Repeat` of a Cycle sets a flag the cycle never reads.
- `Keys` is not part of this model. Every `KEY_<C>` name that Type looks up is assumed to exist, so the `hasattr` fall-through is not modelled.
- TypeString.CharActions: the shift steps are PressAction/ReleaseAction over `Button(KEY_LEFTSHIFT)`. The source passes the bare key code, which cannot run (see Findings); the model uses the wrapped form.
- `TapAction.button` is set outside the shown code: the model takes it as a constructor argument. `TapAction.button_release` is PressAction's no-op and has no method here.
- The mapper's deadlines are not modelled: the queue is taken in registration order (`Mapper.Pop`), whatever the delays. Only the Macro tick is run through the queue (`Macro.RunTick`); the tap callbacks are called directly as methods.
- Delays are exact `real` numbers. The source uses Python floats, so `delay - Macro.HOLD_TIME` (scc/macros.py:243) is rounded there, and `Actions.SleepPadsToDuration` holds only up to that rounding.
- `Macro.button_press` returns False or None; no return value is modelled.
- The haptic and speed passthroughs (scc/macros.py:81-104) are duck-typed forwarding and are not modelled.
- Text forms: only the "repeat" prefix of `describe`/`to_string` is modelled. `__str__`, `Cycle` and `SleepAction` descriptions, `Type.to_string` and the `letters` attribute are not.
- AxisBinding.AxisConstructor: the "xi16?i16?" parameter checker is not part of this model. Its verdict is an argument; when it accepts, the list holds one to three integers. Out-of-memory handling and the leak on the failure path are not modelled.
- AxisBinding.AxisAction.ApplyAxisParams: the `ASSERT(0)` for an unknown hat keyword cannot be reached, because only the six registered keywords are accepted.
- `axis()` and `trigger()` interpolate in double precision and are not modelled. Neither are `set_sensitivity`, `get_property` and `axis_to_string`.
- `STICK_PAD_MIN/MAX` and `TRIGGER_MIN/MAX` are defined outside `axis.c`. The model takes them as a `Limits` value with each minimum below its maximum. The `AxisValue` width is not modelled.

## Findings

| source | as written | input that shows it | evidently intended | confidence | as-written member | corrected member |
|---|---|---|---|---|---|---|
| scc/macros.py:152-162 | `Type` passes the bare key code `Keys.KEY_LEFTSHIFT` to ReleaseAction/PressAction, whose `button_press` calls `button_release`/`button_press` on it (scc/macros.py:288, 305) | `Type("A")`: its first step is PressAction over the key code | PressAction/ReleaseAction over `ButtonAction(Keys.KEY_LEFTSHIFT)` | medium, not executed | TypeString.UpperAsWrittenCannotRun | TypeString.CharActions |
