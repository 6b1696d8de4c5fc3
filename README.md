# Keyboard edit reconciler

A model of the text-field logic in `MainActivity` of the keyboard demo app. The
activity keeps one current `TextFieldState` (text, selection and a counter of
user edits). It also keeps a re-entrancy flag `isUpdating` and an unbounded
shared flow of emitted states. A user edit in the `EditText` builds a candidate
state. If the candidate's content is new, the activity adopts it and emits it.
A coroutine collects the flow in order, uppercases each state and hands it to
`stateChanged`. `stateChanged` drops results of an older user-edit generation.
Otherwise, under the flag, it adopts the result, replaces the widget's whole
text, re-marks the composing region at its old offsets and sets the selection.

Files:

- `text_fields.dfy`, module `TextFields`: `TextFieldState` as a datatype, with
  `UserEdit` and `ContentEquals`. The `TextFieldState` class is not part of
  this model. These definitions are assumptions about it, read off its uses at
  `MainActivity.kt:32`, `:71-76`, `:83` and `:109`. `userEdit` gives the new
  text and selection and one more edit. `contentEquals` compares text and
  selection and ignores the counter.
- `host.dfy`, module `Host`: the `EditText` as a value record. It holds the
  text, the selection and the composing region, with `-1` as the "absent"
  sentinel. It also gives the effect of the three widget calls the reconciler
  makes: full replace, re-marking the composing text, and setting the selection.
- `keyboard.dfy`, module `Keyboard`: the uppercase transform, the class
  `MainActivity` (fields `state`, `isUpdating`, `flow`, `editor`), the
  pipeline step `ProcessNext`, `formatComposingSpan`, and two scenarios that
  follow the app through typing, a stale result and a no-op edit.

The coroutine pipeline becomes a FIFO field `flow` and a step `ProcessNext`. The
step takes the head, uppercases it and calls `StateChanged`. Two ghost logs,
`emitted` and `delivered`, record what entered the flow and what reached the
reconciler. The class invariant `Valid()` ties them together: the queue is the
undelivered suffix of what was emitted, and the i-th delivered state is the
uppercased i-th emitted state. So states are processed in order, each exactly
once. `Valid()` also records that queued generations strictly increase and never
exceed the current one. It also records that the widget text equals the current
state's text. From these facts `ProcessNext` proves three things. The reconciler
never hits its failure paths. An accepted result is always the newest emitted
state. The composing region keeps its offsets.

The widget's change listener fires during the reconciler's own edits. This
happens for the replacement at `:98` and for `setComposingText` at `:102-105`.
The model calls `TextChanged` at both points, and the guard makes those calls
change nothing.

### Notes on the code

Four facts about the source that the model keeps:

- The pipeline does not call `uppercase` (`:31-32`). It repeats the same
  expression inline (`:52`). Both are the model's `Uppercase`.
- The marker line of `formatComposingSpan` uses the inclusive range
  `start..end` and draws `len+1` markers, one for each position from 0 through
  the length.
- Nothing in the code requires `selectionStart <= selectionEnd`. The model only
  keeps both ends inside the text.
- `check(!isUpdating)` comes before the `try`. A failing check therefore leaves
  the flag set. Only the accepted paths clear it.

## Model

| member | source | states |
|---|---|---|
| `TextFields.UserEdit` | app/src/main/java/ca/derekellis/keyboard/MainActivity.kt:71-75 | assumed `userEdit`: the candidate carries the widget's text and selection and one more user edit; it is content-equal to the current state exactly when text and both selection ends are unchanged |
| `TextFields.ContentEqualsIgnoresCounter` | app/src/main/java/ca/derekellis/keyboard/MainActivity.kt:76 | assumed `contentEquals`: equality once the edit counters agree, and symmetric |
| `Host.ReplaceAll` | app/src/main/java/ca/derekellis/keyboard/MainActivity.kt:98 | replacing the whole text installs the new text and drops the composing region; the selection is clamped into the new text |
| `Host.MarkComposing` | app/src/main/java/ca/derekellis/keyboard/MainActivity.kt:100-105 | re-marking `[start,end)` keeps the text and sets exactly those composing offsets |
| `Host.Select` | app/src/main/java/ca/derekellis/keyboard/MainActivity.kt:109 | setting the selection changes only the selection |
| `Keyboard.UpperChar` | app/src/main/java/ca/derekellis/keyboard/MainActivity.kt:32 | a lower-case ASCII letter becomes its own capital (same offset from `A` as from `a`); the result is never a lower-case ASCII letter; anything else passes through |
| `Keyboard.UpperText` | app/src/main/java/ca/derekellis/keyboard/MainActivity.kt:32 | uppercasing preserves the length of the text |
| `Keyboard.UpperTextAt` | app/src/main/java/ca/derekellis/keyboard/MainActivity.kt:32 | position i of the result is the uppercased position i of the input |
| `Keyboard.UpperTextIdempotent` | app/src/main/java/ca/derekellis/keyboard/MainActivity.kt:32 | uppercasing twice equals uppercasing once |
| `Keyboard.Uppercase` | app/src/main/java/ca/derekellis/keyboard/MainActivity.kt:31-32 | the transform changes only the text: both selection ends and the edit counter pass through, the length is kept, and a selection inside the text stays inside it |
| `Keyboard.UppercaseIdempotent` | app/src/main/java/ca/derekellis/keyboard/MainActivity.kt:51-53 | transforming a state twice equals transforming it once |
| `Keyboard.FormatComposingSpan` | app/src/main/java/ca/derekellis/keyboard/MainActivity.kt:115-131 | output is the text, a newline, exactly `len+1` markers and a newline; marker i is `^` at either end of `start..end`, `~` strictly inside, a space outside; with the absent region every marker is a space |
| `Keyboard.MainActivity.constructor` | app/src/main/java/ca/derekellis/keyboard/MainActivity.kt:27-29 | starts with the empty state, flag clear, empty flow, empty widget with no composing region, and the invariant holds |
| `Keyboard.MainActivity.TextChanged` | app/src/main/java/ca/derekellis/keyboard/MainActivity.kt:68-80 | while the flag is set, or when the candidate is content-equal to the current state, state and flow are untouched; otherwise the candidate becomes the state and is appended, exactly once, to the end of the flow; the widget and flag never change |
| `Keyboard.MainActivity.HostTextEdited` | app/src/main/java/ca/derekellis/keyboard/MainActivity.kt:58-59 | a user edit of the widget reaches the listener: a content change adopts and enqueues `(text, selection, count+1)`, a no-op enqueues nothing; the invariant is kept |
| `Keyboard.MainActivity.StateChanged` | app/src/main/java/ca/derekellis/keyboard/MainActivity.kt:82-113 | a result of an older generation changes nothing; a set flag fails the check and changes nothing; otherwise the result becomes the state and the flag is clear on every exit; when applied, the widget holds the new text and selection and the composing region has its old offsets (or stays absent); it fails only when those offsets or the selection do not fit the new text; the edit counter never decreases and the flow is untouched |
| `Keyboard.MainActivity.ProcessNext` | app/src/main/java/ca/derekellis/keyboard/MainActivity.kt:48-56 | takes the head of the flow, delivers its uppercased form exactly once, in order; the result is stale exactly when the head's generation is older than the current one, and never fails; an applied result becomes the state, leaves the flow empty, and the widget shows its text and selection with the composing offsets it had before |

## Left out

- The `onCreate` wiring (`:38-47`, `:58-65`) is not modelled: edge-to-edge
  layout, content view, window insets and listener registration. Only the
  listener's call into `textChanged` appears, as `HostTextEdited`.
- Coroutine timing is not modelled: the 50 ms `delay` and `lifecycleScope`.
  There is no clock. Interleavings are the order in which `HostTextEdited` and
  `ProcessNext` are called.
- The flow's capacity is not bounded. The real buffer holds `Int.MAX_VALUE`
  items, and a 2^31-th pending item would make `tryEmit` fail.
- `Log.d` calls are not modelled. Neither is the cast of the input connection
  at `:89`, which could fail at run time.
- `editText.text` and `editableText` are taken as never null, so the `orEmpty()`
  and `?.let` fallbacks never apply.
- Android span internals are reduced to five offsets. `ReplaceAll` drops the
  composing span and clamps the selection. This is an assumption about the
  platform.
- The cursor hint that `setComposingText` gives (`:104`) is not modelled,
  because `setSelection` at `:109` overwrites it.
- On the `OutOfBounds` failure paths, the clamping that `setComposingRegion`
  applies is not modelled. Those paths are unreachable from `ProcessNext`.
- Keyboard.UpperChar: `String.uppercase()` is modelled on ASCII `a`-`z` only.
  Full Unicode case mapping can change the length (`ß` becomes `SS`), and the
  composing offsets would then no longer fit.
- Cursor moves that change no text do not reach the text-change listener. The
  model has no host event for them, so the widget's selection never differs
  from the state's between callbacks.
- The widget's initial text comes from the layout, which is not part of this
  model. The widget is assumed to start empty, with no composing region,
  matching the empty initial `TextFieldState`.
- `insertDashes` (`:34-36`) is only `TODO()`, so it has no behaviour to model.
