# FieldBezier: parser, value store and change debouncer

This project models the logic of `Blockly.FieldBezier`, a block-editor field for editing
a bezier curve. The field has three pieces of logic, and the model proves properties of
each:

- **The option parser `createArgsObj`.** The constructor's argument, for example
  `"curveOnly"` or `"closedSurfaceOnly;scale:2"`, is split on `;`. Each segment is
  split on `:`. A segment without `:` becomes the flag `true`. Otherwise the key maps
  to the text between the first and second `:`. An argument that is not a string gives
  an empty dictionary.
- **The value store.** `getValue` and `setValue` read and write the `points` attribute
  of a private element. `init` stores the current value again.
- **The change-event debouncer.** `RaiseChangeEvent` sets the `eventTimeout` flag and
  schedules one timer callback, unless the flag is already set. The callback clears the
  flag and fires one `Change` event. That event carries the points of the curve passed
  to the call that opened the window, read when the callback runs.

Files:

- `js_string.dfy`: module `Options` (an `Option` datatype). Module `JsString`, which
  models JavaScript's `split` with a one-character separator as a function on
  `seq<char>`, together with its inverse `Join`.
- `args_parser.dfy`: module `ArgsParser`. `CreateArgsObj` is a method whose loop fills
  the dictionary in place, as the source's `forEach` does. It is specified by the
  function `Parse`, and the lemmas are stated about `Parse`.
- `change_notifier.dfy`: module `ChangeNotifier`. The debouncer as a state machine on
  values (`Raise`, `Fire`), plus whole traces of notifications and elapsed delays
  (`Run`).
- `field_bezier.dfy`: module `FieldBezierField`. The class `FieldBezier` has the
  constant `name` and the fields `args`, `points`, `eventTimeout`, `scheduled` and the
  ghost log `events`. Its methods change those fields in place. Each method says how its
  new state relates to the value-level state machine. The method `FieldScenario` has no
  contract of its own: it is a client that shows what a caller can prove from the
  class's contracts (the store round-trip, one event per window).

Modelling choices:

- JavaScript `null` and non-string arguments are `Option.None`.
- The timer queue is the field `scheduled`: the number of callbacks set and not yet run.
- Calls to `Blockly.Events.fire` are appended to the ghost log `events`. No code of the field reads it.
- The 100 ms delay is not modelled. The timer callback is the method `TimerFire`, and
  its argument stands for what `curve.getPointsJson()` returns when it runs.

A segment with more than one `:` keeps only `keyValueSpl[1]` (`core/field_bezier.js:41`),
the text between the first and second `:`, not everything after the first `:`. So
`"a:b:c"` gives `"b"`.

## Model

| member | source | states |
|---|---|---|
| `JsString.Split` | core/field_bezier.js:37 | `split` always returns at least one piece, and no piece contains the separator |
| `JsString.JoinSplit` | core/field_bezier.js:37 | joining the pieces with the separator gives back the original string |
| `JsString.SplitJoin` | core/field_bezier.js:40 | splitting the join of separator-free pieces gives back exactly those pieces, so `split` is the unique separator-free decomposition |
| `JsString.SplitNoSep` | core/field_bezier.js:40 | a string without the separator is a single piece |
| `JsString.SplitConcat` | core/field_bezier.js:40 | the text before the first separator is the first piece, and the rest splits on its own |
| `JsString.FirstPiece` | core/field_bezier.js:41 | the first piece is the longest separator-free prefix: it is followed by the end of the string or by a separator |
| `JsString.SplitSingleIff` | core/field_bezier.js:41 | a string gives exactly one piece if and only if it has no separator |
| `ArgsParser.CreateArgsObj` | core/field_bezier.js:32-46 | the loop computes `Parse`; a non-string gives `{}`; the keys are exactly the segments' first `:`-pieces; each key holds the value of the last segment with that key |
| `ArgsParser.FillKeys` | core/field_bezier.js:39-42 | after the `forEach`, the dictionary's key set is exactly the set of the segments' keys |
| `ArgsParser.FillLastWins` | core/field_bezier.js:39-42 | the value under a key is the value of the last segment with that key, since later segments overwrite earlier ones |
| `ArgsParser.ParseLookup` | core/field_bezier.js:37-42 | every parsed key comes from some segment, and its value comes from the last segment with that key |
| `ArgsParser.ParseNonString` | core/field_bezier.js:33-35 | an argument that is not a string gives the empty dictionary |
| `ArgsParser.SegmentWithoutColon` | core/field_bezier.js:40-41 | a segment's value is `true` if and only if it has no `:`, and then its key is the whole segment |
| `ArgsParser.SegmentWithColon` | core/field_bezier.js:40-41 | with its first `:` at `i`, a segment's key is the text before `i`, and its value is the string between that `:` and the next `:` or the end |
| `ArgsParser.ParseStringNonEmpty` | core/field_bezier.js:37-42 | every string argument, `""` included, gives at least one key: the first segment's key |
| `ArgsParser.ParseEmptyString` | core/field_bezier.js:37-41 | `""` parses to `{"": true}` |
| `ArgsParser.ParseExample` | core/field_bezier.js:37-42 | `"a;b:c;d"` parses to `{a: true, b: "c", d: true}` |
| `ArgsParser.ParseDuplicateKey` | core/field_bezier.js:39-42 | `"a:1;a:2"` parses to `{a: "2"}`: the later segment wins |
| `ArgsParser.ParseTrailingSemicolon` | core/field_bezier.js:37-41 | `"a;"` parses to `{a: true, "": true}` |
| `ArgsParser.ParseColonEdgeCases` | core/field_bezier.js:40-41 | `"a:"` gives `{a: ""}` rather than `true`, and `"a:b:c"` gives `{a: "b"}` |
| `ArgsParser.ParseCurveOnly` | core/field_bezier.js:37-41 | `"curveOnly"` parses to `{curveOnly: true}` |
| `ChangeNotifier.InitialValid` | core/field_bezier.js:28 | a new field is idle: the flag is false and no callback is scheduled |
| `ChangeNotifier.RaiseSpec` | core/field_bezier.js:242-248 | after a notification the flag is set and exactly one callback is pending; a notification while pending changes nothing; nothing is fired yet |
| `ChangeNotifier.RaiseIdempotent` | core/field_bezier.js:242-244 | a second notification before the callback runs is a no-op |
| `ChangeNotifier.FireSpec` | core/field_bezier.js:245-247 | the callback clears the flag, leaves nothing pending and appends exactly one change carrying the points at fire time |
| `ChangeNotifier.StepValid` | core/field_bezier.js:240-250 | every notification and every timer callback keeps the invariant "flag set exactly while one callback is pending" |
| `ChangeNotifier.RunAppend` | core/field_bezier.js:240-250 | running two traces one after the other is running their concatenation |
| `ChangeNotifier.RunValid` | core/field_bezier.js:240-250 | over any trace at most one callback is pending, the event log only grows, and every new event is a `'field'` change of this field with old value `''` |
| `ChangeNotifier.FiredAtMostNotified` | core/field_bezier.js:240-250 | events fired plus callbacks pending never exceed the notifications received (plus what was already pending at the start) |
| `ChangeNotifier.BurstIsOneRaise` | core/field_bezier.js:242-244 | any non-empty burst of notifications has the effect of a single one |
| `ChangeNotifier.OneWindow` | core/field_bezier.js:240-250 | `k >= 1` notifications, then the delay, fire exactly one event carrying the points at fire time, and leave the field idle; intermediate states are dropped |
| `ChangeNotifier.TwoWindows` | core/field_bezier.js:240-250 | notifications separated by an elapsed delay fire two events, one per window, in order |
| `FieldBezierField.FieldBezier.constructor` | core/field_bezier.js:23-29 | options are parsed once into `args`; no points are stored; the flag starts false with nothing pending and no event fired |
| `FieldBezierField.FieldBezier.GetValue` | core/field_bezier.js:76-78 | returns the stored `points` attribute, `None` while it was never set |
| `FieldBezierField.FieldBezier.SetValue` | core/field_bezier.js:84-86 | stores the string verbatim, so a following `GetValue` returns it; only `points` changes |
| `FieldBezierField.FieldBezier.Init` | core/field_bezier.js:51-55 | storing the current value again leaves a stored value unchanged; with none stored, the DOM stores the string `"null"` |
| `FieldBezierField.FieldBezier.GetText` | core/field_bezier.js:92-100 | the collapsed-block text is the constant `"getText"`, whatever the points are |
| `FieldBezierField.FieldBezier.RaiseChangeEvent` | core/field_bezier.js:240-250 | while idle, sets the flag and schedules one callback; while pending, changes nothing; the new state is `Raise` of the old one |
| `FieldBezierField.FieldBezier.TimerFire` | core/field_bezier.js:245-248 | clears the flag and appends one `Change('field', name, '', points)` to the event log; the new state is `Fire` of the old one |

## Left out

- The localization tables `msg/js/fr.js` and `msg/js/tlh.js` hold only string constants. They have no logic.
- `showEditor_` (core/field_bezier.js:106-238) is left out. Its live part shows the widget container and calls `CurveEditor.Show`, which is not part of this model. The rest of its body is commented out.
- `dispose` and `widgetDispose_` (core/field_bezier.js:67-70, 256-260) are left out. They only call the host framework's widget and event-listener services.
- In `init`, the base-class `init` and the border styling (core/field_bezier.js:52-53) are rendering, and are left out.
- In the constructor, the placeholder text (`setText`, core/field_bezier.js:27) and the validator argument are left out. Both belong to the base class `Blockly.Field`, which is not part of this model.
- FieldBezierField.FieldBezier.constructor: leaves `points` as `None`. The base-class constructor `Blockly.Field` is not part of this model. The question matters because line 25 creates `valueDiv` before line 26 calls the base constructor with `''`. That order would only matter if the base constructor called the overridden `setValue`. If it does, `getValue()` returns `""` right after construction, not `null`.
- The field's name is a constructor parameter. In the host framework, the block assigns the name when the field is appended.
- The event's source block (`self.sourceBlock_`) is not part of `ChangeEvent`. The host framework owns it.
- The 100 ms delay and wall-clock time are not modelled. Only the order of calls and timer callbacks is: a callback runs at some later step.
- The `Curve` collaborator and `getPointsJson` are foreign code. The points string is an opaque parameter of `TimerFire` and of `Elapse`.
- The constants `CURSOR` and `SharedCanvas` (core/field_bezier.js:57-62) are not used by any logic here.
- `SetValue` takes only strings. JavaScript coerces other values given to `setAttribute` to strings, and that coercion is modelled only for the `null` that `Init` passes on.
- Object-key quirks such as the key `__proto__` are not modelled. The dictionary is a plain `map`.
- RaiseChangeEvent: the `curve` argument (core/field_bezier.js:240) is not modelled. The callback reads `getPointsJson()` from the curve passed to the call that opened the window. A curve passed by a later call in the same window is ignored. In the model, the points are the opaque argument of `TimerFire`.
