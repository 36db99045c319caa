# list-box: a verified model of the `ListBox` element

`ListBox` is a custom element (`<list-box>`) that works as a single-selection dropdown.
It has a toggle button and a list of slotted options. It tracks a small state record:
`name`, `value`, the chosen `element`, `isOpen`, `placeholder` and `firstRender`.
Its handlers react to a mousedown on the toggle, a mouseup in the list, keydown, focusout
and changes of the observed `open` attribute. `render` projects the state onto the toggle
text and one `ariaSelected` flag per option. A committed selection dispatches a `change`
event from a zero-delay timer.

The model has three files:

- `listbox_state.dfy` (module `ListBoxState`): options as `(text, value?)` records; the state
  record; the merging `state` setter (`Merge`); the label-or-value lookup (`FindOption`);
  and `setInitialState` as a function (`Initialized`).
- `listbox_machine.dfy` (module `ListBoxMachine`): the whole element as a value (`Widget`).
  It holds the state, the `open` attribute, `ariaExpanded`, the toggle text, the
  `ariaSelected` flags, the focus, the event log, the queue of pending timer callbacks and
  the listener flags. Every handler is a function from one `Widget` to the next.
  The module proves the properties of single handlers, and it proves an invariant kept by
  every sequence of host inputs after mounting (`RunKeepsInv`).
- `listbox.dfy` (module `ListBoxElement`): the class `ListBox`. Its fields are updated in
  place, and `render` writes an `array<bool>` in a loop. Each method is proved to move the
  object exactly as the matching `ListBoxMachine` function says (`View() == F(old(View()))`).

`attributeChangedCallback` as written flips `isOpen` on every change of the `open`
attribute's value (see Findings). `ListBoxMachine.AfterAttributeChangeAsWritten` models
that code. The rest of the model uses the corrected callback
(`ListBoxMachine.AfterAttributeChange`, `ListBox.AttributeChangedCallback`), which flips
the flag only when the attribute appears or disappears. `SetOpenAttr`, `Opened`, `Step`
and `Run`, and the class methods built on them, therefore describe the corrected element.

How the model treats the element's environment:

- Focus is `Toggle`, `OptionAt(i)` or `Outside`. A keydown carries the element that has focus,
  which is also the event's target. A focusout carries only whether its `relatedTarget` lies
  inside the element.
- `setTimeout` callbacks go into a FIFO queue. `RunNextTask` / `TimerFires` runs the oldest one.
  The `change` payload is read when that callback runs, not when the option is chosen.
- `connectedCallback` is one step. The model runs the markup, `setInitialState`, `handleOpen`,
  the listener setup and the microtask that renders and dispatches `ready` together, at the
  end of `Connect`. The source can give control back to the page at its `await`; see
  "## Left out".
- `setAttribute('open', v)` always calls the attribute callback, even when the value is
  unchanged. `removeAttribute('open')` calls it only when there was an attribute to remove.
- When the page sets or removes `open` itself, `isOpen` follows but `ariaExpanded` and focus
  do not. The model keeps this behaviour.

Some behaviours of the element that a reader may not expect; the model keeps them:

- Closing always focuses the toggle; no earlier focus target is remembered or restored.
- An option without a `value` attribute has a null value. The value does not fall back to the label.
- With no options, `setInitialState` throws at `options[0]`. `Connect` then fails. The
  shadow markup was already rewritten, so the toggle is fresh, but the state is unchanged.
- The mouseup and Space handlers do not check `isOpen`. While `open` is absent the list is
  hidden, so neither event normally reaches an option.
- Choosing the current option again is a full commit and dispatches `change` again.
- Arrow keys call `focus()` on a neighbouring option whether or not the list is open. While
  `open` is absent the options are hidden, so the call has no effect.
- Every connection rewrites the shadow markup. A reconnected element gets a fresh toggle with
  `aria-expanded="false"` and an empty text, and loses focus held by the old toggle.

## Model

| member | source | states |
|---|---|---|
| `ListBoxState.MergeKeepsUnnamed` | src/ListBox.js:42-44 | the `state` setter keeps each field the update does not name and takes the update's value for each field it names; an empty update changes nothing |
| `ListBoxState.MergeComposes` | src/ListBox.js:42-44 | two successive setter calls equal one merge of the combined update; repeating an update is idempotent |
| `ListBoxState.FindOption` | src/ListBox.js:165-167 | the result is the first option, in order, whose text or `value` attribute equals the key; none is returned only when no option matches |
| `ListBoxState.InitializedChoosesOption` | src/ListBox.js:150-189 | `setInitialState` fails exactly when there are no options; otherwise `element` is the first option matching a non-empty `initial-value`, or option 0; `name`/`value` come from that option; `isOpen` follows the `open` attribute; the placeholder comes only from a non-empty attribute |
| `ListBoxMachine.AttributeChangeKeepsSync` | src/ListBox.js:26-36 | a callback with equal old and new values changes nothing; any attribute change keeps `isOpen` equal to whether `open` is present (corrected callback, see Findings) |
| `ListBoxMachine.AsWrittenLosesSync` | src/ListBox.js:26-36 | for any present value `v` and any different value `u`, the callback as written run for `v` to `u` leaves the attribute present and `isOpen` false, breaking the agreement; the corrected callback leaves `isOpen` true |
| `ListBoxMachine.AsWrittenMountCounterexample` | src/ListBox.js:117-121 | concrete case: `open="open"` at mount, then `handleOpen`'s `setAttribute('open', '')`, leaves the attribute present and `isOpen` false |
| `ListBoxMachine.OpenedOpens` | src/ListBox.js:197-208 | `handleOpen` leaves the list open with `open=""` and `ariaExpanded` true, changes no other state, and queues the delayed focus of `element` only when `firstRender` is false (corrected callback, see Findings) |
| `ListBoxMachine.ClosedCloses` | src/ListBox.js:210-214 | `handleClose` leaves the list closed without the attribute, `ariaExpanded` false and focus on the toggle, and changes nothing else; closing a closed list changes no state |
| `ListBoxMachine.ToggleTwiceRestores` | src/ListBox.js:191-195 | `handleToggle` inverts `isOpen`; toggling twice restores the state and whether the attribute is present |
| `ListBoxMachine.OpenThenCloseKeepsSelection` | src/ListBox.js:197-214 | opening and then closing without a commit keeps `name`, `value` and `element` and dispatches nothing |
| `ListBoxMachine.SelectionFlagsCount` | src/ListBox.js:299-301 | the flags `render` writes mark exactly one option when `element` is one of the options, and none otherwise |
| `ListBoxMachine.RenderedShows` | src/ListBox.js:290-304 | after `render`, exactly one option (the `element`) is `ariaSelected`; the toggle shows the placeholder only if one is set and `firstRender` is true, else `name`; `firstRender` is false afterwards; the next render shows `name` and later renders change nothing |
| `ListBoxMachine.SelectedCommits` | src/ListBox.js:251-270 | a null target changes nothing; choosing option `i` sets name, value and element from it, marks only `i`, shows its text, closes the list, focuses the toggle, keeps the placeholder, and queues exactly one `change` dispatch |
| `ListBoxMachine.SelectThenTimerDispatchesChange` | src/ListBox.js:267-269 | with no other timer pending, the timer after a commit logs one `change` event carrying the chosen option's value |
| `ListBoxMachine.DeferredChangeCarriesLatestValue` | src/ListBox.js:280-288 | the `change` payload is read when the timer runs: two commits before the timers give two `change` events, both with the second value |
| `ListBoxMachine.KeysPreventDefault` | src/ListBox.js:217-222 | `preventDefault` is called exactly when the list is open and the key is Space, Escape, Tab, ArrowUp or ArrowDown |
| `ListBoxMachine.ArrowNavigation` | src/ListBox.js:240-247 | ArrowUp on the first option and ArrowDown on the last change nothing; from any other option of a shown list, focus moves by exactly one and nothing else changes; while `open` is absent the focus call has no effect |
| `ListBoxMachine.EscapeAndTabClose` | src/ListBox.js:234-239 | Escape and Tab run `handleClose` from any focus; the list ends closed with focus on the toggle |
| `ListBoxMachine.FocusLossClosesOnlyWhenLeaving` | src/ListBox.js:272-278 | focus loss closes the list exactly when it is open and the related target is outside; otherwise nothing changes |
| `ListBoxMachine.Step` | src/ListBox.js:123-137 | a single host input leaves the option list unchanged |
| `ListBoxMachine.Run` | src/ListBox.js:123-137 | a sequence of host inputs leaves the option list unchanged |
| `ListBoxMachine.ConnectedKeepsInv` | src/ListBox.js:107-142 | `connectedCallback` on an element with options succeeds and establishes the mounted invariant, reconnection included; the rewritten toggle's `ariaExpanded` ends equal to `isOpen` |
| `ListBoxMachine.ConnectEstablishesInv` | src/ListBox.js:107-142 | a freshly created element with options mounts: invariant established, listeners attached, `isOpen` equal to whether `open` is present, one `ready` event carrying the chosen option's value |
| `ListBoxMachine.OpenedKeepsInv` | src/ListBox.js:197-208 | `handleOpen` keeps the mounted invariant |
| `ListBoxMachine.ClosedKeepsInv` | src/ListBox.js:210-214 | `handleClose` keeps the mounted invariant |
| `ListBoxMachine.SelectedKeepsInv` | src/ListBox.js:251-270 | `handleSelect` keeps the mounted invariant |
| `ListBoxMachine.AfterTaskKeepsInv` | src/ListBox.js:204-206 | running a queued timer callback keeps the mounted invariant |
| `ListBoxMachine.StepKeepsInv` | src/ListBox.js:191-278 | every handler and every attribute change keeps the mounted invariant (corrected callback, see Findings) |
| `ListBoxMachine.RunKeepsInv` | src/ListBox.js:290-304 | after any sequence of inputs, exactly one option is `ariaSelected` (the chosen one), and `isOpen` matches the `open` attribute (corrected callback, see Findings) |
| `ListBoxElement.ListBox.constructor` | src/ListBox.js:14-20 | a new element starts from the initial state, and the upgrade's callback for the `open` attribute has run |
| `ListBoxElement.ListBox.AttributeChangedCallback` | src/ListBox.js:26-36 | follows `AfterAttributeChange`, the corrected callback (see Findings) |
| `ListBoxElement.ListBox.SetState` | src/ListBox.js:42-44 | the new state is the merge of the old state and the update; nothing else changes |
| `ListBoxElement.ListBox.SetOpenAttribute` | src/ListBox.js:200 | sets the attribute and runs the callback with the old and new values |
| `ListBoxElement.ListBox.RemoveOpenAttribute` | src/ListBox.js:211 | removes the attribute and runs the callback only when one was present |
| `ListBoxElement.ListBox.SetInitialState` | src/ListBox.js:150-189 | fails, changing nothing, exactly when there are no options; otherwise its setter calls produce the state `Initialized` describes |
| `ListBoxElement.ListBox.Remount` | src/ListBox.js:63-105 | follows `Remounted`: a fresh toggle with `ariaExpanded` false and no text; focus on the old toggle is lost |
| `ListBoxElement.ListBox.Connect` | src/ListBox.js:62-143 | follows `Connected`: fresh markup, initial state, `handleOpen` when open, listeners, `render`, `ready`; when `setInitialState` throws, only the markup is rewritten |
| `ListBoxElement.ListBox.Disconnect` | src/ListBox.js:145-148 | aborts the listeners and logs `destroy` |
| `ListBoxElement.ListBox.HandleToggle` | src/ListBox.js:191-195 | follows `Toggled` |
| `ListBoxElement.ListBox.HandleOpen` | src/ListBox.js:197-208 | follows `Opened` (corrected callback, see Findings) |
| `ListBoxElement.ListBox.HandleClose` | src/ListBox.js:210-214 | follows `Closed` |
| `ListBoxElement.ListBox.HandleKeys` | src/ListBox.js:216-249 | follows `AfterKey`, returning whether `preventDefault` was called |
| `ListBoxElement.ListBox.HandleSelect` | src/ListBox.js:251-270 | follows `Selected` |
| `ListBoxElement.ListBox.HandleElementFocusLoss` | src/ListBox.js:272-278 | follows `AfterFocusLoss` |
| `ListBoxElement.ListBox.Dispatch` | src/ListBox.js:280-288 | appends the event type with the state's current `value` to the log |
| `ListBoxElement.ListBox.Render` | src/ListBox.js:290-304 | its loop writes `ariaSelected[k]` true exactly for the state's `element`; follows `Rendered` |
| `ListBoxElement.ListBox.RunNextTask` | src/ListBox.js:204-206 | runs the oldest timer callback: a delayed focus, which works only while the list is shown, or the `change` dispatch |
| `ListBoxElement.MountScenario` | src/ListBox.js:164-177 | options A, B, C with `initial-value` "B" mount with B chosen by its label, B shown, and `ready` carrying B's value |
| `ListBoxElement.SelectScenario` | src/ListBox.js:251-270 | open, choose C, run both timers: C shown and solely selected, list closed, focus on the toggle, one `change` carrying C's value |

## Left out

- ListBoxMachine.Connected: `connectedCallback` is modelled as one step, and `ListBox.Connect` follows it. The source gives control back to the page at the `await` of `setInitialState` (src/ListBox.js:107). A disconnect or a write of `open` made in that gap is not interleaved. For example, appending and at once removing an element dispatches `destroy` before `ready` in the source, while `Run` gives one order or the other, each with a different `destroy` payload. The `ready` microtask (src/ListBox.js:139-142) is likewise not interleaved with other handlers.
- ListBoxMachine.AfterTask: a delayed option focus that runs after the element was disconnected still moves `focus` in the model. In the source, `focus()` on an option of a detached element has no effect. Whether the element is in the document is not modelled; `aborted` stays set after a reconnection, so it cannot stand in.
- The shadow-DOM markup and stylesheet (src/ListBox.js:63-105) are left out, with two exceptions. The model keeps the rule that shows the list only while `open` is present, which limits when an option focus takes effect. It also keeps the fresh toggle each connection writes (`Remounted`).
- Listener wiring is reduced to the `Input` cases and the `listening`/`aborted` flags. This covers the `closest('[slot=listbox-option]')` resolution and the `AbortController` signal. The controller is created once and never renewed, so after a disconnect no listener is attached again.
- Each option's `tabIndex`, `role` and `value` property setup (src/ListBox.js:111-115) is left out. It only decorates attributes.
- Real timer and microtask timing is left out. Callbacks run in FIFO order only when the host fires them.
- `CustomEvent` construction and bubbling is left out. An event is a `(type, value)` entry in a log.
- `customElements.define` and the reflective `this[property] = newValue` write are left out.
- The unused `id` field of the state is left out.
- Focus moves made by the browser or the user are left out. `focus` records only the moves the element makes, and a keydown is told which element has focus.
- ListBoxMachine.AfterKey leaves the model unchanged for ArrowUp or ArrowDown while the toggle has focus. There the code moves focus to a sibling of the host element elsewhere on the page, or throws when there is none, and the page is not part of this model.
- Arrow navigation assumes the options are consecutive element siblings, as `previousElementSibling` / `nextElementSibling` need.
- An `ariaSelected` flag that has never been written counts as false.

## Findings

| source | as written | input that shows it | evidently intended | confidence | as-written member | corrected member |
|---|---|---|---|---|---|---|
| src/ListBox.js:26-36 | `attributeChangedCallback` flips `isOpen` on every change of the `open` attribute's value, even when the attribute stays present | `<list-box open="open">` with any options: the upgrade callback sets `isOpen` true; `connectedCallback` calls `handleOpen`, whose `setAttribute('open', '')` reports `"open"` to `""` and flips `isOpen` to false while the list stays shown; a toggle click then only re-sets `open=""` and can no longer close it | `isOpen` flips only when the attribute appears or disappears, so it always equals whether `open` is present | not executed; high | `ListBoxMachine.AsWrittenLosesSync` | `ListBoxMachine.AttributeChangeKeepsSync` |
