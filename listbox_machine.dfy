/** The list-box element as a value: its state record, the `open` attribute,
    everything it renders, where it moved focus, the events it dispatched and
    the timer callbacks it scheduled. Each handler of the element is a
    function from one such value to the next; the class in ListBoxElement
    is proved to follow these functions. */
module ListBoxMachine {
  import opened ListBoxState

  /** Where focus is: the toggle button, one of the options, or elsewhere. */
  datatype Focus = Toggle | OptionAt(index: nat) | Outside

  /** The keys `handleKeys` distinguishes; every other key is `OtherKey`. */
  datatype Key = Space | Escape | Tab | ArrowUp | ArrowDown | OtherKey

  datatype EventType = Ready | Change | Destroy

  /** A dispatched `CustomEvent`: its type and its `detail.value`. */
  datatype Event = Event(kind: EventType, value: Option<string>)

  /** A `setTimeout(…, 0)` callback waiting to run: focusing the option the
      list was opened on, or dispatching `change`. */
  datatype Task = FocusElement(element: Option<nat>) | DispatchChange

  datatype Widget = Widget(
    options: seq<OptionEl>,
    state: State,
    openAttr: Option<string>,   // the `open` attribute, None when absent
    ariaExpanded: bool,         // on the toggle
    toggleText: string,         // the toggle-value span
    ariaSelected: seq<bool>,    // one flag per option
    focus: Focus,
    events: seq<Event>,
    pending: seq<Task>,         // timer callbacks, oldest first
    listening: bool,            // the event listeners are attached
    aborted: bool)              // the AbortController has been aborted

  /** A freshly constructed element with the given options and `open`
      attribute: the upgrade reports the attribute through the callback. */
  function Created(options: seq<OptionEl>, openAttr: Option<string>): Widget {
    var w := Widget(options, Initial, openAttr, false, "", seq(|options|, _ => false),
                    Outside, [], [], false, false);
    AfterAttributeChange(w, None, openAttr)
  }

  /** The `isOpen` flag after the `open` attribute changed from `oldValue`
      to `newValue`: it flips when the attribute appears or disappears. */
  function OpenAfterChange(isOpen: bool, oldValue: Option<string>, newValue: Option<string>): bool {
    if oldValue.Some? != newValue.Some? then !isOpen else isOpen
  }

  /** `attributeChangedCallback('open', oldValue, newValue)`. */
  function AfterAttributeChange(w: Widget, oldValue: Option<string>, newValue: Option<string>): Widget {
    if oldValue == newValue then w
    else w.(state := w.state.(isOpen := OpenAfterChange(w.state.isOpen, oldValue, newValue)))
  }

  /** `attributeChangedCallback` as written in src/ListBox.js: any change of the
      attribute's value flips the flag, also one that keeps it present. */
  function AfterAttributeChangeAsWritten(w: Widget, oldValue: Option<string>, newValue: Option<string>): Widget {
    if oldValue == newValue then w
    else w.(state := w.state.(isOpen := !w.state.isOpen))
  }

  /** `setAttribute('open', v)`: the callback runs on every set, also when
      the value stays the same. */
  function SetOpenAttr(w: Widget, v: string): Widget {
    AfterAttributeChange(w.(openAttr := Some(v)), w.openAttr, Some(v))
  }

  /** `removeAttribute('open')`: the callback runs only when there was an
      attribute to remove. */
  function RemoveOpenAttr(w: Widget): Widget {
    if w.openAttr.None? then w
    else AfterAttributeChange(w.(openAttr := None), w.openAttr, None)
  }

  /** `handleOpen` */
  function Opened(w: Widget): Widget {
    var w1 := SetOpenAttr(w, "").(ariaExpanded := true);
    if w.state.firstRender then w1
    else w1.(pending := w1.pending + [FocusElement(w.state.element)])
  }

  /** `handleClose` */
  function Closed(w: Widget): Widget {
    RemoveOpenAttr(w).(ariaExpanded := false, focus := Toggle)
  }

  /** `handleToggle` */
  function Toggled(w: Widget): Widget {
    if w.state.isOpen then Closed(w) else Opened(w)
  }

  /** The `ariaSelected` flags `render` writes: true exactly for `element`. */
  function SelectionFlags(n: nat, element: Option<nat>): seq<bool> {
    seq(n, k => element == Some(k))
  }

  /** The text `render` puts on the toggle. */
  function DisplayText(s: State): string {
    if Truthy(s.placeholder) && s.firstRender then s.placeholder.value else s.name
  }

  /** `render` */
  function Rendered(w: Widget): Widget {
    w.(toggleText := DisplayText(w.state),
       ariaSelected := SelectionFlags(|w.options|, w.state.element),
       state := Merge(w.state, RenderedPatch))
  }

  /** `handleSelect(target, () => this.render())`: a null target does
      nothing; otherwise the option becomes current, the element renders and
      closes, and a `change` dispatch is scheduled. */
  function Selected(w: Widget, target: Option<nat>): Widget
    requires target.Some? ==> target.value < |w.options|
  {
    if target.None? then w
    else
      var i := target.value;
      var w1 := Rendered(w.(state := Merge(w.state, SelectionPatch(w.options[i], i))));
      var w2 := Closed(w1);
      w2.(pending := w2.pending + [DispatchChange])
  }

  /** `handleKeys` for a key pressed while `active` has focus (it is also the
      event's target); the boolean says whether `preventDefault` was called.
      An arrow key focuses the neighbouring option, which takes effect only
      while the list is shown, that is while `open` is present. */
  function AfterKey(w: Widget, key: Key, active: Focus): (Widget, bool)
    requires active.OptionAt? ==> active.index < |w.options|
  {
    var prevent := key != OtherKey && w.state.isOpen;
    var next :=
      match key
      case Space =>
        if active == Toggle then Toggled(w)
        else if active.OptionAt? then Selected(w, Some(active.index))
        else w
      case Escape => Closed(w)
      case Tab => Closed(w)
      case ArrowUp =>
        if active.OptionAt? && active.index != 0 && w.openAttr.Some? then w.(focus := OptionAt(active.index - 1))
        else w
      case ArrowDown =>
        if active.OptionAt? && active.index != |w.options| - 1 && w.openAttr.Some? then w.(focus := OptionAt(active.index + 1))
        else w
      case OtherKey => w;
    (next, prevent)
  }

  /** `handleElementFocusLoss`, with the event's `relatedTarget` reduced to
      whether it lies inside the element. */
  function AfterFocusLoss(w: Widget, relatedInside: bool): Widget {
    if !relatedInside && w.state.isOpen then Closed(w) else w
  }

  /** `dispatch(eventType)`: the payload is the state's value at dispatch time. */
  function Dispatched(w: Widget, kind: EventType): Widget {
    w.(events := w.events + [Event(kind, w.state.value)])
  }

  /** The oldest scheduled timer callback runs. Focusing an option only
      takes effect while the list is shown, which the stylesheet ties to the
      `open` attribute; focusing a null element throws inside the callback.
      Neither changes anything else. */
  function AfterTask(w: Widget): Widget
    requires w.pending != []
  {
    var w1 := w.(pending := w.pending[1..]);
    match w.pending[0]
    case FocusElement(e) => if e.Some? && w.openAttr.Some? then w1.(focus := OptionAt(e.value)) else w1
    case DispatchChange => Dispatched(w1, Change)
  }

  /** The shadow markup `connectedCallback` writes first, on every
      connection: a new toggle with `aria-expanded="false"` and an empty
      value span. Focus on the replaced toggle is lost with it. */
  function Remounted(w: Widget): Widget {
    w.(ariaExpanded := false, toggleText := "", focus := if w.focus == Toggle then Outside else w.focus)
  }

  /** `connectedCallback`: the markup, `setInitialState`, then `handleOpen`
      when open, then the listeners (not attached once the controller is
      aborted), then the `render` and `ready` dispatch of the queued
      microtask, which runs before any other handler can. `None`:
      `setInitialState` threw, after the markup was written, so the element
      is left as `Remounted(w)`. */
  function Connected(w: Widget, initialValue: Option<string>, placeholder: Option<string>): Option<Widget> {
    Mounted(Remounted(w), initialValue, placeholder)
  }

  /** The rest of `connectedCallback`, once the markup is written. */
  function Mounted(w: Widget, initialValue: Option<string>, placeholder: Option<string>): Option<Widget> {
    match Initialized(w.state, w.options, initialValue, placeholder, w.openAttr.Some?)
    case None => None
    case Some(s) =>
      var w1 := w.(state := s);
      var w2 := if s.isOpen then Opened(w1) else w1;
      var w3 := Rendered(w2.(listening := !w2.aborted));
      Some(Dispatched(w3, Ready))
  }

  /** `disconnectedCallback`: abort the listeners, dispatch `destroy`. */
  function Disconnected(w: Widget): Widget {
    Dispatched(w.(listening := false, aborted := true), Destroy)
  }

  // ---------------------------------------------------------------------
  // Properties of single transitions
  // ---------------------------------------------------------------------

  /** `isOpen` agrees with the presence of the `open` attribute. */
  predicate OpenInSync(w: Widget) {
    w.state.isOpen == w.openAttr.Some?
  }

  /** Any change of the attribute keeps the flag in agreement with it, and a
      callback whose old and new values are equal changes nothing. */
  lemma AttributeChangeKeepsSync(w: Widget, newValue: Option<string>)
    requires OpenInSync(w)
    ensures OpenInSync(AfterAttributeChange(w.(openAttr := newValue), w.openAttr, newValue))
    ensures AfterAttributeChange(w, newValue, newValue) == w
  {
  }

  /** The callback as written loses that agreement whenever a present `open`
      attribute is given a different value, while the corrected callback
      keeps it: `<list-box open="open">`, which `connectedCallback` opens
      with `setAttribute('open', '')`, ends with the attribute present and
      `isOpen` false. */
  lemma AsWrittenLosesSync(w: Widget, v: string, u: string)
    requires OpenInSync(w) && w.openAttr == Some(v) && u != v
    ensures var r := AfterAttributeChangeAsWritten(w.(openAttr := Some(u)), Some(v), Some(u));
            r.openAttr == Some(u) && !r.state.isOpen && !OpenInSync(r)
    ensures var c := AfterAttributeChange(w.(openAttr := Some(u)), Some(v), Some(u));
            c.openAttr == Some(u) && c.state.isOpen && OpenInSync(c)
  {
  }

  /** The same mount written out: an element declared `open="open"` with one
      option is open after the upgrade callback, and the callback as
      written, run for `handleOpen`'s `setAttribute('open', '')`, clears the
      flag while the attribute stays. */
  lemma AsWrittenMountCounterexample()
    ensures var up := AfterAttributeChangeAsWritten(
                        Widget([OptionEl("A", None)], Initial, Some("open"), false, "", [false],
                               Outside, [], [], false, false), None, Some("open"));
            var afterOpen := AfterAttributeChangeAsWritten(up.(openAttr := Some("")), Some("open"), Some(""));
            up.state.isOpen && afterOpen.openAttr == Some("") && !afterOpen.state.isOpen
  {
  }

  /** `handleOpen` leaves the list open with the attribute present and
      `ariaExpanded` true; an open that repeats changes no state; the
      delayed focus of the current option is scheduled only after the first
      render. */
  lemma OpenedOpens(w: Widget)
    requires OpenInSync(w)
    ensures var r := Opened(w);
      && r.state == w.state.(isOpen := true)
      && r.openAttr == Some("") && r.ariaExpanded
      && r.focus == w.focus && r.events == w.events && r.ariaSelected == w.ariaSelected
      && r.pending == w.pending + (if w.state.firstRender then [] else [FocusElement(w.state.element)])
  {
  }

  /** `handleClose` leaves the list closed without the attribute, with
      `ariaExpanded` false and focus on the toggle, and changes nothing else
      (a close of a closed list included). */
  lemma ClosedCloses(w: Widget)
    requires OpenInSync(w)
    ensures var r := Closed(w);
      && r.state == w.state.(isOpen := false)
      && r.openAttr == None && !r.ariaExpanded && r.focus == Toggle
      && r.events == w.events && r.pending == w.pending && r.ariaSelected == w.ariaSelected
      && r.toggleText == w.toggleText && r.options == w.options
  {
  }

  /** `handleToggle` opens a closed list and closes an open one; toggling
      twice restores the open flag, the attribute's presence and the state. */
  lemma ToggleTwiceRestores(w: Widget)
    requires OpenInSync(w)
    ensures Toggled(w).state.isOpen == !w.state.isOpen
    ensures OpenInSync(Toggled(w))
    ensures Toggled(Toggled(w)).state == w.state
    ensures Toggled(Toggled(w)).openAttr.Some? == w.openAttr.Some?
  {
    if w.state.isOpen {
      ClosedCloses(w);
      OpenedOpens(Closed(w));
    } else {
      OpenedOpens(w);
      ClosedCloses(Opened(w));
    }
  }

  /** Opening and then closing without choosing an option keeps the chosen
      option, its name and its value. */
  lemma OpenThenCloseKeepsSelection(w: Widget)
    requires OpenInSync(w) && !w.state.isOpen
    ensures Closed(Opened(w)).state == w.state
    ensures Closed(Opened(w)).events == w.events
  {
    OpenedOpens(w);
    ClosedCloses(Opened(w));
  }

  /** The number of options marked selected. */
  function CountSelected(flags: seq<bool>): nat {
    if flags == [] then 0
    else CountSelected(flags[..|flags| - 1]) + (if flags[|flags| - 1] then 1 else 0)
  }

  /** `render` marks exactly one option when `element` is one of them, and
      none otherwise. */
  lemma {:induction false} SelectionFlagsCount(n: nat, element: Option<nat>)
    ensures |SelectionFlags(n, element)| == n
    ensures CountSelected(SelectionFlags(n, element)) == if element.Some? && element.value < n then 1 else 0
  {
    if n > 0 {
      var flags := SelectionFlags(n, element);
      assert flags[..n - 1] == SelectionFlags(n - 1, element);
      SelectionFlagsCount(n - 1, element);
    }
  }

  /** After `render` exactly one option, the state's `element`, is marked
      selected; the toggle shows the placeholder only when one is set and
      this is the first render, and the name otherwise; `firstRender` is
      false afterwards, so a second render shows the name and any further
      render changes nothing. */
  lemma RenderedShows(w: Widget)
    requires w.state.element.Some? && w.state.element.value < |w.options|
    ensures var r := Rendered(w);
      && |r.ariaSelected| == |w.options|
      && CountSelected(r.ariaSelected) == 1
      && r.ariaSelected[w.state.element.value]
      && (Truthy(w.state.placeholder) && w.state.firstRender ==> r.toggleText == w.state.placeholder.value)
      && (!(Truthy(w.state.placeholder) && w.state.firstRender) ==> r.toggleText == w.state.name)
      && !r.state.firstRender
      && r.state.(firstRender := w.state.firstRender) == w.state
      && Rendered(r) == r.(toggleText := w.state.name)
      && Rendered(Rendered(r)) == Rendered(r)
  {
    SelectionFlagsCount(|w.options|, w.state.element);
  }

  /** `handleSelect` with a null target changes nothing. With option `i` it
      makes `i` current with its text and value, marks only `i`, shows its
      text (after the first render), closes the list, moves focus to the
      toggle and schedules exactly one `change` dispatch; the placeholder
      is untouched. */
  lemma SelectedCommits(w: Widget, i: nat)
    requires i < |w.options| && OpenInSync(w) && !w.state.firstRender
    ensures Selected(w, None) == w
    ensures var r := Selected(w, Some(i));
      && r.state.name == w.options[i].text
      && r.state.value == w.options[i].value
      && r.state.element == Some(i)
      && r.state.placeholder == w.state.placeholder
      && !r.state.isOpen && r.openAttr == None && !r.ariaExpanded
      && r.focus == Toggle
      && r.toggleText == w.options[i].text
      && CountSelected(r.ariaSelected) == 1 && r.ariaSelected[i]
      && r.events == w.events
      && r.pending == w.pending + [DispatchChange]
  {
    var w1 := w.(state := Merge(w.state, SelectionPatch(w.options[i], i)));
    RenderedShows(w1);
    ClosedCloses(Rendered(w1));
  }

  /** When nothing else was scheduled, the timer after a commit dispatches
      one `change` event carrying the chosen option's value. */
  lemma SelectThenTimerDispatchesChange(w: Widget, i: nat)
    requires i < |w.options| && w.pending == []
    ensures Selected(w, Some(i)).pending == [DispatchChange]
    ensures AfterTask(Selected(w, Some(i))).events == w.events + [Event(Change, w.options[i].value)]
    ensures AfterTask(Selected(w, Some(i))).pending == []
  {
  }

  /** The `change` payload is read when the timer fires: two commits before
      the timers run dispatch two `change` events, both carrying the value
      of the second option chosen. */
  lemma DeferredChangeCarriesLatestValue(w: Widget, i: nat, j: nat)
    requires i < |w.options| && j < |w.options| && w.pending == []
    ensures var twice := Selected(Selected(w, Some(i)), Some(j));
      && twice.pending == [DispatchChange, DispatchChange]
      && AfterTask(AfterTask(twice)).events
         == w.events + [Event(Change, w.options[j].value), Event(Change, w.options[j].value)]
  {
  }

  /** `preventDefault` is called exactly when the list is open and the key
      is Space, Escape, Tab, ArrowUp or ArrowDown. */
  lemma KeysPreventDefault(w: Widget, key: Key, active: Focus)
    requires active.OptionAt? ==> active.index < |w.options|
    ensures AfterKey(w, key, active).1 <==>
            w.state.isOpen && key in {Space, Escape, Tab, ArrowUp, ArrowDown}
  {
  }

  /** ArrowUp on the first option and ArrowDown on the last change nothing;
      from any other option of a shown list they move focus by exactly one
      position and change nothing else; while the list is hidden they
      change nothing. */
  lemma ArrowNavigation(w: Widget, i: nat)
    requires i < |w.options|
    ensures AfterKey(w, ArrowUp, OptionAt(0)).0 == w
    ensures AfterKey(w, ArrowDown, OptionAt(|w.options| - 1)).0 == w
    ensures i > 0 && w.openAttr.Some? ==> AfterKey(w, ArrowUp, OptionAt(i)).0 == w.(focus := OptionAt(i - 1))
    ensures i + 1 < |w.options| && w.openAttr.Some? ==>
              AfterKey(w, ArrowDown, OptionAt(i)).0 == w.(focus := OptionAt(i + 1))
    ensures w.openAttr.None? ==>
              AfterKey(w, ArrowUp, OptionAt(i)).0 == w && AfterKey(w, ArrowDown, OptionAt(i)).0 == w
  {
  }

  /** Escape and Tab close the list, from any focus, and a closed list stays
      closed. */
  lemma EscapeAndTabClose(w: Widget, key: Key, active: Focus)
    requires key == Escape || key == Tab
    requires active.OptionAt? ==> active.index < |w.options|
    requires OpenInSync(w)
    ensures AfterKey(w, key, active).0 == Closed(w)
    ensures !AfterKey(w, key, active).0.state.isOpen
    ensures AfterKey(w, key, active).0.focus == Toggle
  {
    ClosedCloses(w);
  }

  /** Focus loss closes the list exactly when it is open and focus went
      outside the element; otherwise nothing changes. */
  lemma FocusLossClosesOnlyWhenLeaving(w: Widget, relatedInside: bool)
    requires OpenInSync(w)
    ensures AfterFocusLoss(w, relatedInside).state.isOpen == (w.state.isOpen && relatedInside)
    ensures relatedInside || !w.state.isOpen ==> AfterFocusLoss(w, relatedInside) == w
    ensures !relatedInside && w.state.isOpen ==> AfterFocusLoss(w, relatedInside).focus == Toggle
  {
    if !relatedInside && w.state.isOpen {
      ClosedCloses(w);
    }
  }

  // ---------------------------------------------------------------------
  // Whole runs: the invariant every handler keeps after mounting
  // ---------------------------------------------------------------------

  /** What the host can do to a mounted element. */
  datatype Input =
    | ToggleMouseDown                       // mousedown on the toggle
    | ListMouseUp(target: Option<nat>)      // mouseup in the list; the enclosing option, if any
    | KeyDown(key: Key, active: Focus)      // keydown inside the shadow root
    | FocusOut(relatedInside: bool)         // focusout from the element
    | HostSetsOpen(openValue: string)       // the page sets the `open` attribute
    | HostRemovesOpen                       // the page removes it
    | TimerFires                            // the oldest scheduled callback runs
    | Connect(initialValue: Option<string>, placeholder: Option<string>)
    | Disconnect

  predicate ValidInput(n: nat, input: Input) {
    match input
    case ListMouseUp(t) => t.Some? ==> t.value < n
    case KeyDown(_, a) => a.OptionAt? ==> a.index < n
    case _ => true
  }

  /** One input; listener-driven inputs do nothing unless the listeners
      are attached. */
  function Step(w: Widget, input: Input): (r: Widget)
    requires ValidInput(|w.options|, input)
    ensures r.options == w.options
  {
    match input
    case ToggleMouseDown => if w.listening then Toggled(w) else w
    case ListMouseUp(t) => if w.listening && t.Some? then Selected(w, t) else w
    case KeyDown(k, a) => if w.listening then AfterKey(w, k, a).0 else w
    case FocusOut(inside) => if w.listening then AfterFocusLoss(w, inside) else w
    case HostSetsOpen(v) => SetOpenAttr(w, v)
    case HostRemovesOpen => RemoveOpenAttr(w)
    case TimerFires => if w.pending != [] then AfterTask(w) else w
    case Connect(iv, ph) =>
      var c := Connected(w, iv, ph);
      if c.Some? then c.value else Remounted(w)
    case Disconnect => Disconnected(w)
  }

  /** A sequence of inputs, one after the other. */
  function Run(w: Widget, inputs: seq<Input>): (r: Widget)
    requires forall k :: 0 <= k < |inputs| ==> ValidInput(|w.options|, inputs[k])
    ensures r.options == w.options
    decreases |inputs|
  {
    if inputs == [] then w else Run(Step(w, inputs[0]), inputs[1..])
  }

  /** What any element with options keeps whatever it does: `isOpen`
      agrees with the `open` attribute, and focus, and every scheduled
      focus, is on a real option when on one. */
  ghost predicate Mountable(w: Widget) {
    && |w.options| > 0
    && OpenInSync(w)
    && (w.focus.OptionAt? ==> w.focus.index < |w.options|)
    && (forall t :: t in w.pending && t.FocusElement? ==>
          t.element.Some? && t.element.value < |w.options|)
  }

  /** The invariant of a mounted element: besides the above, the chosen
      option is among the options and is the only one marked selected, and
      the placeholder phase is over. */
  ghost predicate Inv(w: Widget) {
    && Mountable(w)
    && w.state.element.Some? && w.state.element.value < |w.options|
    && w.ariaSelected == SelectionFlags(|w.options|, w.state.element)
    && !w.state.firstRender
  }

  lemma OpenedKeepsMountable(w: Widget)
    requires Mountable(w)
    requires w.state.element.Some? && w.state.element.value < |w.options|
    ensures Mountable(Opened(w))
  {
    OpenedOpens(w);
    var r := Opened(w);
    forall t | t in r.pending && t.FocusElement?
      ensures t.element.Some? && t.element.value < |w.options|
    {
      if t !in w.pending {
        assert t == FocusElement(w.state.element);
      }
    }
  }

  lemma OpenedKeepsInv(w: Widget)
    requires Inv(w)
    ensures Inv(Opened(w))
  {
    OpenedKeepsMountable(w);
  }

  /** `connectedCallback` on an element with options succeeds and leaves
      it mounted. */
  lemma InitializedMounts(s: State, options: seq<OptionEl>, iv: Option<string>,
                          ph: Option<string>, hasOpen: bool)
    requires |options| > 0 && s.isOpen == hasOpen
    ensures Initialized(s, options, iv, ph, hasOpen).Some?
    ensures var r := Initialized(s, options, iv, ph, hasOpen).value;
      r.element.Some? && r.element.value < |options| && r.isOpen == hasOpen
  {
    InitializedChoosesOption(s, options, iv, ph, hasOpen);
  }

  /** `render` completes the invariant of an element whose chosen option exists. */
  lemma RenderedMounts(w: Widget)
    requires Mountable(w) && w.state.element.Some? && w.state.element.value < |w.options|
    ensures Inv(Rendered(w)) && Inv(Dispatched(Rendered(w), Ready))
  {
    var r := Rendered(w);
    assert r.pending == w.pending && r.focus == w.focus && r.openAttr == w.openAttr;
    assert r.state.isOpen == w.state.isOpen;
    assert Mountable(r);
  }

  /** `connectedCallback` on an element with options succeeds and leaves it
      mounted, reconnection included; the new toggle's `ariaExpanded` then
      agrees with `isOpen`. */
  lemma ConnectedKeepsInv(w: Widget, iv: Option<string>, ph: Option<string>)
    requires Mountable(w)
    ensures Connected(w, iv, ph).Some? && Inv(Connected(w, iv, ph).value)
    ensures Connected(w, iv, ph).value.ariaExpanded == Connected(w, iv, ph).value.state.isOpen
  {
    var w0 := Remounted(w);
    assert Mountable(w0) && !w0.ariaExpanded;
    MountedKeepsInv(w0, iv, ph);
  }

  lemma MountedKeepsInv(w: Widget, iv: Option<string>, ph: Option<string>)
    requires Mountable(w) && !w.ariaExpanded
    ensures Mounted(w, iv, ph).Some? && Inv(Mounted(w, iv, ph).value)
    ensures Mounted(w, iv, ph).value.ariaExpanded == Mounted(w, iv, ph).value.state.isOpen
  {
    var hasOpen := w.openAttr.Some?;
    InitializedMounts(w.state, w.options, iv, ph, hasOpen);
    var s := Initialized(w.state, w.options, iv, ph, hasOpen).value;
    var w1 := w.(state := s);
    var w2 := if s.isOpen then Opened(w1) else w1;
    var w3 := w2.(listening := !w2.aborted);
    assert Mountable(w3) && w3.state.element == s.element by {
      assert Mountable(w1);
      if s.isOpen {
        OpenedKeepsMountable(w1);
        OpenedOpens(w1);
      }
    }
    RenderedMounts(w3);
    assert Mounted(w, iv, ph) == Some(Dispatched(Rendered(w3), Ready));
  }

  /** Mounting an element that has options always succeeds and establishes
      the invariant; the `ready` event carries the chosen option's value. */
  lemma ConnectEstablishesInv(options: seq<OptionEl>, openAttr: Option<string>,
                              initialValue: Option<string>, placeholder: Option<string>)
    requires |options| > 0
    ensures Connected(Created(options, openAttr), initialValue, placeholder).Some?
    ensures var r := Connected(Created(options, openAttr), initialValue, placeholder).value;
      && Inv(r) && r.listening
      && r.state.isOpen == openAttr.Some?
      && r.events == [Event(Ready, r.state.value)]
      && r.state.value == options[r.state.element.value].value
  {
    var w := Created(options, openAttr);
    assert Mountable(w) && Remounted(w) == w;
    ConnectedKeepsInv(w, initialValue, placeholder);
    InitializedChoosesOption(w.state, options, initialValue, placeholder, openAttr.Some?);
    var s := Initialized(w.state, options, initialValue, placeholder, openAttr.Some?).value;
    var w1 := w.(state := s);
    var w2 := if s.isOpen then Opened(w1) else w1;
    if s.isOpen { OpenedOpens(w1); }
    RenderedShows(w2.(listening := !w2.aborted));
  }

  lemma ClosedKeepsInv(w: Widget)
    requires Inv(w)
    ensures Inv(Closed(w))
  {
    ClosedCloses(w);
  }

  lemma SelectedKeepsInv(w: Widget, t: Option<nat>)
    requires Inv(w) && (t.Some? ==> t.value < |w.options|)
    ensures Inv(Selected(w, t))
  {
    if t.Some? {
      var i := t.value;
      var w1 := Rendered(w.(state := Merge(w.state, SelectionPatch(w.options[i], i))));
      assert Inv(w1);
      ClosedKeepsInv(w1);
      var r := Selected(w, t);
      forall x | x in r.pending && x.FocusElement?
        ensures x.element.Some? && x.element.value < |w.options|
      {
        assert x in Closed(w1).pending;
      }
    }
  }

  lemma AfterTaskKeepsInv(w: Widget)
    requires Inv(w) && w.pending != []
    ensures Inv(AfterTask(w))
  {
    assert w.pending[0] in w.pending;
    forall x | x in w.pending[1..] ensures x in w.pending {
      var k :| 0 <= k < |w.pending[1..]| && w.pending[1..][k] == x;
      assert w.pending[k + 1] == x;
    }
  }

  /** Every input keeps the invariant. */
  lemma StepKeepsInv(w: Widget, input: Input)
    requires Inv(w) && ValidInput(|w.options|, input)
    ensures Inv(Step(w, input))
  {
    match input
    case ToggleMouseDown =>
      if w.listening {
        if w.state.isOpen { ClosedKeepsInv(w); } else { OpenedKeepsInv(w); }
      }
    case ListMouseUp(t) =>
      if w.listening && t.Some? { SelectedKeepsInv(w, t); }
    case KeyDown(k, a) =>
      if w.listening {
        match k
        case Space =>
          if a == Toggle {
            if w.state.isOpen { ClosedKeepsInv(w); } else { OpenedKeepsInv(w); }
          } else if a.OptionAt? {
            SelectedKeepsInv(w, Some(a.index));
          }
        case Escape => ClosedKeepsInv(w);
        case Tab => ClosedKeepsInv(w);
        case _ =>
      }
    case FocusOut(inside) =>
      if w.listening && !inside && w.state.isOpen { ClosedKeepsInv(w); }
    case HostSetsOpen(v) =>
    case HostRemovesOpen =>
    case TimerFires =>
      if w.pending != [] { AfterTaskKeepsInv(w); }
    case Connect(iv, ph) => ConnectedKeepsInv(w, iv, ph);
    case Disconnect =>
  }

  /** For every sequence of inputs after mounting, the invariant holds at
      the end: exactly one option is marked selected, the chosen one, and
      `isOpen` agrees with the `open` attribute. */
  lemma {:induction false} RunKeepsInv(w: Widget, inputs: seq<Input>)
    requires Inv(w)
    requires forall k :: 0 <= k < |inputs| ==> ValidInput(|w.options|, inputs[k])
    ensures Inv(Run(w, inputs))
    ensures CountSelected(Run(w, inputs).ariaSelected) == 1
    ensures Run(w, inputs).ariaSelected[Run(w, inputs).state.element.value]
    decreases |inputs|
  {
    if inputs == [] {
      SelectionFlagsCount(|w.options|, w.state.element);
    } else {
      StepKeepsInv(w, inputs[0]);
      RunKeepsInv(Step(w, inputs[0]), inputs[1..]);
    }
  }
}
