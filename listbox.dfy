/** The `ListBox` custom element as an object whose handlers update its
    fields in place. Every method is proved to move the element exactly as
    the corresponding function of ListBoxMachine says, so the properties
    proved there hold of the object. */
module ListBoxElement {
  import opened ListBoxState
  import opened ListBoxMachine

  class ListBox {
    /** The slotted options; they do not change while the element lives. */
    const options: seq<OptionEl>
    /** The `ariaSelected` flag of each option, written by `render`. */
    const ariaSelected: array<bool>

    var state: State
    var openAttr: Option<string>
    var ariaExpanded: bool
    var toggleText: string
    var focus: Focus
    var events: seq<Event>
    var pending: seq<Task>
    var listening: bool
    var aborted: bool

    ghost predicate Valid() {
      ariaSelected.Length == |options|
    }

    /** The element as a value. */
    ghost function View(): Widget
      reads this, ariaSelected
    {
      Widget(options, state, openAttr, ariaExpanded, toggleText, ariaSelected[..],
             focus, events, pending, listening, aborted)
    }

    /** `new ListBox()` on a host carrying `openAttr`, followed by the
        upgrade's `attributeChangedCallback` for that attribute. */
    constructor (options: seq<OptionEl>, openAttr: Option<string>)
      ensures Valid() && fresh(ariaSelected)
      ensures View() == Created(options, openAttr)
    {
      this.options := options;
      ariaSelected := new bool[|options|](_ => false);
      state := Initial;
      this.openAttr := openAttr;
      ariaExpanded := false;
      toggleText := "";
      focus := Outside;
      events := [];
      pending := [];
      listening := false;
      aborted := false;
      new;
      AttributeChangedCallback(None, openAttr);
    }

    /** `attributeChangedCallback('open', oldValue, newValue)`: the only
        place `isOpen` is written outside the `state` setter. */
    method AttributeChangedCallback(oldValue: Option<string>, newValue: Option<string>)
      modifies this
      ensures View() == AfterAttributeChange(old(View()), oldValue, newValue)
    {
      if oldValue == newValue {
        return;
      }
      if oldValue.Some? != newValue.Some? {
        state := state.(isOpen := !state.isOpen);
      }
    }

    /** The `state` setter: a shallow merge in which the fields the patch names win. */
    method SetState(patch: Patch)
      modifies this
      ensures View() == old(View()).(state := Merge(old(state), patch))
    {
      state := Merge(state, patch);
    }

    /** `setAttribute('open', v)`, with its synchronous callback. */
    method SetOpenAttribute(v: string)
      modifies this
      ensures View() == SetOpenAttr(old(View()), v)
    {
      var previous := openAttr;
      openAttr := Some(v);
      AttributeChangedCallback(previous, Some(v));
    }

    /** `removeAttribute('open')`, with its callback when there was one. */
    method RemoveOpenAttribute()
      modifies this
      ensures View() == RemoveOpenAttr(old(View()))
    {
      if openAttr.Some? {
        var previous := openAttr;
        openAttr := None;
        AttributeChangedCallback(previous, None);
      }
    }

    /** `setInitialState`, reading the `initial-value` and `placeholder`
        attributes it is given and the presence of `open`. It fails, changing
        nothing, when there is no option. */
    method SetInitialState(initialValue: Option<string>, placeholder: Option<string>) returns (ok: bool)
      modifies this
      ensures ok == (|options| > 0)
      ensures Initialized(old(state), options, initialValue, placeholder, old(openAttr).Some?)
              == (if ok then Some(state) else None)
      ensures !ok ==> state == old(state)
      ensures View() == old(View()).(state := state)
    {
      var isOpen := openAttr.Some?;
      if |options| == 0 {
        return false;
      }
      var defaults := DefaultPatch(options[0]);
      var found: Option<nat> := None;
      if Truthy(initialValue) {
        found := FindOption(options, initialValue.value, 0);
        if found.Some? {
          SetState(SelectionPatch(options[found.value], found.value));
        } else {
          SetState(defaults);
        }
      } else {
        SetState(defaults);
      }
      ghost var s1 := state;
      if isOpen {
        SetState(OpenPatch);
      }
      ghost var s2 := state;
      if Truthy(placeholder) {
        SetState(PlaceholderPatch(placeholder.value));
      }
      ok := true;
      assert s1 == if found.Some? then Merge(old(state), SelectionPatch(options[found.value], found.value))
                   else Merge(old(state), DefaultPatch(options[0]));
      assert s2 == if isOpen then Merge(s1, OpenPatch) else s1;
      InitializedSteps(old(state), options, initialValue, placeholder, isOpen, found, s1, s2, state);
    }

    /** The shadow markup written at the start of `connectedCallback`. */
    method Remount()
      modifies this
      ensures View() == Remounted(old(View()))
    {
      ariaExpanded := false;
      toggleText := "";
      if focus == Toggle {
        focus := Outside;
      }
    }

    /** `connectedCallback`, with the queued `render` and `ready` dispatch
        run at its end. */
    method Connect(initialValue: Option<string>, placeholder: Option<string>) returns (ok: bool)
      requires Valid()
      modifies this, ariaSelected
      ensures ok == (|options| > 0)
      ensures Connected(old(View()), initialValue, placeholder) == (if ok then Some(View()) else None)
      ensures !ok ==> View() == Remounted(old(View()))
    {
      Remount();
      ok := SetInitialState(initialValue, placeholder);
      if !ok {
        return;
      }
      if state.isOpen {
        HandleOpen();
      }
      listening := !aborted;
      Render();
      Dispatch(Ready);
    }

    /** `disconnectedCallback` */
    method Disconnect()
      modifies this
      ensures View() == Disconnected(old(View()))
    {
      listening := false;
      aborted := true;
      Dispatch(Destroy);
    }

    /** `handleToggle` */
    method HandleToggle()
      modifies this
      ensures View() == Toggled(old(View()))
    {
      if state.isOpen {
        HandleClose();
      } else {
        HandleOpen();
      }
    }

    /** `handleOpen` */
    method HandleOpen()
      modifies this
      ensures View() == Opened(old(View()))
    {
      var element, firstRender := state.element, state.firstRender;
      SetOpenAttribute("");
      ariaExpanded := true;
      if !firstRender {
        pending := pending + [FocusElement(element)];
      }
    }

    /** `handleClose` */
    method HandleClose()
      modifies this
      ensures View() == Closed(old(View()))
    {
      RemoveOpenAttribute();
      ariaExpanded := false;
      focus := Toggle;
    }

    /** `handleKeys` for `key` pressed while `active` has focus; returns
        whether `preventDefault` was called. */
    method HandleKeys(key: Key, active: Focus) returns (prevented: bool)
      requires Valid()
      requires active.OptionAt? ==> active.index < |options|
      modifies this, ariaSelected
      ensures (View(), prevented) == AfterKey(old(View()), key, active)
    {
      prevented := key != OtherKey && state.isOpen;
      match key
      case Space =>
        if active == Toggle {
          HandleToggle();
        } else if active.OptionAt? {
          HandleSelect(Some(active.index));
        }
      case Escape =>
        HandleClose();
      case Tab =>
        HandleClose();
      case ArrowUp =>
        if active.OptionAt? && active.index != 0 && openAttr.Some? {
          focus := OptionAt(active.index - 1);
        }
      case ArrowDown =>
        if active.OptionAt? && active.index != |options| - 1 && openAttr.Some? {
          focus := OptionAt(active.index + 1);
        }
      case OtherKey =>
    }

    /** `handleSelect(target, () => this.render())` */
    method HandleSelect(target: Option<nat>)
      requires Valid()
      requires target.Some? ==> target.value < |options|
      modifies this, ariaSelected
      ensures View() == Selected(old(View()), target)
    {
      if target.None? {
        return;
      }
      var i := target.value;
      SetState(SelectionPatch(options[i], i));
      Render();
      HandleClose();
      pending := pending + [DispatchChange];
    }

    /** `handleElementFocusLoss`, told whether the related target lies
        inside the element. */
    method HandleElementFocusLoss(relatedInside: bool)
      modifies this
      ensures View() == AfterFocusLoss(old(View()), relatedInside)
    {
      if !relatedInside && state.isOpen {
        HandleClose();
      }
    }

    /** `dispatch(eventType)`, appending to the event log. */
    method Dispatch(kind: EventType)
      modifies this
      ensures View() == Dispatched(old(View()), kind)
    {
      events := events + [Event(kind, state.value)];
    }

    /** `render`: the toggle text, then one `ariaSelected` flag per option,
        then `firstRender` cleared. */
    method Render()
      requires Valid()
      modifies this, ariaSelected
      ensures View() == Rendered(old(View()))
    {
      if Truthy(state.placeholder) && state.firstRender {
        toggleText := state.placeholder.value;
      } else {
        toggleText := state.name;
      }
      var k := 0;
      while k < ariaSelected.Length
        invariant 0 <= k <= ariaSelected.Length
        invariant forall j :: 0 <= j < k ==> ariaSelected[j] == (state.element == Some(j))
        modifies ariaSelected
      {
        ariaSelected[k] := state.element == Some(k);
        k := k + 1;
      }
      assert ariaSelected[..] == SelectionFlags(|options|, state.element);
      SetState(RenderedPatch);
    }

    /** The oldest scheduled timer callback runs. */
    method RunNextTask()
      requires pending != []
      modifies this
      ensures View() == AfterTask(old(View()))
    {
      var task := pending[0];
      pending := pending[1..];
      match task
      case FocusElement(e) =>
        if e.Some? && openAttr.Some? {
          focus := OptionAt(e.value);
        }
      case DispatchChange =>
        Dispatch(Change);
    }
  }

  /** A client: mount an element with options A, B, C asking for "B". The
      option is found by its label; the `ready` event carries its value. */
  method MountScenario() returns (box: ListBox)
    ensures fresh(box) && fresh(box.ariaSelected) && box.Valid()
    ensures box.options == [OptionEl("A", Some("a")), OptionEl("B", Some("b")), OptionEl("C", Some("c"))]
    ensures box.state.element == Some(1) && box.state.value == Some("b") && box.toggleText == "B"
    ensures !box.state.isOpen && box.openAttr == None && !box.state.firstRender
    ensures box.pending == [] && box.events == [Event(Ready, Some("b"))]
  {
    var opts := [OptionEl("A", Some("a")), OptionEl("B", Some("b")), OptionEl("C", Some("c"))];
    box := new ListBox(opts, None);
    assert FindOption(opts, "B", 0) == Some(1);
    var ok := box.Connect(Some("B"), None);
  }

  /** Continuing: open the list, choose C, and let both timers run. The
      delayed focus of B, queued when the list opened, runs after the list
      closed and has no effect; then `change` is dispatched with C's value. */
  method SelectScenario() returns (box: ListBox)
    ensures box.state.name == "C" && box.state.value == Some("c") && !box.state.isOpen
    ensures box.events == [Event(Ready, Some("b")), Event(Change, Some("c"))]
    ensures box.ariaSelected[..] == [false, false, true]
    ensures box.toggleText == "C" && box.focus == Toggle && box.pending == []
  {
    box := MountScenario();
    box.HandleToggle();
    assert box.pending == [FocusElement(Some(1))] && box.openAttr.Some?;
    box.HandleSelect(Some(2));
    assert box.pending == [FocusElement(Some(1)), DispatchChange] && box.openAttr == None;
    assert box.state.name == "C" && box.state.value == Some("c") && !box.state.isOpen;
    assert box.toggleText == "C" && box.focus == Toggle;
    assert box.ariaSelected[..] == [false, false, true];
    assert box.events == [Event(Ready, Some("b"))];
    box.RunNextTask();
    assert box.pending == [DispatchChange] && box.focus == Toggle;
    box.RunNextTask();
  }
}
