/** The `#state` record of the list-box element, the merging `state` setter,
    the label-or-value lookup of the initial option, and `setInitialState`
    as a function of the previous state and the element's attributes. */
module ListBoxState {

  /** A value that may be absent: `null` in the element's code. */
  datatype Option<T> = None | Some(value: T)

  /** One slotted option: its text content (`text`) and its `value` attribute.
      `getAttribute('value')` yields null when the attribute is absent; the
      element never falls back to the label. */
  datatype OptionEl = OptionEl(text: string, value: Option<string>)

  /** The fields of `#state`. `element` is the index of the chosen option
      among the slotted options (null before `setInitialState`). */
  datatype State = State(
    name: string,
    value: Option<string>,
    element: Option<nat>,
    isOpen: bool,
    placeholder: Option<string>,
    firstRender: bool)

  /** The state every element starts from: an empty name and value, no
      chosen option, closed, no placeholder, not yet rendered. */
  const Initial: State := State("", Some(""), None, false, None, true)

  /** The object handed to the `state` setter: a field that is `Some` is
      named in the update, a field that is `None` is not. */
  datatype Patch = Patch(
    name: Option<string>,
    value: Option<Option<string>>,
    element: Option<Option<nat>>,
    isOpen: Option<bool>,
    placeholder: Option<Option<string>>,
    firstRender: Option<bool>)

  const NoChange: Patch := Patch(None, None, None, None, None, None)

  function Override<T>(update: Option<T>, previous: T): T {
    if update.Some? then update.value else previous
  }

  /** The `state` setter: a shallow merge in which the fields the patch names win. */
  function Merge(s: State, p: Patch): State {
    State(
      Override(p.name, s.name),
      Override(p.value, s.value),
      Override(p.element, s.element),
      Override(p.isOpen, s.isOpen),
      Override(p.placeholder, s.placeholder),
      Override(p.firstRender, s.firstRender))
  }

  function Later<T>(first: Option<T>, second: Option<T>): Option<T> {
    if second.Some? then second else first
  }

  /** The single update equivalent to applying `p` and then `q`. */
  function Then(p: Patch, q: Patch): Patch {
    Patch(
      Later(p.name, q.name),
      Later(p.value, q.value),
      Later(p.element, q.element),
      Later(p.isOpen, q.isOpen),
      Later(p.placeholder, q.placeholder),
      Later(p.firstRender, q.firstRender))
  }

  /** The setter keeps every field the update does not name and takes every
      field it names. */
  lemma MergeKeepsUnnamed(s: State, p: Patch)
    ensures p.name.None? ==> Merge(s, p).name == s.name
    ensures p.value.None? ==> Merge(s, p).value == s.value
    ensures p.element.None? ==> Merge(s, p).element == s.element
    ensures p.isOpen.None? ==> Merge(s, p).isOpen == s.isOpen
    ensures p.placeholder.None? ==> Merge(s, p).placeholder == s.placeholder
    ensures p.firstRender.None? ==> Merge(s, p).firstRender == s.firstRender
    ensures p.name.Some? ==> Merge(s, p).name == p.name.value
    ensures p.value.Some? ==> Merge(s, p).value == p.value.value
    ensures p.element.Some? ==> Merge(s, p).element == p.element.value
    ensures p.isOpen.Some? ==> Merge(s, p).isOpen == p.isOpen.value
    ensures p.placeholder.Some? ==> Merge(s, p).placeholder == p.placeholder.value
    ensures p.firstRender.Some? ==> Merge(s, p).firstRender == p.firstRender.value
    ensures Merge(s, NoChange) == s
  {
  }

  /** Two successive setter calls are one merge of the combined update, and
      repeating an update changes nothing more. */
  lemma MergeComposes(s: State, p: Patch, q: Patch)
    ensures Merge(Merge(s, p), q) == Merge(s, Then(p, q))
    ensures Merge(Merge(s, p), p) == Merge(s, p)
  {
  }

  /** JavaScript truthiness of an attribute value: present and non-empty. */
  predicate Truthy(a: Option<string>) {
    a.Some? && a.value != ""
  }

  /** The `find` callback: the option text or its value attribute equals the key. */
  predicate Matches(o: OptionEl, key: string) {
    o.text == key || o.value == Some(key)
  }

  /** The `find` over the options, from position `from`: the first option
      in order whose label or value equals `key`. */
  function FindOption(options: seq<OptionEl>, key: string, from: nat): (r: Option<nat>)
    requires from <= |options|
    ensures r.Some? ==> from <= r.value < |options| && Matches(options[r.value], key)
    ensures r.Some? ==> forall j :: from <= j < r.value ==> !Matches(options[j], key)
    ensures r.None? ==> forall j :: from <= j < |options| ==> !Matches(options[j], key)
    decreases |options| - from
  {
    if from == |options| then None
    else if Matches(options[from], key) then Some(from)
    else FindOption(options, key, from + 1)
  }

  /** The update that makes option `i` the current one. */
  function SelectionPatch(o: OptionEl, i: nat): Patch {
    Patch(Some(o.text), Some(o.value), Some(Some(i)), None, None, None)
  }

  /** `defaultState`: the first option, closed, no placeholder, not yet rendered. */
  function DefaultPatch(first: OptionEl): Patch {
    Patch(Some(first.text), Some(first.value), Some(Some(0)), Some(false), Some(None), Some(true))
  }

  const OpenPatch: Patch := NoChange.(isOpen := Some(true))

  function PlaceholderPatch(text: string): Patch {
    NoChange.(placeholder := Some(Some(text)))
  }

  const RenderedPatch: Patch := NoChange.(firstRender := Some(false))

  /** `setInitialState` on state `s`, given the slotted options and the
      `initial-value`, `placeholder` and `open` attributes. `None` stands for
      the TypeError thrown when there is no option to read `options[0]` from;
      the state is then left as it was. */
  function Initialized(s: State, options: seq<OptionEl>, initialValue: Option<string>,
                       placeholder: Option<string>, hasOpen: bool): Option<State>
  {
    if |options| == 0 then None
    else
      var found := if Truthy(initialValue) then FindOption(options, initialValue.value, 0) else None;
      var s1 := if found.Some? then Merge(s, SelectionPatch(options[found.value], found.value))
                else Merge(s, DefaultPatch(options[0]));
      var s2 := if hasOpen then Merge(s1, OpenPatch) else s1;
      Some(if Truthy(placeholder) then Merge(s2, PlaceholderPatch(placeholder.value)) else s2)
  }

  /** `Initialized` step by step, as the setter calls of `setInitialState`
      produce it. */
  lemma InitializedSteps(s: State, options: seq<OptionEl>, initialValue: Option<string>,
                         placeholder: Option<string>, hasOpen: bool,
                         found: Option<nat>, s1: State, s2: State, s3: State)
    requires |options| > 0
    requires found == if Truthy(initialValue) then FindOption(options, initialValue.value, 0) else None
    requires found.Some? ==> found.value < |options|
    requires s1 == if found.Some? then Merge(s, SelectionPatch(options[found.value], found.value))
                   else Merge(s, DefaultPatch(options[0]))
    requires s2 == if hasOpen then Merge(s1, OpenPatch) else s1
    requires s3 == if Truthy(placeholder) then Merge(s2, PlaceholderPatch(placeholder.value)) else s2
    ensures Initialized(s, options, initialValue, placeholder, hasOpen) == Some(s3)
  {
  }

  /** Some option matches `key`. */
  ghost predicate AnyMatches(options: seq<OptionEl>, key: string) {
    exists j :: 0 <= j < |options| && Matches(options[j], key)
  }

  /** What `setInitialState` promises: it fails exactly when there is no
      option; otherwise the chosen option is the first one, in order, whose
      label or value equals a non-empty initial value, or option 0 when no
      such value is given or none matches, and name and value come from that
      same option. The list is open when the `open` attribute is present
      (and, given that the flag agreed with the attribute before, exactly
      then); the placeholder is taken only from a non-empty attribute. */
  lemma InitializedChoosesOption(s: State, options: seq<OptionEl>, initialValue: Option<string>,
                                 placeholder: Option<string>, hasOpen: bool)
    ensures Initialized(s, options, initialValue, placeholder, hasOpen).None? <==> |options| == 0
    ensures Initialized(s, options, initialValue, placeholder, hasOpen).Some? ==>
      var r := Initialized(s, options, initialValue, placeholder, hasOpen).value;
      && r.element.Some? && r.element.value < |options|
      && r.name == options[r.element.value].text
      && r.value == options[r.element.value].value
      && (Truthy(initialValue) && AnyMatches(options, initialValue.value) ==>
            && Matches(options[r.element.value], initialValue.value)
            && forall j :: 0 <= j < r.element.value ==> !Matches(options[j], initialValue.value))
      && (!(Truthy(initialValue) && AnyMatches(options, initialValue.value)) ==> r.element == Some(0))
      && (hasOpen ==> r.isOpen)
      && (s.isOpen == hasOpen ==> r.isOpen == hasOpen)
      && (Truthy(placeholder) ==> r.placeholder == placeholder)
      && (!Truthy(placeholder) && s.placeholder == None ==> r.placeholder == None)
      && (s.firstRender ==> r.firstRender)
  {
    if |options| > 0 && Truthy(initialValue) {
      var found := FindOption(options, initialValue.value, 0);
      if found.None? {
        assert !AnyMatches(options, initialValue.value);
      }
    }
  }
}
