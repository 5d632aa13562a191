/**
 * One editor field as a value: what the constructor reads from a child element
 * of the form, the listeners it attaches, and the per-field helpers
 * (`setLength`, `setPlaceholder`, `unsetPlaceholder`, the validators,
 * `getValue`).
 */
module Fields {
  import opened Wrappers
  import opened Attributes
  import Keys
  import TextMetrics
  import Value
  import Paste

  type NodeId = nat

  const Simple: string := "simple"
  const Rich: string := "rich"

  /** The bodies a field's event handlers call, in the order they were pushed. */
  datatype Listener =
    | PasteText | NotifyChange | FocusField | UnsetPlaceholder | DisableBlocks
    | SetLength | SetPlaceholder | BlocksCreation | Selection | UnsetSpan
    | ValidateMaxLength | ValidateRequire

  /** The events the constructor attaches a handler for. */
  const EventNames: seq<string> := ["paste", "click", "mouseup", "keydown", "keypress", "keyup", "DOMNodeInserted"]

  /** A plugin object registered on one field; `serial` tells registrations apart. */
  datatype Instance = Instance(plugin: string, field: string, serial: nat)

  /**
   * A toolbar slot (`plugins.action` or `plugins.edition`): the `methods` object
   * with its keys in insertion order, the plugin elements appended to the slot's
   * element, and whether that element is currently in the document.
   */
  datatype Slot = Slot(methods: map<string, Instance>, names: seq<string>, mounted: seq<Instance>, shown: bool)

  const EmptySlot := Slot(map[], [], [], false)

  /** A child element of the form, as the constructor sees it. */
  datatype Child = Child(id: NodeId, attrs: map<string, string>, classes: set<string>, html: string, text: string)

  /** The field record the constructor stores under `self.fields[name]`. */
  datatype Field = Field(
    name: string, kind: string, maxLength: AttrValue, require: bool, placeholder: string,
    element: NodeId, classes: set<string>, html: string, text: string, length: int,
    focus: bool, currentBlock: Option<NodeId>, action: Slot, edition: Slot,
    listeners: map<string, seq<Listener>>, attached: set<string>)

  /** The side effects the core has on code and documents outside it, in order. */
  datatype Effect =
    | BeforeShow(inst: Instance)
    | DestroyPlugin(inst: Instance)
    | Notify(subscriber: nat, field: string)
    | InsertHtml(field: string, html: string)
    | FormatBlock(field: string)
    | PreventDefault(field: string)
    | MountAction(field: string, block: NodeId)
    | UnmountAction(field: string)
    | ShowEdition(field: string)
    | HideEdition(field: string)

  /** The listeners of the `type` switch, without the optional validators. */
  function BaseListeners(kind: string, event: string): seq<Listener>
  {
    if kind == Simple then
      if event == "paste" then [PasteText, NotifyChange]
      else if event == "click" then [FocusField]
      else if event == "keydown" then [UnsetPlaceholder]
      else if event == "keypress" then [DisableBlocks]
      else if event == "keyup" then [SetLength, SetPlaceholder, FocusField, NotifyChange]
      else []
    else if kind == Rich then
      if event == "paste" then [PasteText, NotifyChange]
      else if event == "click" then [BlocksCreation, FocusField]
      else if event == "mouseup" then [Selection]
      else if event == "keydown" then [UnsetPlaceholder]
      else if event == "keyup" then [SetLength, BlocksCreation, FocusField, SetPlaceholder, NotifyChange]
      else if event == "DOMNodeInserted" then [UnsetSpan]
      else []
    else []
  }

  /** The listener list the constructor builds for one event of a field. */
  function ListenersFor(kind: string, maxLength: AttrValue, require: bool, event: string): (ls: seq<Listener>)
    ensures event != "keyup" ==> ls == BaseListeners(kind, event)
    ensures |ls| >= |BaseListeners(kind, event)|
    ensures event == "keyup" ==> ls[..|BaseListeners(kind, event)|] == BaseListeners(kind, event)
    ensures ValidateMaxLength in ls <==> event == "keyup" && Truthy(maxLength)
    ensures ValidateRequire in ls <==> event == "keyup" && require
  {
    var base := BaseListeners(kind, event);
    if event == "keyup" then base + Validators(maxLength, require) else base
  }

  /** `setLength`: the number of visible characters of the element's markup. */
  function WithLength(f: Field): (g: Field)
    ensures g.length == TextMetrics.TextLength(g.html) && g.length <= 2 * |g.html|
    ensures g == f.(length := g.length)
  {
    f.(length := TextMetrics.TextLength(f.html))
  }

  /** `setPlaceholder`: an empty field is cleared (toolbar included) and shows its placeholder. */
  function WithPlaceholder(f: Field): (g: Field)
    ensures f.length == 0 ==> g == f.(html := "", text := "", classes := f.classes + {"placeholder"},
                                      action := f.action.(shown := false))
    ensures f.length == 0 ==> g.html == "" && "placeholder" in g.classes && !g.action.shown
    ensures f.length != 0 ==> g == f
    ensures g.length == f.length && g.name == f.name && g.kind == f.kind
  {
    if f.length == 0 then
      f.(html := "", text := "", classes := f.classes + {"placeholder"}, action := f.action.(shown := false))
    else f
  }

  /** `unsetPlaceholder`: any key but Tab hides the placeholder. */
  function WithoutPlaceholder(f: Field, e: Keys.Event): (g: Field)
    ensures e.keyCode != Some(9) ==> g == f.(classes := f.classes - {"placeholder"})
    ensures e.keyCode == Some(9) ==> g == f
  {
    if e.keyCode != Some(9) then f.(classes := f.classes - {"placeholder"}) else f
  }

  /**
   * `length > maxLength` in JavaScript: a number compares by value, `false` as 0,
   * `NaN` never; the integer reader never yields a string.
   */
  predicate Exceeds(length: int, maxLength: AttrValue)
  {
    match maxLength
    case Int(n) => length > n
    case Bool(b) => length > (if b then 1 else 0)
    case NaN => false
    case Str(_) => false
  }

  /** `validateMaxLength`: reports an overflow and shows it with the `invalid` class. */
  function CheckMaxLength(f: Field): (r: (bool, Field))
    ensures r.0 <==> Exceeds(f.length, f.maxLength)
    ensures r.1 == f.(classes := if r.0 then f.classes + {"invalid"} else f.classes - {"invalid"})
  {
    if Exceeds(f.length, f.maxLength) then (true, f.(classes := f.classes + {"invalid"}))
    else (false, f.(classes := f.classes - {"invalid"}))
  }

  /** `validateRequire`: reports an empty field and shows it with the `require` class. */
  function CheckRequire(f: Field): (r: (bool, Field))
    ensures r.0 <==> f.length == 0
    ensures r.1 == f.(classes := if r.0 then f.classes + {"require"} else f.classes - {"require"})
  {
    if f.length == 0 then (true, f.(classes := f.classes + {"require"}))
    else (false, f.(classes := f.classes - {"require"}))
  }

  /**
   * `validate`: a required field must not be empty, and a field with a length
   * limit must not exceed it; only the limit check touches the classes.
   */
  function Validate(f: Field): (r: (bool, Field))
    ensures r.0 <==> !(f.require && f.length == 0) && !(Truthy(f.maxLength) && Exceeds(f.length, f.maxLength))
    ensures f.require && f.length == 0 ==> r.1 == f
    ensures !(f.require && f.length == 0) && Truthy(f.maxLength) ==> r.1 == CheckMaxLength(f).1
    ensures !Truthy(f.maxLength) ==> r.1 == f
  {
    if f.require && f.length == 0 then (false, f)
    else if Truthy(f.maxLength) then
      var c := CheckMaxLength(f);
      (!c.0, c.1)
    else (true, f)
  }

  /**
   * `getValue` as written: its tests assign instead of compare, so the first one
   * always holds; every field reports its trimmed text and becomes `simple`.
   */
  function GetValue(f: Field): (r: (string, Field))
    ensures r.1 == f.(kind := Simple)
    ensures r.0 == Value.SimpleValue(f.text)
    ensures Paste.NoBreak(r.0) && (r.0 == [] || !IsSpace(r.0[|r.0| - 1]))
  {
    (Value.SimpleValue(f.text), f.(kind := Simple))
  }

  /** The field a child element declares, before `setLength` and `setPlaceholder`. */
  function Declared(c: Child, name: string, placeholder: string): Field
  {
    var kind := match GetDataAttribute("type", c.attrs, "str", Str(Simple)) case Str(k) => k case _ => Simple;
    var maxLength := GetDataAttribute("length", c.attrs, "int", Bool(false));
    var require := GetDataAttribute("require", c.attrs, "bol", Bool(false)) == Bool(true);
    Field(name, kind, maxLength, require, placeholder, c.id, c.classes, c.html, c.text, 0,
          false, None, EmptySlot, EmptySlot,
          map e | e in EventNames :: ListenersFor(kind, maxLength, require, e),
          set e | e in EventNames)
  }

  /**
   * One iteration of the constructor loop: a child without a non-empty
   * `data-field` or `data-placeholder` is skipped; any other becomes a field
   * whose length and placeholder are set.
   */
  function MakeField(c: Child): (r: Option<Field>)
    ensures r.Some? ==> r.value.length == TextMetrics.TextLength(r.value.html)
    ensures r.Some? ==> r.value.element == c.id && !r.value.focus && r.value.currentBlock.None?
  {
    match (GetDataAttribute("field", c.attrs, "str", Bool(false)),
           GetDataAttribute("placeholder", c.attrs, "str", Bool(false)))
    case (Str(name), Str(placeholder)) =>
      Some(WithPlaceholder(WithLength(Declared(c, name, placeholder))))
    case _ => None
  }

  /** The child has a non-empty `data-<name>` attribute. */
  predicate HasData(c: Child, name: string)
  {
    "data-" + name in c.attrs && c.attrs["data-" + name] != ""
  }

  /** A child becomes a field exactly when both attributes are present and non-empty. */
  lemma {:induction false} MakeFieldSkips(c: Child)
    ensures MakeField(c).None? <==> !HasData(c, "field") || !HasData(c, "placeholder")
  {
    StrReadTruthy("field", c.attrs);
    StrReadTruthy("placeholder", c.attrs);
  }

  /**
   * A new field carries the child's attributes: its name, placeholder and type
   * (`simple` when absent), its measured text length, with the placeholder
   * shown and the content cleared when that length is 0, and every handler attached.
   */
  lemma {:induction false} MakeFieldReads(c: Child)
    requires HasData(c, "field") && HasData(c, "placeholder")
    ensures MakeField(c).Some?
    ensures var f := MakeField(c).value;
      && f.name == c.attrs["data-" + "field"] && f.placeholder == c.attrs["data-" + "placeholder"]
      && f.kind == (if HasData(c, "type") then c.attrs["data-" + "type"] else Simple)
      && f.element == c.id
      && f.length == TextMetrics.TextLength(c.html)
      && (f.length == 0 ==> "placeholder" in f.classes)
      && (f.length != 0 ==> f.classes == c.classes)
      && (f.length == 0 ==> f.html == "")
      && !f.focus && f.currentBlock.None? && f.attached == set e | e in EventNames
  {
    var name := c.attrs["data-" + "field"];
    var placeholder := c.attrs["data-" + "placeholder"];
    assert GetDataAttribute("field", c.attrs, "str", Bool(false)) == Str(name);
    assert GetDataAttribute("placeholder", c.attrs, "str", Bool(false)) == Str(placeholder);
    var d := Declared(c, name, placeholder);
    assert MakeField(c) == Some(WithPlaceholder(WithLength(d)));
    if HasData(c, "type") {
      assert GetDataAttribute("type", c.attrs, "str", Str(Simple)) == Str(c.attrs["data-" + "type"]);
    } else {
      assert GetDataAttribute("type", c.attrs, "str", Str(Simple)) == Str(Simple);
    }
  }

  /** A field registered with a length limits its keyup validation exactly when the limit is truthy. */
  lemma {:induction false} ValidatorsAttached(c: Child)
    requires MakeField(c).Some?
    ensures var f := MakeField(c).value;
      && ("keyup" in f.listeners)
      && (ValidateMaxLength in f.listeners["keyup"] <==> Truthy(f.maxLength))
      && (ValidateRequire in f.listeners["keyup"] <==> f.require)
  {
  }

  /** A simple field turns Enter off; a rich field reacts to selections and to new nodes instead. */
  lemma {:induction false} SimpleAndRichListeners(m: AttrValue, req: bool)
    ensures ListenersFor(Simple, m, req, "keypress") == [DisableBlocks]
    ensures ListenersFor(Rich, m, req, "keypress") == []
    ensures ListenersFor(Rich, m, req, "mouseup") == [Selection]
    ensures ListenersFor(Simple, m, req, "mouseup") == []
    ensures ListenersFor(Rich, m, req, "DOMNodeInserted") == [UnsetSpan]
  {
  }

  /**
   * On keyup the length is measured before anything reads it, and the change is
   * announced after every other listener of the type switch; only the
   * validators follow.
   */
  lemma {:induction false} KeyupMeasuresFirst(kind: string, m: AttrValue, req: bool)
    requires kind == Simple || kind == Rich
    ensures var ls := ListenersFor(kind, m, req, "keyup");
      && ls[0] == SetLength && SetLength !in ls[1..]
      && exists k :: 0 < k < |ls| && ls[k] == NotifyChange
                     && forall j :: k < j < |ls| ==> ls[j] == ValidateMaxLength || ls[j] == ValidateRequire
  {
    var v := Validators(m, req);
    var base := BaseListeners(kind, "keyup");
    var ls := ListenersFor(kind, m, req, "keyup");
    KeyupBase(kind);
    assert ls == base + v;
    var k := |base| - 1;
    assert ls[k] == NotifyChange;
    forall j | k < j < |ls| ensures ls[j] == ValidateMaxLength || ls[j] == ValidateRequire {
      assert ls[j] == v[j - |base|];
    }
    assert ls[1..] == base[1..] + v;
    assert SetLength !in v;
  }

  /** The keyup listeners of the type switch start by measuring and end by notifying. */
  lemma KeyupBase(kind: string)
    requires kind == Simple || kind == Rich
    ensures var base := BaseListeners(kind, "keyup");
      |base| >= 2 && base[0] == SetLength && SetLength !in base[1..] && base[|base| - 1] == NotifyChange
  {
    var base := BaseListeners(kind, "keyup");
    if kind == Simple {
      assert base[1..] == [SetPlaceholder, FocusField, NotifyChange];
    } else {
      assert base[1..] == [BlocksCreation, FocusField, SetPlaceholder, NotifyChange];
    }
  }

  /** The optional keyup validators, in the order they are pushed. */
  function Validators(m: AttrValue, req: bool): (v: seq<Listener>)
    ensures forall l :: l in v ==> l == ValidateMaxLength || l == ValidateRequire
  {
    (if Truthy(m) then [ValidateMaxLength] else []) + (if req then [ValidateRequire] else [])
  }

  /** The validity `validate` reports agrees with the two validators' own verdicts. */
  lemma {:induction false} ValidateAgreesWithValidators(f: Field)
    ensures Validate(f).0 <==> !(f.require && CheckRequire(f).0) && !(Truthy(f.maxLength) && CheckMaxLength(f).0)
  {
  }
}
