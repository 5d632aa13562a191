/**
 * The editor object: the fields table, the `CHANGE` subscribers and the
 * effect log as fields updated in place. Each method does what the
 * corresponding operation of `Model` describes, with the source's loops.
 */
module Editing {
  import opened Wrappers
  import Keys
  import Paste
  import opened Fields
  import opened Model

  class Editor {
    var fields: map<string, Field>
    var order: seq<string>
    var subscribers: seq<nat>
    var log: seq<Effect>
    var serial: nat

    function Snapshot(): State
      reads this
    {
      State(fields, order, subscribers, log, serial)
    }

    ghost predicate Valid()
      reads this
    {
      Model.Valid(Snapshot())
    }

    /** The constructor loop, from the last child of the form to the first. */
    constructor (children: seq<Child>)
      ensures Snapshot() == Build(children) && Valid()
    {
      ghost var os := Made(children);
      var fs: map<string, Field> := map[];
      var ks: seq<string> := [];
      var i := |children|;
      while i > 0
        invariant 0 <= i <= |children|
        invariant fs == Table(os[i..]) && ks == Order(os[i..])
      {
        i := i - 1;
        assert os[i..][0] == MakeField(children[i]) && os[i..][1..] == os[i + 1..];
        match MakeField(children[i])
        case None =>
        case Some(f) =>
          fs := fs[f.name := f];
          if f.name !in ks {
            ks := ks + [f.name];
          }
      }
      assert os[0..] == os;
      fields := fs;
      order := ks;
      subscribers := [];
      log := [];
      serial := 0;
    }

    /** `new Editor(form)`: an error value instead of an editor for a missing or empty form. */
    static method New(form: Form) returns (r: Option<Editor>)
      ensures r.None? <==> Model.Create(form).None?
      ensures r.Some? ==> fresh(r.value) && r.value.Snapshot() == Model.Create(form).value && r.value.Valid()
    {
      if !form.FormNode? || form.children == [] {
        return None;
      }
      var e := new Editor(form.children);
      return Some(e);
    }

    /** One effect per plugin of a slot, in key order. */
    static method EachPlugin(methods: map<string, Instance>, names: seq<string>, mk: Instance -> Effect)
      returns (effects: seq<Effect>)
      ensures effects == Each(methods, names, mk)
    {
      effects := [];
      var i := 0;
      while i < |names|
        invariant 0 <= i <= |names|
        invariant effects == Each(methods, names[..i], mk)
      {
        assert names[..i + 1][..i] == names[..i];
        var n := names[i];
        if n in methods {
          effects := effects + [mk(methods[n])];
        }
        i := i + 1;
      }
      assert names[..|names|] == names;
    }

    /**
     * The source's `for (key in fields)` loop: each field in key order is
     * replaced by `g` of it, and the effects `h` reports for it are appended.
     */
    static method ForEach(fs0: map<string, Field>, ks: seq<string>, g: Field -> Field, h: Field -> seq<Effect>)
      returns (fs: map<string, Field>, effects: seq<Effect>)
      requires Distinct(ks)
      ensures fs == Apply(fs0, ks, g) && effects == Gather(fs0, ks, h)
    {
      fs := fs0;
      effects := [];
      var i := 0;
      while i < |ks|
        invariant 0 <= i <= |ks|
        invariant fs == Apply(fs0, ks[..i], g)
        invariant effects == Gather(fs0, ks[..i], h)
      {
        assert ks[..i + 1][..i] == ks[..i];
        var k := ks[i];
        ApplyKeys(fs0, ks[..i], g);
        if k in fs {
          Unvisited(fs0, ks, i, g);
          var f := fs[k];
          effects := effects + h(f);
          fs := fs[k := g(f)];
        }
        i := i + 1;
      }
      assert ks[..|ks|] == ks;
    }

    /** `fields()`. */
    method Fields() returns (r: map<string, Info>)
      ensures r == FieldsOf(Snapshot())
    {
      r := map[];
      var i := 0;
      while i < |order|
        invariant 0 <= i <= |order|
        invariant r == Collect(fields, order[..i], InfoOf)
      {
        assert order[..i + 1][..i] == order[..i];
        var k := order[i];
        if k in fields {
          var f := fields[k];
          r := r[f.name := InfoOf(f)];
        }
        i := i + 1;
      }
      assert order[..|order|] == order;
    }

    /** `values()`. */
    method Values() returns (r: map<string, Reading>)
      requires Valid()
      modifies this
      ensures (r, Snapshot()) == Model.Values(old(Snapshot())) && Valid()
    {
      ghost var s0 := Snapshot();
      var fs;
      r, fs := ReadAll(fields, order);
      fields := fs;
      assert Snapshot() == Model.Values(s0).1;
      SameShapeValid(s0, Snapshot());
    }

    /** The loop of `values()`: each field's reading, and the field as reading leaves it. */
    static method ReadAll(fs0: map<string, Field>, ks: seq<string>)
      returns (r: map<string, Reading>, fs: map<string, Field>)
      requires Distinct(ks)
      ensures r == Collect(fs0, ks, ReadingOnly) && fs == Apply(fs0, ks, AfterReading)
    {
      fs := fs0;
      r := map[];
      var i := 0;
      while i < |ks|
        invariant 0 <= i <= |ks|
        invariant fs == Apply(fs0, ks[..i], AfterReading)
        invariant r == Collect(fs0, ks[..i], ReadingOnly)
      {
        assert ks[..i + 1][..i] == ks[..i];
        var k := ks[i];
        ApplyKeys(fs0, ks[..i], AfterReading);
        if k in fs {
          Unvisited(fs0, ks, i, AfterReading);
          var f := fs[k];
          r := r[f.name := ReadingOnly(f)];
          fs := fs[k := AfterReading(f)];
        }
        i := i + 1;
      }
      assert ks[..|ks|] == ks;
    }

    /** `register(type, Plugin)`, `plugin` being the name the new plugin objects report. */
    method Register(slot: string, plugin: string) returns (o: Outcome<Error>)
      requires Valid()
      modifies this
      ensures (o, Snapshot()) == Model.Register(old(Snapshot()), slot, plugin) && Valid()
    {
      ghost var s0 := Snapshot();
      if slot != "action" && slot != "edition" {
        var i := 0;
        while i < |order|
          invariant 0 <= i <= |order|
          invariant forall j :: 0 <= j < i ==> fields[order[j]].kind != Rich
        {
          if fields[order[i]].kind == Rich {
            return Fail(UnknownSlot);
          }
          i := i + 1;
        }
        return Pass;
      }
      var g := RegisterBy(slot, plugin, serial);
      var fs, _ := ForEach(fields, order, g, NoEffects);
      fields := fs;
      serial := serial + 1;
      o := Pass;
      assert Snapshot() == Model.Register(s0, slot, plugin).1;
      SameShapeValid(s0, Snapshot());
    }

    /** `destroy()`. */
    method Destroy()
      requires Valid()
      modifies this
      ensures Snapshot() == Model.Destroy(old(Snapshot())) && Valid()
    {
      ghost var s0 := Snapshot();
      var fs, effects := ForEach(fields, order, Detach, DestroyEffects);
      fields := fs;
      log := log + effects;
      assert Snapshot() == Model.Destroy(s0);
      SameShapeValid(s0, Snapshot());
    }

    /** `subscribe(type, callback)`. */
    method Subscribe(event: string, callback: nat) returns (o: Outcome<Error>)
      requires Valid()
      modifies this
      ensures (o, Snapshot()) == Model.Subscribe(old(Snapshot()), event, callback) && Valid()
    {
      if event != "CHANGE" {
        return Fail(InvalidEvent);
      }
      subscribers := subscribers + [callback];
      o := Pass;
    }

    /** `emmit(event, data)`: each callback in turn. */
    method Emit(event: string, name: string) returns (o: Outcome<Error>)
      modifies this
      ensures (o, Snapshot()) == Model.Emit(old(Snapshot()), event, name)
    {
      if event != "CHANGE" {
        return Fail(InvalidEvent);
      }
      var calls: seq<Effect> := [];
      var i := 0;
      while i < |subscribers|
        invariant 0 <= i <= |subscribers|
        invariant calls == Notices(subscribers[..i], name)
      {
        assert subscribers[..i + 1][..i] == subscribers[..i];
        calls := calls + [Notify(subscribers[i], name)];
        i := i + 1;
      }
      assert subscribers[..|subscribers|] == subscribers;
      log := log + calls;
      o := Pass;
    }

    /** `binds.change`. */
    method Change(name: string, e: Keys.Event)
      modifies this
      ensures Snapshot() == Model.Change(old(Snapshot()), name, e)
    {
      if Keys.ShouldEmit(e) {
        var _ := Emit("CHANGE", name);
      }
    }

    /** `binds.paste`. */
    method InsertPaste(name: string, clipboard: string)
      requires name in fields
      modifies this
      ensures Snapshot() == Model.InsertPaste(old(Snapshot()), name, clipboard)
    {
      var html := Paste.Markup(fields[name].kind, clipboard);
      log := log + [PreventDefault(name), InsertHtml(name, html)];
    }

    /** `setAction(field)`: the block, the `beforeShow` calls, then `insertBefore`, which may throw. */
    method SetAction(name: string, env: Env) returns (o: Outcome<Error>)
      requires name in fields
      modifies this
      ensures (o, Snapshot()) == Model.SetAction(old(Snapshot()), name, env)
    {
      var f := fields[name];
      var block := Blocks.CurrentBlock(env.dom, env.anchor);
      if block.None? {
        return Fail(NoBlock);
      }
      o := Pass;
      if f.currentBlock != block {
        var shows := EachPlugin(f.action.methods, f.action.names, Shows);
        var mounts := Blocks.InsertsAfter(env.dom, f.element, block.value);
        fields := fields[name := f.(currentBlock := block, action := f.action.(shown := mounts || f.action.shown))];
        log := log + shows + (if mounts then [MountAction(name, block.value)] else []);
        if !mounts {
          o := Fail(NotFound);
        }
      }
    }

    /**
     * The loop of `binds.focus` over the fields in key order, stopping at the
     * first whose `unsetAction` throws.
     */
    static method BlurEach(fs0: map<string, Field>, ks: seq<string>, name: string, dom: Blocks.Dom)
      returns (fs: map<string, Field>, effects: seq<Effect>, thrown: bool)
      requires Distinct(ks)
      ensures var n := BlurReach(fs0, ks, name, dom);
              var visited := if n < |ks| then ks[..n + 1] else ks;
              && thrown == (n < |ks|)
              && fs == Apply(fs0, visited, BlurBy(name, dom))
              && effects == Gather(fs0, visited, BlurEffectsBy(name, dom))
    {
      var g := BlurBy(name, dom);
      var h := BlurEffectsBy(name, dom);
      fs := fs0;
      effects := [];
      thrown := false;
      var i := 0;
      while i < |ks| && !thrown
        invariant 0 <= i <= |ks|
        invariant fs == Apply(fs0, ks[..i], g)
        invariant effects == Gather(fs0, ks[..i], h)
        invariant thrown ==> 1 <= i && BlurReach(fs0, ks, name, dom) == i - 1
        invariant !thrown ==> i <= BlurReach(fs0, ks, name, dom)
      {
        assert ks[..i + 1][..i] == ks[..i];
        var k := ks[i];
        ApplyKeys(fs0, ks[..i], g);
        BlurReachNext(fs0, ks, name, dom, i);
        if k in fs {
          Unvisited(fs0, ks, i, g);
          var f := fs[k];
          effects := effects + h(f);
          fs := fs[k := g(f)];
          thrown := BlurThrows(f, name, dom);
        }
        i := i + 1;
      }
      assert ks[..|ks|] == ks;
    }

    /** The loop of `binds.focus` over the other fields. */
    method BlurOthers(name: string, dom: Blocks.Dom) returns (o: Outcome<Error>)
      requires Valid()
      modifies this
      ensures (o, Snapshot()) == Model.BlurOthers(old(Snapshot()), name, dom) && Valid()
    {
      ghost var s0 := Snapshot();
      var fs, effects, thrown := BlurEach(fields, order, name, dom);
      fields := fs;
      log := log + effects;
      o := if thrown then Fail(NotFound) else Pass;
      assert Snapshot() == Blurred(s0, name, dom, BlurVisits(s0, name, dom)) == Model.BlurOthers(s0, name, dom).1;
      SameShapeValid(s0, Snapshot());
    }

    /** `binds.focus`. */
    method Focus(name: string, e: Keys.Event, env: Env) returns (o: Outcome<Error>)
      requires Valid() && name in fields
      modifies this
      ensures (o, Snapshot()) == Model.Focus(old(Snapshot()), name, e, env) && Valid()
    {
      ghost var s0 := Snapshot();
      var f := fields[name];
      if Keys.FocusIgnored(e, f.length) {
        return Pass;
      }
      fields := fields[name := Focused(f)];
      SameShapeValid(s0, Snapshot());
      if f.kind == Rich {
        ghost var s1 := Snapshot();
        o := SetAction(name, env);
        SameShapeValid(s1, Snapshot());
        if o.Fail? {
          return;
        }
      }
      o := BlurOthers(name, env.dom);
    }

    /** `binds.selection`. */
    method Select(name: string, rangeSelected: bool)
      requires name in fields
      modifies this
      ensures Snapshot() == Model.Select(old(Snapshot()), name, rangeSelected)
    {
      var f := fields[name];
      var ed := f.edition;
      if rangeSelected && !ed.shown {
        var shows := EachPlugin(ed.methods, ed.names, Shows);
        fields := fields[name := f.(edition := ed.(shown := true))];
        log := log + shows + [ShowEdition(name)];
      } else if ed.shown {
        fields := fields[name := f.(edition := ed.(shown := false))];
        log := log + [HideEdition(name)];
      }
    }

    /** One listener of a handler; `ok` is false when it throws. */
    method Step(name: string, l: Listener, e: Keys.Event, env: Env) returns (ok: bool)
      requires Valid() && name in fields
      modifies this
      ensures (ok, Snapshot()) == Model.Step(old(Snapshot()), name, l, e, env) && Valid()
    {
      ok := true;
      match l
      case PasteText => InsertPaste(name, env.clipboard);
      case NotifyChange => Change(name, e);
      case FocusField =>
        var o := Focus(name, e, env);
        ok := o.Pass?;
      case Selection => Select(name, env.rangeSelected);
      case _ => Adjust(name, l, e, env);
    }

    /** The listeners that touch only their own field, or only the event. */
    method Adjust(name: string, l: Listener, e: Keys.Event, env: Env)
      requires Valid() && name in fields
      requires !l.PasteText? && !l.NotifyChange? && !l.FocusField? && !l.Selection?
      modifies this
      ensures Snapshot() == Model.Step(old(Snapshot()), name, l, e, env).1 && Valid()
    {
      var f := fields[name];
      match l
      case UnsetPlaceholder => Store(name, WithoutPlaceholder(f, e));
      case DisableBlocks =>
        if Keys.DisableBlocks(e) {
          log := log + [PreventDefault(name)];
        }
      case SetLength => Store(name, WithLength(f));
      case SetPlaceholder => Store(name, WithPlaceholder(f));
      case BlocksCreation =>
        if CreatesBlock(env.dom, env.anchor, f.length, e) {
          log := log + [FormatBlock(name)];
        }
      case UnsetSpan =>
      case ValidateMaxLength => Store(name, CheckMaxLength(f).1);
      case ValidateRequire => Store(name, CheckRequire(f).1);
    }

    /** A listener's write to its own field object. */
    method Store(name: string, f: Field)
      requires Valid() && name in fields && f.name == fields[name].name
      modifies this
      ensures Snapshot() == Put(old(Snapshot()), name, f) && Valid()
    {
      ghost var s0 := Snapshot();
      fields := fields[name := f];
      SameShapeValid(s0, Snapshot());
    }

    /** An event on a field's element: the browser's edit, then the attached handler. */
    method Handle(name: string, event: string, e: Keys.Event, env: Env)
      requires Valid() && name in fields
      modifies this
      ensures Snapshot() == Model.Handle(old(Snapshot()), name, event, e, env) && Valid()
    {
      var f := fields[name];
      Store(name, f.(html := env.html, text := env.text));
      if event in f.attached && event in f.listeners {
        ghost var s0 := Snapshot();
        var ls := f.listeners[event];
        var ok := true;
        var i := 0;
        while i < |ls| && ok
          invariant 0 <= i <= |ls|
          invariant Valid() && name in fields
          invariant (ok, Snapshot()) == Run(s0, name, ls[..i], e, env)
        {
          RunSnoc(s0, name, ls, i, e, env);
          ok := Step(name, ls[i], e, env);
          i := i + 1;
        }
        if ok {
          assert ls[..i] == ls;
        } else {
          RunStopsAtThrow(s0, name, ls, i, e, env);
        }
      }
    }
  }
}
