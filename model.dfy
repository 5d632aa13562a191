/**
 * The editor as a value: the fields table with its key order, the `CHANGE`
 * subscribers, and the log of effects on plugins, callbacks and the document.
 * Every operation of the editor is a function from one state to the next; the
 * `Editor` class runs the same operations in place.
 */
module Model {
  import opened Wrappers
  import opened Attributes
  import Keys
  import Blocks
  import Paste
  import TextMetrics
  import Value
  import opened Fields

  datatype State = State(
    fields: map<string, Field>,
    order: seq<string>,
    subscribers: seq<nat>,
    log: seq<Effect>,
    serial: nat)

  /** The errors the source returns or throws; `NotFound` is the NotFoundError of `insertBefore`. */
  datatype Error = NoForm | InvalidEvent | UnknownSlot | NoBlock | NotFound

  /** What the browser supplies along with an event: the document, the selection, the clipboard and the field's content. */
  datatype Env = Env(dom: Blocks.Dom, anchor: Option<NodeId>, rangeSelected: bool,
                     clipboard: string, html: string, text: string)

  /** The form handed to the constructor. */
  datatype Form = Missing | NotANode | FormNode(children: seq<Child>)

  predicate Distinct(ks: seq<string>)
  {
    forall i, j :: 0 <= i < j < |ks| ==> ks[i] != ks[j]
  }

  /** The key order lists every field once, and each field is stored under its own name. */
  predicate Valid(s: State)
  {
    && Distinct(s.order)
    && (forall k :: k in s.fields ==> k in s.order)
    && (forall k :: k in s.order ==> k in s.fields)
    && (forall k :: k in s.fields ==> s.fields[k].name == k)
  }

  // ---------------------------------------------------------------- construction

  /** What the constructor makes of each child, in document order. */
  function Made(cs: seq<Child>): (os: seq<Option<Field>>)
    ensures |os| == |cs| && forall i :: 0 <= i < |cs| ==> os[i] == MakeField(cs[i])
  {
    seq(|cs|, i requires 0 <= i < |cs| => MakeField(cs[i]))
  }

  /**
   * The table the constructor loop leaves after visiting the children from the
   * last to the first: a later visit overwrites an earlier one.
   */
  function Table(os: seq<Option<Field>>): map<string, Field>
    decreases |os|
  {
    if os == [] then map[]
    else
      var t := Table(os[1..]);
      match os[0]
      case None => t
      case Some(f) => t[f.name := f]
  }

  /** The key order of that table: a name takes its place when it is first assigned. */
  function Order(os: seq<Option<Field>>): seq<string>
    decreases |os|
  {
    if os == [] then []
    else
      var k := Order(os[1..]);
      match os[0]
      case None => k
      case Some(f) => if f.name in k then k else k + [f.name]
  }

  /**
   * The constructor's state: the table is well formed, with no subscriber, no
   * effect yet and no plugin registered.
   */
  function Build(cs: seq<Child>): (s: State)
    ensures Valid(s) && s.subscribers == [] && s.log == [] && s.serial == 0
  {
    TableValid(Made(cs));
    State(Table(Made(cs)), Order(Made(cs)), [], [], 0)
  }

  /** The constructor: no form, a non-node or a form without children is an error. */
  function Create(form: Form): (r: Option<State>)
    ensures r.None? <==> !form.FormNode? || form.children == []
  {
    if !form.FormNode? || form.children == [] then None else Some(Build(form.children))
  }

  /** The built table is well formed. */
  lemma {:induction false} TableValid(os: seq<Option<Field>>)
    ensures Valid(State(Table(os), Order(os), [], [], 0))
    decreases |os|
  {
    if os != [] {
      TableValid(os[1..]);
      match os[0]
      case None =>
      case Some(f) =>
        var k := Order(os[1..]);
        if f.name !in k {
          var k' := k + [f.name];
          forall i, j | 0 <= i < j < |k'| ensures k'[i] != k'[j] {
            if j == |k| { assert k'[i] == k[i]; } else { assert k'[i] == k[i] && k'[j] == k[j]; }
          }
        }
    }
  }

  /** A skipped child, wherever it stands, changes neither the table nor the key order. */
  lemma {:induction false} TableSkip(p: seq<Option<Field>>, q: seq<Option<Field>>)
    ensures Table(p + [None] + q) == Table(p + q)
    ensures Order(p + [None] + q) == Order(p + q)
    decreases |p|
  {
    var x := p + [None] + q;
    if p == [] {
      assert x[0].None? && x[1..] == q && p + q == q;
    } else {
      assert x[0] == p[0] && x[1..] == p[1..] + [None] + q;
      assert (p + q)[0] == p[0] && (p + q)[1..] == p[1..] + q;
      TableSkip(p[1..], q);
    }
  }

  /** A child that declares no field leaves the table as it is, at any position among the children. */
  lemma {:induction false} SkippedChildAddsNothing(a: seq<Child>, c: Child, b: seq<Child>)
    requires !HasData(c, "field") || !HasData(c, "placeholder")
    ensures Build(a + [c] + b) == Build(a + b)
  {
    MakeFieldSkips(c);
    MadeAppend(a + [c], b);
    MadeAppend(a, [c]);
    MadeAppend(a, b);
    assert Made([c]) == [None];
    TableSkip(Made(a), Made(b));
  }

  lemma {:induction false} MadeAppend(x: seq<Child>, y: seq<Child>)
    ensures Made(x + y) == Made(x) + Made(y)
  {
    var m := Made(x + y);
    assert |m| == |Made(x) + Made(y)|;
    forall i | 0 <= i < |m| ensures m[i] == (Made(x) + Made(y))[i] {
      if i < |x| { assert (x + y)[i] == x[i]; } else { assert (x + y)[i] == y[i - |x|]; }
    }
  }

  /** The result of one child, if it named a field called `name`. */
  predicate NamedIn(o: Option<Field>, name: string)
  {
    o.Some? && o.value.name == name
  }

  /**
   * With duplicate names the earliest child in document order wins, since the
   * loop visits it last.
   */
  lemma {:induction false} EarliestWins(os: seq<Option<Field>>, j: nat, f: Field)
    requires j < |os| && os[j] == Some(f)
    requires forall i :: 0 <= i < j ==> !NamedIn(os[i], f.name)
    ensures f.name in Table(os) && Table(os)[f.name] == f
    decreases j
  {
    if j > 0 {
      var os' := os[1..];
      assert os'[j - 1] == os[j];
      forall i | 0 <= i < j - 1 ensures !NamedIn(os'[i], f.name) {
        assert os'[i] == os[i + 1];
      }
      EarliestWins(os', j - 1, f);
      assert !NamedIn(os[0], f.name);
    }
  }

  /** For the children: the first child declaring a name supplies that field. */
  lemma {:induction false} EarliestChildWins(cs: seq<Child>, j: nat, f: Field)
    requires j < |cs| && MakeField(cs[j]) == Some(f)
    requires forall i :: 0 <= i < j ==> !NamedIn(MakeField(cs[i]), f.name)
    ensures f.name in Build(cs).fields && Build(cs).fields[f.name] == f
  {
    EarliestWins(Made(cs), j, f);
  }

  /** Every stored name comes from some child, and every declaring child's name is stored. */
  lemma {:induction false} TableNames(os: seq<Option<Field>>, name: string)
    ensures name in Table(os) <==> exists j :: 0 <= j < |os| && NamedIn(os[j], name)
    decreases |os|
  {
    if os != [] {
      TableNames(os[1..], name);
      if exists j :: 0 <= j < |os[1..]| && NamedIn(os[1..][j], name) {
        var j :| 0 <= j < |os[1..]| && NamedIn(os[1..][j], name);
        assert os[1..][j] == os[j + 1];
      }
      if exists j :: 0 <= j < |os| && NamedIn(os[j], name) {
        var j :| 0 <= j < |os| && NamedIn(os[j], name);
        if j > 0 { assert os[1..][j - 1] == os[j]; }
      }
    }
  }

  /** The editor's fields are exactly the names declared by its children. */
  lemma {:induction false} BuildNames(cs: seq<Child>, name: string)
    ensures name in Build(cs).fields <==> exists j :: 0 <= j < |cs| && NamedIn(MakeField(cs[j]), name)
  {
    var os := Made(cs);
    TableNames(os, name);
    if exists j :: 0 <= j < |os| && NamedIn(os[j], name) {
      var j :| 0 <= j < |os| && NamedIn(os[j], name);
      assert NamedIn(MakeField(cs[j]), name);
    }
  }

  // ---------------------------------------------------------------- iteration helpers

  /**
   * `for (var k in self.fields)` applying `g` to each visited field: the fields
   * named by `ks` are updated one after the other.
   */
  function Apply(fs: map<string, Field>, ks: seq<string>, g: Field -> Field): map<string, Field>
    decreases |ks|
  {
    if ks == [] then fs
    else
      var t := Apply(fs, ks[..|ks| - 1], g);
      var k := ks[|ks| - 1];
      if k in t then t[k := g(t[k])] else t
  }

  /** The effects of visiting the fields named by `ks`, `h` giving those of one field. */
  function Gather(fs: map<string, Field>, ks: seq<string>, h: Field -> seq<Effect>): seq<Effect>
    decreases |ks|
  {
    if ks == [] then []
    else
      var k := ks[|ks| - 1];
      Gather(fs, ks[..|ks| - 1], h) + (if k in fs then h(fs[k]) else [])
  }

  /** For a loop over the fields that records nothing. */
  function NoEffects(f: Field): seq<Effect> { [] }

  /** The object a loop over the fields builds, keyed by each visited field's name. */
  function Collect<V>(fs: map<string, Field>, ks: seq<string>, v: Field -> V): map<string, V>
    decreases |ks|
  {
    if ks == [] then map[]
    else
      var k := ks[|ks| - 1];
      var t := Collect(fs, ks[..|ks| - 1], v);
      if k in fs then t[fs[k].name := v(fs[k])] else t
  }

  /** `for (var m in slot.methods)`: one effect per plugin, in key order. */
  function Each(methods: map<string, Instance>, names: seq<string>, mk: Instance -> Effect): seq<Effect>
    decreases |names|
  {
    if names == [] then []
    else
      var n := names[|names| - 1];
      Each(methods, names[..|names| - 1], mk) + (if n in methods then [mk(methods[n])] else [])
  }

  /** Each plugin listed in key order and present in the object yields its effect. */
  lemma {:induction false} EachHas(methods: map<string, Instance>, names: seq<string>, mk: Instance -> Effect, n: string)
    requires n in names && n in methods
    ensures mk(methods[n]) in Each(methods, names, mk)
    decreases |names|
  {
    var ns := names[..|names| - 1];
    if n != names[|names| - 1] {
      assert n in ns by {
        var i :| 0 <= i < |names| && names[i] == n;
        assert ns[i] == n;
      }
      EachHas(methods, ns, mk, n);
    }
  }

  lemma {:induction false} ApplyKeys(fs: map<string, Field>, ks: seq<string>, g: Field -> Field)
    ensures Apply(fs, ks, g).Keys == fs.Keys
    decreases |ks|
  {
    if ks != [] { ApplyKeys(fs, ks[..|ks| - 1], g); }
  }

  lemma {:induction false} ApplyNames(fs: map<string, Field>, ks: seq<string>, g: Field -> Field)
    requires forall f :: g(f).name == f.name
    ensures forall k :: k in Apply(fs, ks, g) ==> k in fs && Apply(fs, ks, g)[k].name == fs[k].name
    decreases |ks|
  {
    if ks != [] { ApplyNames(fs, ks[..|ks| - 1], g); }
  }

  /** Visiting each name once updates exactly the visited fields, each from its old value. */
  lemma {:induction false} ApplyAt(fs: map<string, Field>, ks: seq<string>, g: Field -> Field, k: string)
    requires Distinct(ks) && k in fs
    ensures k in Apply(fs, ks, g)
    ensures Apply(fs, ks, g)[k] == if k in ks then g(fs[k]) else fs[k]
    decreases |ks|
  {
    ApplyKeys(fs, ks, g);
    if ks != [] {
      var ks' := ks[..|ks| - 1];
      assert Distinct(ks');
      ApplyAt(fs, ks', g, k);
      assert k in ks <==> k in ks' || k == ks[|ks| - 1];
      if k == ks[|ks| - 1] {
        forall i | 0 <= i < |ks'| ensures ks'[i] != k {
          assert ks'[i] == ks[i];
        }
      }
    }
  }

  /** A loop over distinct names reaches the `i`-th with its field not yet visited. */
  lemma {:induction false} Unvisited(fs: map<string, Field>, ks: seq<string>, i: nat, g: Field -> Field)
    requires Distinct(ks) && i < |ks| && ks[i] in fs
    ensures ks[i] in Apply(fs, ks[..i], g) && Apply(fs, ks[..i], g)[ks[i]] == fs[ks[i]]
  {
    var p := ks[..i];
    assert Distinct(p);
    forall j | 0 <= j < i ensures p[j] != ks[i] {
      assert p[j] == ks[j];
    }
    ApplyAt(fs, p, g, ks[i]);
  }

  /** Collecting over a key order that lists every field covers the whole table. */
  lemma {:induction false} CollectAll<V>(fs: map<string, Field>, ks: seq<string>, v: Field -> V)
    requires forall x :: x in fs ==> fs[x].name == x && x in ks
    ensures Collect(fs, ks, v).Keys == fs.Keys
    ensures forall k :: k in Collect(fs, ks, v) ==> Collect(fs, ks, v)[k] == v(fs[k])
  {
    forall k ensures (k in Collect(fs, ks, v) <==> k in fs) && (k in Collect(fs, ks, v) ==> Collect(fs, ks, v)[k] == v(fs[k])) {
      CollectAt(fs, ks, v, k);
    }
  }

  /** Under `Valid`, collecting over the key order covers every field, under its own name. */
  lemma {:induction false} CollectAt<V>(fs: map<string, Field>, ks: seq<string>, v: Field -> V, k: string)
    requires forall x :: x in fs ==> fs[x].name == x
    ensures k in Collect(fs, ks, v) <==> k in fs && k in ks
    ensures k in Collect(fs, ks, v) ==> Collect(fs, ks, v)[k] == v(fs[k])
    decreases |ks|
  {
    if ks != [] {
      var ks' := ks[..|ks| - 1];
      CollectAt(fs, ks', v, k);
      assert k in ks <==> k in ks' || k == ks[|ks| - 1];
    }
  }

  // ---------------------------------------------------------------- state shape

  /** An operation keeps the fields table's keys, the names and the key order. */
  predicate SameShape(s: State, r: State)
  {
    && r.fields.Keys == s.fields.Keys
    && r.order == s.order
    && (forall k :: k in r.fields ==> r.fields[k].name == s.fields[k].name)
  }

  lemma {:induction false} SameShapeValid(s: State, r: State)
    requires Valid(s) && SameShape(s, r)
    ensures Valid(r)
  {
    assert forall k :: k in r.fields <==> k in s.fields;
  }

  /** Writing back a field with the same name. */
  function Put(s: State, name: string, f: Field): (r: State)
    requires name in s.fields && f.name == s.fields[name].name
    ensures SameShape(s, r) && r.subscribers == s.subscribers && r.log == s.log
    ensures r.fields == s.fields[name := f]
  {
    s.(fields := s.fields[name := f])
  }

  /** Applying a name-keeping update to every field keeps the shape. */
  lemma {:induction false} ApplyShape(s: State, g: Field -> Field)
    requires forall f :: g(f).name == f.name
    requires Valid(s)
    ensures SameShape(s, s.(fields := Apply(s.fields, s.order, g)))
    ensures forall k :: k in s.fields ==> Apply(s.fields, s.order, g)[k] == g(s.fields[k])
  {
    ApplyKeys(s.fields, s.order, g);
    forall k | k in s.fields ensures Apply(s.fields, s.order, g)[k] == g(s.fields[k]) {
      ApplyAt(s.fields, s.order, g, k);
    }
  }

  // ---------------------------------------------------------------- subscriptions

  /** One `Notify` per subscriber, in subscription order. */
  function Notices(subs: seq<nat>, name: string): (r: seq<Effect>)
    ensures |r| == |subs|
    ensures forall i :: 0 <= i < |subs| ==> r[i] == Notify(subs[i], name)
    decreases |subs|
  {
    if subs == [] then [] else Notices(subs[..|subs| - 1], name) + [Notify(subs[|subs| - 1], name)]
  }

  /** `subscribe`: only `CHANGE` has a subscriber list. */
  function Subscribe(s: State, event: string, callback: nat): (r: (Outcome<Error>, State))
    ensures event != "CHANGE" ==> r == (Fail(InvalidEvent), s)
    ensures event == "CHANGE" ==> r.0.Pass? && r.1.subscribers == s.subscribers + [callback]
    ensures r.1.fields == s.fields && r.1.order == s.order && r.1.log == s.log
  {
    if event != "CHANGE" then (Fail(InvalidEvent), s)
    else (Pass, s.(subscribers := s.subscribers + [callback]))
  }

  /** `emmit`: every subscriber of the event is called with the field, in subscription order. */
  function Emit(s: State, event: string, name: string): (r: (Outcome<Error>, State))
    ensures event != "CHANGE" ==> r == (Fail(InvalidEvent), s)
    ensures event == "CHANGE" ==> r.0.Pass? && r.1 == s.(log := s.log + Notices(s.subscribers, name))
  {
    if event != "CHANGE" then (Fail(InvalidEvent), s)
    else (Pass, s.(log := s.log + Notices(s.subscribers, name)))
  }

  /** A callback subscribed last is called last on the next change. */
  lemma {:induction false} SubscribedCallbackIsNotified(s: State, callback: nat, name: string)
    ensures var t := Subscribe(s, "CHANGE", callback).1;
            var u := Emit(t, "CHANGE", name).1;
            |u.log| == |s.log| + |s.subscribers| + 1 && u.log[|u.log| - 1] == Notify(callback, name)
  {
  }

  /** `binds.change`: a paste or a content key notifies the subscribers; navigation keys do not. */
  function Change(s: State, name: string, e: Keys.Event): (r: State)
    ensures Keys.ShouldEmit(e) ==> r == s.(log := s.log + Notices(s.subscribers, name))
    ensures !Keys.ShouldEmit(e) ==> r == s
  {
    if Keys.ShouldEmit(e) then Emit(s, "CHANGE", name).1 else s
  }

  // ---------------------------------------------------------------- toolbars

  function Shows(i: Instance): Effect { BeforeShow(i) }
  function Destroys(i: Instance): Effect { DestroyPlugin(i) }

  /**
   * `setAction` throws: the block lookup fails, or the block is new and its next
   * sibling is not a child of the field's element, so `insertBefore` cannot place
   * the toolbar.
   */
  predicate ActionThrows(f: Field, env: Env)
  {
    var cb := Blocks.CurrentBlock(env.dom, env.anchor);
    cb.None? || (f.currentBlock != cb && !Blocks.InsertsAfter(env.dom, f.element, cb.value))
  }

  /**
   * `setAction`: find the caret's block; when it differs from the remembered
   * one, remember it, tell every action plugin and mount the toolbar after it.
   * A failed block lookup is the TypeError the source throws; a block whose next
   * sibling lies outside the field is remembered and announced, and then
   * `insertBefore` throws before the toolbar moves.
   */
  function SetAction(s: State, name: string, env: Env): (r: (Outcome<Error>, State))
    requires name in s.fields
    ensures SameShape(s, r.1) && r.1.subscribers == s.subscribers
    ensures r.0.Fail? <==> ActionThrows(s.fields[name], env)
    ensures Blocks.CurrentBlock(env.dom, env.anchor).None? ==> r == (Fail(NoBlock), s)
    ensures var cb := Blocks.CurrentBlock(env.dom, env.anchor);
            cb.Some? && s.fields[name].currentBlock == cb ==> r == (Pass, s)
    ensures var cb := Blocks.CurrentBlock(env.dom, env.anchor); var f := s.fields[name];
            cb.Some? && f.currentBlock != cb ==>
              var mounts := Blocks.InsertsAfter(env.dom, f.element, cb.value);
              && r.0 == (if mounts then Pass else Fail(NotFound))
              && r.1.fields == s.fields[name := f.(currentBlock := cb, action := f.action.(shown := mounts || f.action.shown))]
              && r.1.log == s.log + Each(f.action.methods, f.action.names, Shows)
                                  + (if mounts then [MountAction(name, cb.value)] else [])
  {
    var f := s.fields[name];
    match Blocks.CurrentBlock(env.dom, env.anchor)
    case None => (Fail(NoBlock), s)
    case Some(b) =>
      if f.currentBlock == Some(b) then (Pass, s)
      else
        var mounts := Blocks.InsertsAfter(env.dom, f.element, b);
        var t := Put(s, name, f.(currentBlock := Some(b), action := f.action.(shown := mounts || f.action.shown)));
        (if mounts then Pass else Fail(NotFound),
         t.(log := t.log + Each(f.action.methods, f.action.names, Shows) + (if mounts then [MountAction(name, b)] else [])))
  }

  /**
   * Once `setAction` has met a block, calling it again at the same caret does
   * nothing, even when the first call threw at `insertBefore`: the toolbar that
   * failed to mount stays where it was.
   */
  lemma {:induction false} SetActionRemembers(s: State, name: string, env: Env)
    requires name in s.fields && Blocks.CurrentBlock(env.dom, env.anchor).Some?
    ensures var t := SetAction(s, name, env).1;
            name in t.fields && SetAction(t, name, env) == (Pass, t)
            && t.fields[name].currentBlock == Blocks.CurrentBlock(env.dom, env.anchor)
  {
  }

  /** A new block makes `setAction` call `beforeShow` on every action plugin, after what was logged before. */
  lemma {:induction false} SetActionShowsEveryPlugin(s: State, name: string, env: Env, n: string)
    requires name in s.fields
    requires var cb := Blocks.CurrentBlock(env.dom, env.anchor); cb.Some? && s.fields[name].currentBlock != cb
    requires n in s.fields[name].action.names && n in s.fields[name].action.methods
    ensures var log := SetAction(s, name, env).1.log;
            |s.log| <= |log| && log[..|s.log|] == s.log
            && BeforeShow(s.fields[name].action.methods[n]) in log[|s.log|..]
  {
    var f := s.fields[name];
    var cb := Blocks.CurrentBlock(env.dom, env.anchor);
    var mounts := Blocks.InsertsAfter(env.dom, f.element, cb.value);
    var shows := Each(f.action.methods, f.action.names, Shows);
    var tail := shows + (if mounts then [MountAction(name, cb.value)] else []);
    var log := SetAction(s, name, env).1.log;
    assert log == s.log + tail;
    EachHas(f.action.methods, f.action.names, Shows, n);
    assert log[|s.log|..] == tail;
  }

  /**
   * A block nested in an element of the field, with a sibling after it, makes
   * `setAction` throw with the block already remembered and the toolbar not moved.
   */
  lemma {:induction false} NestedBlockThrows(s: State, name: string, env: Env, b: NodeId)
    requires name in s.fields && Blocks.CurrentBlock(env.dom, env.anchor) == Some(b)
    requires s.fields[name].currentBlock != Some(b) && !s.fields[name].action.shown
    requires Blocks.SiblingsShareParent(env.dom) && b in env.dom.next
    requires env.dom.parent[b] != s.fields[name].element
    ensures var r := SetAction(s, name, env);
            r.0 == Fail(NotFound) && r.1.fields[name].currentBlock == Some(b) && !r.1.fields[name].action.shown
  {
    Blocks.InsertsAfterChild(env.dom, s.fields[name].element, b);
  }

  /**
   * `unsetAction`: when the field's element has element children, the toolbar
   * is removed from it, which throws `NotFoundError` unless the toolbar is one
   * of them; then the block is forgotten.
   */
  function UnsetAction(f: Field, dom: Blocks.Dom): (r: (Outcome<Error>, seq<Effect>, Field))
    ensures r.0.Fail? <==> UnsetThrows(f, dom)
    ensures r.0.Fail? ==> r == (Fail(NotFound), [], f)
    ensures r.0.Pass? ==> r.2 == f.(currentBlock := None, action := f.action.(shown := false))
    ensures r.1 == if f.action.shown then [UnmountAction(f.name)] else []
  {
    if UnsetThrows(f, dom) then (Fail(NotFound), [], f)
    else
      (Pass, if f.action.shown then [UnmountAction(f.name)] else [],
       f.(currentBlock := None, action := f.action.(shown := false)))
  }

  /** `removeChild` finds no toolbar among the element children of the field. */
  predicate UnsetThrows(f: Field, dom: Blocks.Dom)
  {
    !f.action.shown && !Blocks.Childless(dom, f.element)
  }

  /**
   * A rich field emptied with Backspace loses its toolbar with its markup but
   * keeps its block; once the user types into it again, `unsetAction` throws.
   */
  lemma {:induction false} EmptiedFieldThrowsOnUnset(f: Field, dom: Blocks.Dom, child: NodeId)
    requires f.length == 0 && f.currentBlock.Some?
    requires child in dom.parent && dom.parent[child] == f.element && child in dom.tag
    ensures var g := Fields.WithPlaceholder(f);
            g.currentBlock == f.currentBlock && UnsetAction(g, dom) == (Fail(NotFound), [], g)
  {
    var g := Fields.WithPlaceholder(f);
    assert !Blocks.Childless(dom, g.element);
  }

  /** `binds.selection`: a new range selection shows the edition toolbar, any other mouseup hides it. */
  function Select(s: State, name: string, rangeSelected: bool): (r: State)
    requires name in s.fields
    ensures SameShape(s, r) && r.subscribers == s.subscribers
    ensures r.fields == s.fields[name := r.fields[name]]
    ensures r.fields[name] == s.fields[name].(edition := r.fields[name].edition)
    ensures var ed := s.fields[name].edition;
            r.fields[name].edition == ed.(shown := rangeSelected && !ed.shown)
    ensures var ed := s.fields[name].edition;
            r.log == if rangeSelected && !ed.shown then s.log + Each(ed.methods, ed.names, Shows) + [ShowEdition(name)]
                     else if ed.shown then s.log + [HideEdition(name)]
                     else s.log
  {
    var f := s.fields[name];
    var ed := f.edition;
    if rangeSelected && !ed.shown then
      var t := Put(s, name, f.(edition := ed.(shown := true)));
      t.(log := t.log + Each(ed.methods, ed.names, Shows) + [ShowEdition(name)])
    else if ed.shown then
      var t := Put(s, name, f.(edition := ed.(shown := false)));
      t.(log := t.log + [HideEdition(name)])
    else s
  }

  /**
   * The edition toolbar is shown after a mouseup exactly when a range is selected
   * and it was hidden before: selecting again while it is shown hides it.
   */
  lemma {:induction false} SelectionToggles(s: State, name: string, rangeSelected: bool)
    requires name in s.fields
    ensures Select(s, name, rangeSelected).fields[name].edition.shown
            <==> rangeSelected && !s.fields[name].edition.shown
    ensures Select(s, name, rangeSelected).fields[name].edition.methods == s.fields[name].edition.methods
  {
  }

  // ---------------------------------------------------------------- focus

  function Focused(f: Field): (g: Field)
    ensures g.focus && "focus" in g.classes && g.name == f.name
  {
    f.(focus := true, classes := f.classes + {"focus"})
  }

  /**
   * The focus loop's work on a field other than `name`: it loses the focus,
   * and a rich one with a block runs `unsetAction`, which may throw after the
   * focus is gone and before the block is forgotten.
   */
  function Blur(f: Field, name: string, dom: Blocks.Dom): (g: Field)
    ensures g.name == f.name
    ensures f.name != name ==> !g.focus && "focus" !in g.classes
    ensures f.name != name ==>
              g == f.(focus := false, classes := f.classes - {"focus"},
                      currentBlock := if f.kind == Rich && !UnsetThrows(f, dom) then None else f.currentBlock,
                      action := if f.kind == Rich && f.currentBlock.Some? then f.action.(shown := false) else f.action)
    ensures f.name == name ==> g == f
  {
    if f.name == name then f
    else
      var g := f.(focus := false, classes := f.classes - {"focus"});
      if g.kind == Rich && g.currentBlock.Some? then UnsetAction(g, dom).2 else g
  }

  /** The loop body throws on this field. */
  predicate BlurThrows(f: Field, name: string, dom: Blocks.Dom)
  {
    f.name != name && f.kind == Rich && f.currentBlock.Some? && UnsetThrows(f, dom)
  }

  function BlurEffects(f: Field, name: string, dom: Blocks.Dom): seq<Effect>
  {
    if f.name != name && f.kind == Rich && f.currentBlock.Some? then UnsetAction(f, dom).1 else []
  }

  /**
   * How many of the fields named by `ks` the loop passes before one throws:
   * the index of the first throwing field, or `|ks|` when none throws.
   */
  function BlurReach(fs: map<string, Field>, ks: seq<string>, name: string, dom: Blocks.Dom): (n: nat)
    ensures n <= |ks|
    ensures forall i :: 0 <= i < n ==> !(ks[i] in fs && BlurThrows(fs[ks[i]], name, dom))
    ensures n < |ks| ==> ks[n] in fs && BlurThrows(fs[ks[n]], name, dom)
    decreases |ks|
  {
    if ks == [] then 0
    else if ks[0] in fs && BlurThrows(fs[ks[0]], name, dom) then 0
    else
      var m := BlurReach(fs, ks[1..], name, dom);
      assert forall i :: 1 <= i < m + 1 ==> ks[i] == ks[1..][i - 1];
      m + 1
  }

  /** The fields the loop visits: all of them, or those up to and including the one that throws. */
  function BlurVisits(s: State, name: string, dom: Blocks.Dom): (ks: seq<string>)
    ensures var n := BlurReach(s.fields, s.order, name, dom);
            ks == if n < |s.order| then s.order[..n + 1] else s.order
  {
    var n := BlurReach(s.fields, s.order, name, dom);
    if n < |s.order| then s.order[..n + 1] else s.order
  }

  /**
   * The loop of `binds.focus`: every field but `name`, in key order, loses the
   * focus and its action toolbar, until an `unsetAction` throws `NotFoundError`.
   */
  function BlurOthers(s: State, name: string, dom: Blocks.Dom): (r: (Outcome<Error>, State))
    ensures SameShape(s, r.1) && r.1.subscribers == s.subscribers
    ensures r.0.Fail? ==> r.0 == Fail(NotFound)
    ensures Valid(s) ==> (r.0.Fail? <==> exists k :: k in s.fields && BlurThrows(s.fields[k], name, dom))
    ensures Valid(s) ==>
              var n := BlurReach(s.fields, s.order, name, dom);
              forall i :: 0 <= i < |s.order| ==>
                r.1.fields[s.order[i]] == if i <= n then Blur(s.fields[s.order[i]], name, dom) else s.fields[s.order[i]]
  {
    var ks := BlurVisits(s, name, dom);
    BlurredShape(s, name, dom, ks);
    var r := (if BlurReach(s.fields, s.order, name, dom) < |s.order| then Fail(NotFound) else Pass,
              Blurred(s, name, dom, ks));
    if Valid(s) then
      BlurOthersReach(s, name, dom, r.1);
      r
    else r
  }

  function BlurBy(name: string, dom: Blocks.Dom): Field -> Field { (x: Field) => Blur(x, name, dom) }
  function BlurEffectsBy(name: string, dom: Blocks.Dom): Field -> seq<Effect> { (x: Field) => BlurEffects(x, name, dom) }

  function Blurred(s: State, name: string, dom: Blocks.Dom, ks: seq<string>): State
  {
    s.(fields := Apply(s.fields, ks, BlurBy(name, dom)),
       log := s.log + Gather(s.fields, ks, BlurEffectsBy(name, dom)))
  }

  lemma {:induction false} BlurredShape(s: State, name: string, dom: Blocks.Dom, ks: seq<string>)
    ensures var t := Blurred(s, name, dom, ks);
            SameShape(s, t) && t.subscribers == s.subscribers
  {
    ApplyKeys(s.fields, ks, BlurBy(name, dom));
    ApplyNames(s.fields, ks, BlurBy(name, dom));
  }

  /** A name of a list of distinct names occurs in a prefix iff its index falls inside it. */
  lemma {:induction false} PrefixHas(ks: seq<string>, m: nat, i: nat)
    requires Distinct(ks) && m <= |ks| && i < |ks|
    ensures ks[i] in ks[..m] <==> i < m
  {
    if i < m {
      assert ks[..m][i] == ks[i];
    } else {
      forall j | 0 <= j < m ensures ks[..m][j] != ks[i] {
        assert ks[..m][j] == ks[j];
      }
    }
  }

  /** The facts `BlurOthers` states, for the state it builds. */
  lemma {:induction false} BlurOthersReach(s: State, name: string, dom: Blocks.Dom, t: State)
    requires Valid(s) && t == Blurred(s, name, dom, BlurVisits(s, name, dom))
    ensures BlurReach(s.fields, s.order, name, dom) == |s.order| <==> forall k :: k in s.fields ==> !BlurThrows(s.fields[k], name, dom)
    ensures t.fields.Keys == s.fields.Keys
    ensures var n := BlurReach(s.fields, s.order, name, dom);
            forall i :: 0 <= i < |s.order| ==>
              t.fields[s.order[i]] == if i <= n then Blur(s.fields[s.order[i]], name, dom) else s.fields[s.order[i]]
  {
    ApplyKeys(s.fields, BlurVisits(s, name, dom), BlurBy(name, dom));
    forall i | 0 <= i < |s.order|
      ensures t.fields[s.order[i]] == if i <= BlurReach(s.fields, s.order, name, dom) then Blur(s.fields[s.order[i]], name, dom) else s.fields[s.order[i]]
    {
      BlurVisitedAt(s, name, dom, i);
    }
    BlurReachAll(s, name, dom);
  }

  /** The loop has visited the `i`-th field iff it did not stop before it. */
  lemma {:induction false} BlurVisitedAt(s: State, name: string, dom: Blocks.Dom, i: nat)
    requires Valid(s) && i < |s.order|
    ensures var n := BlurReach(s.fields, s.order, name, dom);
            var fs := Apply(s.fields, BlurVisits(s, name, dom), BlurBy(name, dom));
            s.order[i] in fs && fs[s.order[i]] == if i <= n then Blur(s.fields[s.order[i]], name, dom) else s.fields[s.order[i]]
  {
    var n := BlurReach(s.fields, s.order, name, dom);
    var ks := BlurVisits(s, name, dom);
    var m := if n < |s.order| then n + 1 else n;
    assert ks == s.order[..m];
    assert Distinct(ks);
    PrefixHas(s.order, m, i);
    ApplyAt(s.fields, ks, BlurBy(name, dom), s.order[i]);
  }

  /** The loop gets through every field iff no field throws. */
  lemma {:induction false} BlurReachAll(s: State, name: string, dom: Blocks.Dom)
    requires Valid(s)
    ensures BlurReach(s.fields, s.order, name, dom) == |s.order| <==> forall k :: k in s.fields ==> !BlurThrows(s.fields[k], name, dom)
  {
    var n := BlurReach(s.fields, s.order, name, dom);
    if n == |s.order| {
      forall k | k in s.fields ensures !BlurThrows(s.fields[k], name, dom) {
        var i :| 0 <= i < |s.order| && s.order[i] == k;
      }
    } else {
      assert s.order[n] in s.fields && BlurThrows(s.fields[s.order[n]], name, dom);
    }
  }

  /**
   * `binds.focus`: unless the event is ignored, the field gains the focus (and,
   * when rich, its action toolbar), then every other field loses it. Either
   * `setAction` or an `unsetAction` of the loop may throw.
   */
  function Focus(s: State, name: string, e: Keys.Event, env: Env): (r: (Outcome<Error>, State))
    requires name in s.fields
    ensures SameShape(s, r.1) && r.1.subscribers == s.subscribers
    ensures Keys.FocusIgnored(e, s.fields[name].length) ==> r == (Pass, s)
    ensures (!Keys.FocusIgnored(e, s.fields[name].length) && s.fields[name].kind == Rich
             && ActionThrows(s.fields[name], env)) ==> r.0.Fail?
    ensures Valid(s) ==>
              (r.0.Fail? <==> !Keys.FocusIgnored(e, s.fields[name].length)
                              && ((s.fields[name].kind == Rich && ActionThrows(s.fields[name], env))
                                  || exists k :: k in s.fields && k != name && BlurThrows(s.fields[k], name, env.dom)))
  {
    if Keys.FocusIgnored(e, s.fields[name].length) then (Pass, s)
    else
      var a := Prepared(s, name, env);
      if a.0.Fail? then a
      else if Valid(s) then
        PreparedBlurThrows(s, name, env);
        BlurOthers(a.1, name, env.dom)
      else BlurOthers(a.1, name, env.dom)
  }

  /** The first half of `binds.focus`: the field takes the focus, and a rich one runs `setAction`. */
  function Prepared(s: State, name: string, env: Env): (r: (Outcome<Error>, State))
    requires name in s.fields
    ensures SameShape(s, r.1) && r.1.subscribers == s.subscribers
    ensures r.0.Fail? <==> s.fields[name].kind == Rich && ActionThrows(s.fields[name], env)
    ensures r.1.fields[name].focus && "focus" in r.1.fields[name].classes
    ensures r.1.fields[name].length == s.fields[name].length
    ensures forall k :: k in s.fields && k != name ==> r.1.fields[k] == s.fields[k]
  {
    var f := s.fields[name];
    var s1 := Put(s, name, Focused(f));
    if f.kind == Rich then
      SetActionKeepsFocus(s1, name, env);
      SetAction(s1, name, env)
    else (Pass, s1)
  }

  /** After the first half, exactly the other fields that would throw before it still do. */
  lemma {:induction false} PreparedBlurThrows(s: State, name: string, env: Env)
    requires Valid(s) && name in s.fields
    ensures var u := Prepared(s, name, env).1;
            Valid(u)
            && ((exists k :: k in u.fields && BlurThrows(u.fields[k], name, env.dom))
                <==> exists k :: k in s.fields && k != name && BlurThrows(s.fields[k], name, env.dom))
  {
    var u := Prepared(s, name, env).1;
    SameShapeValid(s, u);
    if exists k :: k in u.fields && BlurThrows(u.fields[k], name, env.dom) {
      var k :| k in u.fields && BlurThrows(u.fields[k], name, env.dom);
      assert u.fields[k].name == k != name;
      assert k in s.fields && BlurThrows(s.fields[k], name, env.dom);
    }
    if exists k :: k in s.fields && k != name && BlurThrows(s.fields[k], name, env.dom) {
      var k :| k in s.fields && k != name && BlurThrows(s.fields[k], name, env.dom);
      assert k in u.fields && u.fields[k] == s.fields[k];
    }
  }

  /**
   * After a focus that goes through, the named field is the one and only focused
   * field, and every other one has lost its block.
   */
  lemma {:induction false} FocusIsExclusive(s: State, name: string, e: Keys.Event, env: Env)
    requires Valid(s) && name in s.fields
    requires !Keys.FocusIgnored(e, s.fields[name].length)
    requires Focus(s, name, e, env).0.Pass?
    ensures var t := Focus(s, name, e, env).1;
            t.fields[name].focus && "focus" in t.fields[name].classes
            && forall k :: k in t.fields && k != name ==> !t.fields[k].focus
    ensures var t := Focus(s, name, e, env).1;
            forall k :: k in s.fields && k != name ==>
              t.fields[k] == Blur(s.fields[k], name, env.dom) && "focus" !in t.fields[k].classes
              && (s.fields[k].kind == Rich ==> t.fields[k].currentBlock.None?)
  {
    var u := FocusBeforeBlur(s, name, e, env);
    BlurOthersExclusive(u, name, env.dom);
  }

  /** A focus that gets past `setAction` is the blur loop run on a valid state where only the field has changed, and is focused. */
  lemma {:induction false} FocusBeforeBlur(s: State, name: string, e: Keys.Event, env: Env) returns (u: State)
    requires Valid(s) && name in s.fields
    requires !Keys.FocusIgnored(e, s.fields[name].length)
    requires !(s.fields[name].kind == Rich && ActionThrows(s.fields[name], env))
    ensures Valid(u) && name in u.fields && u.fields[name].focus && "focus" in u.fields[name].classes
    ensures forall k :: k in s.fields && k != name ==> k in u.fields && u.fields[k] == s.fields[k]
    ensures Focus(s, name, e, env) == BlurOthers(u, name, env.dom)
  {
    u := Prepared(s, name, env).1;
    SameShapeValid(s, u);
  }

  /** `setAction` keeps the editor valid and leaves the field's focus alone. */
  lemma {:induction false} SetActionKeepsFocus(s: State, name: string, env: Env)
    requires name in s.fields
    ensures var t := SetAction(s, name, env).1;
            (Valid(s) ==> Valid(t)) && t.fields[name].focus == s.fields[name].focus
            && t.fields[name].classes == s.fields[name].classes
            && forall k :: k in s.fields && k != name ==> t.fields[k] == s.fields[k]
  {
    var t := SetAction(s, name, env).1;
    if Valid(s) { SameShapeValid(s, t); }
    assert t.fields == s.fields[name := t.fields[name]];
  }

  /** The blur loop leaves the focused field itself as it was. */
  lemma {:induction false} BlurKeepsTarget(s: State, name: string, dom: Blocks.Dom)
    requires Valid(s) && name in s.fields
    ensures BlurOthers(s, name, dom).1.fields[name] == s.fields[name]
  {
    var p :| 0 <= p < |s.order| && s.order[p] == name;
    assert Blur(s.fields[name], name, dom) == s.fields[name];
  }

  lemma {:induction false} BlurOthersExclusive(s: State, name: string, dom: Blocks.Dom)
    requires Valid(s) && name in s.fields && s.fields[name].focus && "focus" in s.fields[name].classes
    requires BlurOthers(s, name, dom).0.Pass?
    ensures var t := BlurOthers(s, name, dom).1;
            t.fields[name].focus && "focus" in t.fields[name].classes
            && forall k :: k in t.fields && k != name ==> !t.fields[k].focus
    ensures var t := BlurOthers(s, name, dom).1;
            forall k :: k in s.fields && k != name ==>
              t.fields[k] == Blur(s.fields[k], name, dom)
              && (s.fields[k].kind == Rich ==> t.fields[k].currentBlock.None?)
  {
    var t := BlurOthers(s, name, dom).1;
    BlurKeepsTarget(s, name, dom);
    forall k | k in s.fields && k != name
      ensures t.fields[k] == Blur(s.fields[k], name, dom)
      ensures s.fields[k].kind == Rich ==> t.fields[k].currentBlock.None?
    {
      BlurPassAt(s, name, dom, k);
      assert s.fields[k].name == k;
    }
  }

  /** A loop that goes through blurs every field, and none of them throws. */
  lemma {:induction false} BlurPassAt(s: State, name: string, dom: Blocks.Dom, k: string)
    requires Valid(s) && k in s.fields
    requires BlurOthers(s, name, dom).0.Pass?
    ensures BlurOthers(s, name, dom).1.fields[k] == Blur(s.fields[k], name, dom)
    ensures !BlurThrows(s.fields[k], name, dom)
  {
    assert BlurReach(s.fields, s.order, name, dom) == |s.order|;
    var i :| 0 <= i < |s.order| && s.order[i] == k;
  }

  /**
   * When `setAction` throws, the field keeps the focus it had just gained and
   * every other field keeps its own: the blur loop never runs.
   */
  lemma {:induction false} FocusThrowKeepsOthers(s: State, name: string, e: Keys.Event, env: Env)
    requires name in s.fields
    requires !Keys.FocusIgnored(e, s.fields[name].length) && s.fields[name].kind == Rich
    requires ActionThrows(s.fields[name], env)
    ensures var t := Focus(s, name, e, env);
            && t.0.Fail?
            && t.1.fields[name].focus && "focus" in t.1.fields[name].classes
            && forall k :: k in s.fields && k != name ==> t.1.fields[k] == s.fields[k]
  {
  }

  /** So a throwing focus leaves two fields focused when another one had the focus before. */
  lemma {:induction false} FocusThrowLeavesTwoFocused(s: State, name: string, other: string, e: Keys.Event, env: Env)
    requires name in s.fields && other in s.fields && other != name && s.fields[other].focus
    requires !Keys.FocusIgnored(e, s.fields[name].length) && s.fields[name].kind == Rich
    requires ActionThrows(s.fields[name], env)
    ensures var t := Focus(s, name, e, env).1;
            t.fields[name].focus && t.fields[other].focus
  {
    FocusThrowKeepsOthers(s, name, e, env);
  }

  /** One more step of the loop: it stops at the `i`-th name if that field throws, and goes on otherwise. */
  lemma {:induction false} BlurReachNext(fs: map<string, Field>, ks: seq<string>, name: string, dom: Blocks.Dom, i: nat)
    requires i < |ks| && i <= BlurReach(fs, ks, name, dom)
    ensures ks[i] in fs && BlurThrows(fs[ks[i]], name, dom) ==> BlurReach(fs, ks, name, dom) == i
    ensures !(ks[i] in fs && BlurThrows(fs[ks[i]], name, dom)) ==> i + 1 <= BlurReach(fs, ks, name, dom)
  {
  }

  /** The `i`-th name is the first whose field throws, so the loop stops there. */
  lemma {:induction false} BlurReachIs(fs: map<string, Field>, ks: seq<string>, name: string, dom: Blocks.Dom, i: nat)
    requires i < |ks| && ks[i] in fs && BlurThrows(fs[ks[i]], name, dom)
    requires forall j :: 0 <= j < i ==> !(ks[j] in fs && BlurThrows(fs[ks[j]], name, dom))
    ensures BlurReach(fs, ks, name, dom) == i
    decreases |ks|
  {
    if i > 0 {
      var ks' := ks[1..];
      forall j | 0 <= j < i - 1 ensures !(ks'[j] in fs && BlurThrows(fs[ks'[j]], name, dom)) {
        assert ks'[j] == ks[j + 1];
      }
      BlurReachIs(fs, ks', name, dom, i - 1);
    }
  }

  /**
   * When `setAction` goes through but the loop's `unsetAction` throws on the
   * `i`-th field in key order, the fields before it are blurred, the thrower has
   * lost the focus but keeps its block, and the fields after it are untouched.
   */
  lemma {:induction false} BlurThrowStopsLoop(s: State, name: string, e: Keys.Event, env: Env, i: nat)
    requires Valid(s) && name in s.fields
    requires !Keys.FocusIgnored(e, s.fields[name].length)
    requires !(s.fields[name].kind == Rich && ActionThrows(s.fields[name], env))
    requires i < |s.order| && BlurThrows(s.fields[s.order[i]], name, env.dom)
    requires forall j :: 0 <= j < i ==> !BlurThrows(s.fields[s.order[j]], name, env.dom)
    ensures var t := Focus(s, name, e, env);
            && t.0 == Fail(NotFound)
            && t.1.fields[name].focus
            && !t.1.fields[s.order[i]].focus
            && t.1.fields[s.order[i]].currentBlock == s.fields[s.order[i]].currentBlock
  {
    var u := FocusBeforeBlur(s, name, e, env);
    ThrowsBeforeBlur(s, u, name, env.dom, i);
    BlurOthersStops(u, name, env.dom, i);
  }

  /** The fields after the thrower in key order keep their focus, their block and their toolbar. */
  lemma {:induction false} BlurThrowSparesLater(s: State, name: string, e: Keys.Event, env: Env, i: nat)
    requires Valid(s) && name in s.fields
    requires !Keys.FocusIgnored(e, s.fields[name].length)
    requires !(s.fields[name].kind == Rich && ActionThrows(s.fields[name], env))
    requires i < |s.order| && BlurThrows(s.fields[s.order[i]], name, env.dom)
    requires forall j :: 0 <= j < i ==> !BlurThrows(s.fields[s.order[j]], name, env.dom)
    ensures var t := Focus(s, name, e, env).1;
            forall j :: i < j < |s.order| && s.order[j] != name ==> t.fields[s.order[j]] == s.fields[s.order[j]]
  {
    var u := FocusBeforeBlur(s, name, e, env);
    ThrowsBeforeBlur(s, u, name, env.dom, i);
    BlurOthersSpares(u, name, env.dom, i);
    var t := BlurOthers(u, name, env.dom).1;
    forall j | i < j < |s.order| && s.order[j] != name
      ensures t.fields[s.order[j]] == s.fields[s.order[j]]
    {
      assert u.fields[u.order[j]] == s.fields[s.order[j]];
    }
  }

  /** The fields before the thrower in key order have been blurred. */
  lemma {:induction false} BlurThrowBlursEarlier(s: State, name: string, e: Keys.Event, env: Env, i: nat)
    requires Valid(s) && name in s.fields
    requires !Keys.FocusIgnored(e, s.fields[name].length)
    requires !(s.fields[name].kind == Rich && ActionThrows(s.fields[name], env))
    requires i < |s.order| && BlurThrows(s.fields[s.order[i]], name, env.dom)
    requires forall j :: 0 <= j < i ==> !BlurThrows(s.fields[s.order[j]], name, env.dom)
    ensures var t := Focus(s, name, e, env).1;
            forall j :: 0 <= j < i && s.order[j] != name ==> t.fields[s.order[j]] == Blur(s.fields[s.order[j]], name, env.dom)
  {
    var u := FocusBeforeBlur(s, name, e, env);
    ThrowsBeforeBlur(s, u, name, env.dom, i);
    BlurOthersStops(u, name, env.dom, i);
    var t := BlurOthers(u, name, env.dom).1;
    forall j | 0 <= j < i && s.order[j] != name
      ensures t.fields[s.order[j]] == Blur(s.fields[s.order[j]], name, env.dom)
    {
      assert u.fields[u.order[j]] == s.fields[s.order[j]];
    }
  }

  /** The state the loop starts from throws at the same field as the state before the focus. */
  lemma {:induction false} ThrowsBeforeBlur(s: State, u: State, name: string, dom: Blocks.Dom, i: nat)
    requires Valid(s) && name in s.fields && SameShape(s, u)
    requires forall k :: k in s.fields && k != name ==> k in u.fields && u.fields[k] == s.fields[k]
    requires i < |s.order| && BlurThrows(s.fields[s.order[i]], name, dom)
    requires forall j :: 0 <= j < i ==> !BlurThrows(s.fields[s.order[j]], name, dom)
    ensures s.order[i] != name && u.fields[u.order[i]] == s.fields[s.order[i]] && u.order == s.order
    ensures forall j :: 0 <= j < i ==> !BlurThrows(u.fields[u.order[j]], name, dom)
  {
    assert s.fields[s.order[i]].name == s.order[i];
    forall j | 0 <= j < i ensures !BlurThrows(u.fields[u.order[j]], name, dom) {
      if u.order[j] != name {
        assert u.fields[u.order[j]] == s.fields[s.order[j]];
      } else {
        assert u.fields[name].name == name;
      }
    }
  }

  /** The blur loop alone, stopping at the `i`-th field. */
  lemma {:induction false} BlurOthersStops(s: State, name: string, dom: Blocks.Dom, i: nat)
    requires Valid(s) && name in s.fields
    requires i < |s.order| && BlurThrows(s.fields[s.order[i]], name, dom)
    requires forall j :: 0 <= j < i ==> !BlurThrows(s.fields[s.order[j]], name, dom)
    ensures var t := BlurOthers(s, name, dom);
            && t.0 == Fail(NotFound)
            && t.1.fields[name] == s.fields[name]
            && forall j :: 0 <= j <= i ==> t.1.fields[s.order[j]] == Blur(s.fields[s.order[j]], name, dom)
  {
    forall j | 0 <= j < i ensures !(s.order[j] in s.fields && BlurThrows(s.fields[s.order[j]], name, dom)) {
    }
    BlurReachIs(s.fields, s.order, name, dom, i);
    BlurKeepsTarget(s, name, dom);
  }

  /** The fields after the `i`-th are not reached. */
  lemma {:induction false} BlurOthersSpares(s: State, name: string, dom: Blocks.Dom, i: nat)
    requires Valid(s) && name in s.fields
    requires i < |s.order| && BlurThrows(s.fields[s.order[i]], name, dom)
    requires forall j :: 0 <= j < i ==> !BlurThrows(s.fields[s.order[j]], name, dom)
    ensures var t := BlurOthers(s, name, dom).1;
            forall j :: i < j < |s.order| ==> t.fields[s.order[j]] == s.fields[s.order[j]]
  {
    forall j | 0 <= j < i ensures !(s.order[j] in s.fields && BlurThrows(s.fields[s.order[j]], name, dom)) {
    }
    BlurReachIs(s.fields, s.order, name, dom, i);
  }

  /** So a throwing blur leaves two fields focused when a field after the thrower had the focus. */
  lemma {:induction false} BlurThrowLeavesTwoFocused(s: State, name: string, e: Keys.Event, env: Env, i: nat, j: nat)
    requires Valid(s) && name in s.fields
    requires !Keys.FocusIgnored(e, s.fields[name].length)
    requires !(s.fields[name].kind == Rich && ActionThrows(s.fields[name], env))
    requires i < j < |s.order| && BlurThrows(s.fields[s.order[i]], name, env.dom)
    requires forall j :: 0 <= j < i ==> !BlurThrows(s.fields[s.order[j]], name, env.dom)
    requires s.order[j] != name && s.fields[s.order[j]].focus
    ensures var t := Focus(s, name, e, env).1;
            t.fields[name].focus && t.fields[s.order[j]].focus
  {
    BlurThrowStopsLoop(s, name, e, env, i);
    BlurThrowSparesLater(s, name, e, env, i);
  }

  // ---------------------------------------------------------------- content listeners

  /** `binds.paste`: the default paste is cancelled and the clipboard text inserted as markup. */
  function InsertPaste(s: State, name: string, clipboard: string): (r: State)
    requires name in s.fields
    ensures r == s.(log := s.log + [PreventDefault(name), InsertHtml(name, Paste.PasteHtml(s.fields[name].kind, clipboard))])
  {
    s.(log := s.log + [PreventDefault(name), InsertHtml(name, Paste.PasteHtml(s.fields[name].kind, clipboard))])
  }

  /**
   * The guard of `binds.blocksCreation`: the caret sits in an element without
   * child elements and the key is not Backspace, or an empty field is clicked.
   */
  predicate CreatesBlock(dom: Blocks.Dom, anchor: Option<NodeId>, length: int, e: Keys.Event)
  {
    var node := Blocks.CurrentNode(dom, anchor);
    (node.Some? && Blocks.Childless(dom, node.value) && e.which != Some(8))
    || (length == 0 && e.which == Some(1))
  }

  /** `binds.blocksCreation`: wraps the caret's line in a new block when the guard holds. */
  function CreateBlock(s: State, name: string, e: Keys.Event, env: Env): (r: State)
    requires name in s.fields
    ensures CreatesBlock(env.dom, env.anchor, s.fields[name].length, e) ==> r == s.(log := s.log + [FormatBlock(name)])
    ensures !CreatesBlock(env.dom, env.anchor, s.fields[name].length, e) ==> r == s
  {
    if CreatesBlock(env.dom, env.anchor, s.fields[name].length, e) then s.(log := s.log + [FormatBlock(name)]) else s
  }

  /** A click into an empty rich field always starts a block, wherever the caret is. */
  lemma {:induction false} ClickIntoEmptyFieldCreatesBlock(s: State, name: string, e: Keys.Event, env: Env)
    requires name in s.fields && s.fields[name].length == 0 && e.which == Some(1)
    ensures CreateBlock(s, name, e, env).log == s.log + [FormatBlock(name)]
  {
  }

  /** `binds.disableBlocks`: Enter is cancelled in a simple field. */
  function CancelEnter(s: State, name: string, e: Keys.Event): (r: State)
    ensures e.which == Some(13) ==> r == s.(log := s.log + [PreventDefault(name)])
    ensures e.which != Some(13) ==> r == s
  {
    if Keys.DisableBlocks(e) then s.(log := s.log + [PreventDefault(name)]) else s
  }

  // ---------------------------------------------------------------- plugins

  /** `methods[plugin.name] = plugin` followed by `element.appendChild(plugin.register())`. */
  function AddPlugin(slot: Slot, inst: Instance): (r: Slot)
    ensures r.methods == slot.methods[inst.plugin := inst]
    ensures r.mounted == slot.mounted + [inst]
    ensures r.names == if inst.plugin in slot.names then slot.names else slot.names + [inst.plugin]
    ensures inst.plugin in r.names && r.shown == slot.shown
    ensures forall n :: n in slot.names ==> n in r.names
  {
    slot.(methods := slot.methods[inst.plugin := inst],
          names := if inst.plugin in slot.names then slot.names else slot.names + [inst.plugin],
          mounted := slot.mounted + [inst])
  }

  /** The slot's key order lists each key of its `methods` object once. */
  ghost predicate Indexed(slot: Slot)
  {
    Distinct(slot.names) && forall n :: n in slot.methods <==> n in slot.names
  }

  /** Storing a plugin keeps the key order in step with the `methods` object. */
  lemma {:induction false} AddPluginIndexed(slot: Slot, inst: Instance)
    requires Indexed(slot)
    ensures Indexed(AddPlugin(slot, inst))
  {
    var r := AddPlugin(slot, inst);
    if inst.plugin !in slot.names {
      forall i, j | 0 <= i < j < |r.names| ensures r.names[i] != r.names[j] {
        if j == |slot.names| {
          assert r.names[i] == slot.names[i];
        } else {
          assert r.names[i] == slot.names[i] && r.names[j] == slot.names[j];
        }
      }
    }
  }

  /** One field's part of `register`: only rich fields take plugins. */
  function Registered(f: Field, slot: string, plugin: string, serial: nat): (g: Field)
    requires slot == "action" || slot == "edition"
    ensures g.name == f.name
  {
    if f.kind != Rich then f
    else
      var inst := Instance(plugin, f.name, serial);
      if slot == "action" then f.(action := AddPlugin(f.action, inst)) else f.(edition := AddPlugin(f.edition, inst))
  }

  function RegisterBy(slot: string, plugin: string, serial: nat): Field -> Field
    requires slot == "action" || slot == "edition"
  {
    (f: Field) => Registered(f, slot, plugin, serial)
  }

  predicate AnyRich(s: State)
  {
    exists k :: k in s.fields && s.fields[k].kind == Rich
  }

  /**
   * `register(type, Plugin)`: one new plugin object per rich field, stored under
   * its name in the slot. Any slot but `action` and `edition` makes the first rich
   * field throw, before anything has changed.
   */
  function Register(s: State, slot: string, plugin: string): (r: (Outcome<Error>, State))
    ensures SameShape(s, r.1) && r.1.subscribers == s.subscribers && r.1.log == s.log
    ensures slot != "action" && slot != "edition" ==> r.1 == s && (r.0.Fail? <==> AnyRich(s))
    ensures slot == "action" || slot == "edition" ==> r.0.Pass?
  {
    if slot != "action" && slot != "edition" then
      if AnyRich(s) then (Fail(UnknownSlot), s) else (Pass, s)
    else
      var g := RegisterBy(slot, plugin, s.serial);
      ApplyKeys(s.fields, s.order, g);
      ApplyNames(s.fields, s.order, g);
      (Pass, s.(fields := Apply(s.fields, s.order, g), serial := s.serial + 1))
  }

  /** `register` keeps every slot's key order in step with its `methods` object. */
  lemma {:induction false} RegisterKeepsIndexed(s: State, slot: string, plugin: string, k: string)
    requires Valid(s) && k in s.fields
    requires Indexed(s.fields[k].action) && Indexed(s.fields[k].edition)
    ensures var g := Register(s, slot, plugin).1.fields[k];
            Indexed(g.action) && Indexed(g.edition)
  {
    if slot == "action" || slot == "edition" {
      RegisterReachesRichFields(s, slot, plugin, k);
      var inst := Instance(plugin, k, s.serial);
      AddPluginIndexed(s.fields[k].action, inst);
      AddPluginIndexed(s.fields[k].edition, inst);
    }
  }

  /** After `register`, every rich field holds the new plugin under its name, and simple fields are untouched. */
  lemma {:induction false} RegisterReachesRichFields(s: State, slot: string, plugin: string, k: string)
    requires Valid(s) && k in s.fields
    requires slot == "action" || slot == "edition"
    ensures var f := s.fields[k];
            var g := Register(s, slot, plugin).1.fields[k];
            var inst := Instance(plugin, k, s.serial);
            if f.kind == Rich then
              if slot == "action" then g == f.(action := AddPlugin(f.action, inst))
              else g == f.(edition := AddPlugin(f.edition, inst))
            else g == f
    ensures Register(s, slot, plugin).1.serial == s.serial + 1
  {
    ApplyAt(s.fields, s.order, RegisterBy(slot, plugin, s.serial), k);
  }

  // ---------------------------------------------------------------- teardown

  /** `destroy` takes six handlers off a field; the `DOMNodeInserted` one stays. */
  function Detach(f: Field): (g: Field)
    ensures g.attached == f.attached * {"DOMNodeInserted"} && g.name == f.name
  {
    f.(attached := f.attached * {"DOMNodeInserted"})
  }

  /** `destroy` calls every plugin of a rich field: the action slot's, then the edition slot's. */
  function DestroyEffects(f: Field): seq<Effect>
  {
    if f.kind == Rich
    then Each(f.action.methods, f.action.names, Destroys) + Each(f.edition.methods, f.edition.names, Destroys)
    else []
  }

  function Destroy(s: State): (r: State)
    ensures SameShape(s, r) && r.subscribers == s.subscribers
    ensures Valid(s) ==> forall k :: k in s.fields ==> r.fields[k] == Detach(s.fields[k])
  {
    ApplyKeys(s.fields, s.order, Detach);
    ApplyNames(s.fields, s.order, Detach);
    if Valid(s) then ApplyShape(s, Detach); DestroyState(s) else DestroyState(s)
  }

  function DestroyState(s: State): State
  {
    s.(fields := Apply(s.fields, s.order, Detach), log := s.log + Gather(s.fields, s.order, DestroyEffects))
  }

  /** Every effect of a loop over plugins made with `Destroys` is a plugin's `destroy()`. */
  lemma {:induction false} EachDestroys(methods: map<string, Instance>, names: seq<string>)
    ensures forall x :: x in Each(methods, names, Destroys) ==> x.DestroyPlugin?
    decreases |names|
  {
    if names != [] { EachDestroys(methods, names[..|names| - 1]); }
  }

  /** `d` occurs in `g` starting at index `i`. */
  predicate OccursAt(d: seq<Effect>, g: seq<Effect>, i: int)
  {
    0 <= i <= |g| - |d| && g[i..i + |d|] == d
  }

  /** `h`'s effects for a visited field appear, as one block, among those of the loop. */
  lemma {:induction false} GatherHas(fs: map<string, Field>, ks: seq<string>, h: Field -> seq<Effect>, k: string)
    requires k in ks && k in fs
    ensures exists i :: OccursAt(h(fs[k]), Gather(fs, ks, h), i)
    decreases |ks|
  {
    var ks' := ks[..|ks| - 1];
    var p := Gather(fs, ks', h);
    var g := Gather(fs, ks, h);
    var m := |h(fs[k])|;
    if k == ks[|ks| - 1] {
      assert g == p + h(fs[k]);
      assert g[|p|..|p| + m] == h(fs[k]);
      assert OccursAt(h(fs[k]), g, |p|);
    } else {
      assert k in ks' by {
        var i :| 0 <= i < |ks| && ks[i] == k;
        assert ks'[i] == k;
      }
      GatherHas(fs, ks', h, k);
      var i :| OccursAt(h(fs[k]), p, i);
      assert g[..|p|] == p;
      assert g[i..i + m] == p[i..i + m];
      assert OccursAt(h(fs[k]), g, i);
    }
  }

  /** The loop of `destroy` does nothing but call plugins' `destroy()`. */
  lemma {:induction false} GatherDestroys(fs: map<string, Field>, ks: seq<string>)
    ensures forall x :: x in Gather(fs, ks, DestroyEffects) ==> x.DestroyPlugin?
    decreases |ks|
  {
    if ks != [] {
      GatherDestroys(fs, ks[..|ks| - 1]);
      var k := ks[|ks| - 1];
      if k in fs {
        EachDestroys(fs[k].action.methods, fs[k].action.names);
        EachDestroys(fs[k].edition.methods, fs[k].edition.names);
      }
    }
  }

  /**
   * `destroy` calls `destroy()` on each plugin of a rich field, every action
   * plugin before every edition plugin.
   */
  lemma {:induction false} DestroyEffectsOrder(f: Field, a: string, b: string)
    requires f.kind == Rich
    requires a in f.action.names && a in f.action.methods
    requires b in f.edition.names && b in f.edition.methods
    ensures exists i, j :: 0 <= i < j < |DestroyEffects(f)|
                           && DestroyEffects(f)[i] == DestroyPlugin(f.action.methods[a])
                           && DestroyEffects(f)[j] == DestroyPlugin(f.edition.methods[b])
  {
    var A := Each(f.action.methods, f.action.names, Destroys);
    var E := Each(f.edition.methods, f.edition.names, Destroys);
    EachHas(f.action.methods, f.action.names, Destroys, a);
    EachHas(f.edition.methods, f.edition.names, Destroys, b);
    var i :| 0 <= i < |A| && A[i] == DestroyPlugin(f.action.methods[a]);
    var j :| 0 <= j < |E| && E[j] == DestroyPlugin(f.edition.methods[b]);
    var d := DestroyEffects(f);
    assert d == A + E;
    assert d[i] == A[i] && d[|A| + j] == E[j];
  }

  /**
   * `destroy` appends to the log, for every rich field, that field's plugin calls
   * as one block, and nothing but plugin calls.
   */
  lemma {:induction false} DestroyCallsPlugins(s: State, k: string)
    requires k in s.fields && k in s.order
    ensures var log := Destroy(s).log; var d := DestroyEffects(s.fields[k]);
            && |s.log| <= |log| && log[..|s.log|] == s.log
            && (forall i :: |s.log| <= i < |log| ==> log[i].DestroyPlugin?)
            && exists i :: |s.log| <= i && OccursAt(d, log, i)
  {
    var g := Gather(s.fields, s.order, DestroyEffects);
    var log := Destroy(s).log;
    var d := DestroyEffects(s.fields[k]);
    assert log == s.log + g;
    GatherDestroys(s.fields, s.order);
    forall i | |s.log| <= i < |log| ensures log[i].DestroyPlugin? {
      assert log[i] == g[i - |s.log|];
      assert g[i - |s.log|] in g;
    }
    GatherHas(s.fields, s.order, DestroyEffects, k);
    var i :| OccursAt(d, g, i);
    assert log[|s.log| + i..|s.log| + i + |d|] == g[i..i + |d|];
    assert OccursAt(d, log, |s.log| + i);
  }

  /** An element of a block that occurs after `lo` is itself found after `lo`. */
  lemma {:induction false} OccursWithin(d: seq<Effect>, log: seq<Effect>, i: int, lo: nat, x: Effect)
    requires OccursAt(d, log, i) && lo <= i && x in d
    ensures x in log[lo..]
  {
    var j :| 0 <= j < |d| && d[j] == x;
    assert log[i..i + |d|][j] == log[i + j];
    assert log[lo..][i + j - lo] == log[i + j];
  }

  /** A rich field's plugin calls name every plugin of both slots. */
  lemma {:induction false} DestroyEffectsHas(f: Field, n: string)
    requires f.kind == Rich && Indexed(f.action) && Indexed(f.edition)
    ensures n in f.action.methods ==> DestroyPlugin(f.action.methods[n]) in DestroyEffects(f)
    ensures n in f.edition.methods ==> DestroyPlugin(f.edition.methods[n]) in DestroyEffects(f)
  {
    var A := Each(f.action.methods, f.action.names, Destroys);
    var E := Each(f.edition.methods, f.edition.names, Destroys);
    assert DestroyEffects(f) == A + E;
    if n in f.action.methods {
      EachHas(f.action.methods, f.action.names, Destroys, n);
    }
    if n in f.edition.methods {
      EachHas(f.edition.methods, f.edition.names, Destroys, n);
    }
  }

  /** Every plugin stored on a rich field is destroyed. */
  lemma {:induction false} DestroyReachesEveryPlugin(s: State, k: string, n: string)
    requires Valid(s) && k in s.fields && s.fields[k].kind == Rich
    requires Indexed(s.fields[k].action) && Indexed(s.fields[k].edition)
    ensures n in s.fields[k].action.methods ==> DestroyPlugin(s.fields[k].action.methods[n]) in Destroy(s).log[|s.log|..]
    ensures n in s.fields[k].edition.methods ==> DestroyPlugin(s.fields[k].edition.methods[n]) in Destroy(s).log[|s.log|..]
  {
    var f := s.fields[k];
    var d := DestroyEffects(f);
    var log := Destroy(s).log;
    DestroyCallsPlugins(s, k);
    var i :| |s.log| <= i && OccursAt(d, log, i);
    DestroyEffectsHas(f, n);
    if n in f.action.methods {
      OccursWithin(d, log, i, |s.log|, DestroyPlugin(f.action.methods[n]));
    }
    if n in f.edition.methods {
      OccursWithin(d, log, i, |s.log|, DestroyPlugin(f.edition.methods[n]));
    }
  }

  /** After `destroy` no field reacts to user input any more, and nothing else about it changed. */
  lemma {:induction false} DestroyDetaches(s: State, k: string)
    requires Valid(s) && k in s.fields
    ensures var g := Destroy(s).fields[k];
            g.attached <= {"DOMNodeInserted"} && g == s.fields[k].(attached := g.attached)
  {
    ApplyAt(s.fields, s.order, Detach, k);
  }

  // ---------------------------------------------------------------- reading

  /** The record `fields()` returns for a field. */
  datatype Info = Info(name: string, element: NodeId, maxLength: AttrValue, kind: string,
                       require: bool, placeholder: string, action: Slot, edition: Slot)

  /** The record `values()` returns for a field. */
  datatype Reading = Reading(name: string, length: int, value: string, valid: bool)

  function InfoOf(f: Field): Info
  {
    Info(f.name, f.element, f.maxLength, f.kind, f.require, f.placeholder, f.action, f.edition)
  }

  /** `values()` on one field: `getValue` runs first (and resets the type), then `validate`. */
  function ReadingOf(f: Field): (r: (Reading, Field))
    ensures r.0.name == f.name && r.0.length == f.length
    ensures r.0.value == GetValue(f).0
    ensures r.0.valid <==> Validate(f).0
    ensures r.1 == Validate(f.(kind := Simple)).1 && r.1.name == f.name
  {
    var (v, g) := GetValue(f);
    var (ok, h) := Validate(g);
    (Reading(f.name, f.length, v, ok), h)
  }

  function ReadingOnly(f: Field): Reading { ReadingOf(f).0 }
  function AfterReading(f: Field): Field { ReadingOf(f).1 }

  /** `fields()`: one record per field, keyed by name. */
  function FieldsOf(s: State): (r: map<string, Info>)
    ensures Valid(s) ==> r.Keys == s.fields.Keys && forall k :: k in r ==> r[k] == InfoOf(s.fields[k])
  {
    if Valid(s) then CollectAll(s.fields, s.order, InfoOf); Collect(s.fields, s.order, InfoOf)
    else Collect(s.fields, s.order, InfoOf)
  }

  /** `values()`: the readings, and the state the readings leave behind. */
  function Values(s: State): (r: (map<string, Reading>, State))
    ensures SameShape(s, r.1) && r.1.subscribers == s.subscribers && r.1.log == s.log
    ensures Valid(s) ==> r.0.Keys == s.fields.Keys && forall k :: k in r.0 ==> r.0[k].name == k
  {
    ApplyKeys(s.fields, s.order, AfterReading);
    ApplyNames(s.fields, s.order, AfterReading);
    var r := (Collect(s.fields, s.order, ReadingOnly), s.(fields := Apply(s.fields, s.order, AfterReading)));
    if Valid(s) then CollectAll(s.fields, s.order, ReadingOnly); r else r
  }

  /** `fields()` describes every field under its own name. */
  lemma {:induction false} FieldsOfDescribes(s: State, k: string)
    requires Valid(s)
    ensures k in FieldsOf(s) <==> k in s.fields
    ensures k in s.fields ==> FieldsOf(s)[k] == InfoOf(s.fields[k]) && FieldsOf(s)[k].name == k
  {
    CollectAt(s.fields, s.order, InfoOf, k);
  }

  /**
   * `values()` reports, for each field, its one-line trimmed text and whether it
   * is valid: not required-and-empty, and not over a truthy length limit.
   */
  lemma {:induction false} ValuesReport(s: State, k: string)
    requires Valid(s) && k in s.fields
    ensures k in Values(s).0
    ensures var v := Values(s).0[k]; var f := s.fields[k];
            && v.value == Value.SimpleValue(f.text) && Paste.NoBreak(v.value)
            && (v.valid <==> !(f.require && f.length == 0) && !(Truthy(f.maxLength) && Exceeds(f.length, f.maxLength)))
  {
    CollectAt(s.fields, s.order, ReadingOnly, k);
  }

  /**
   * Reading the values turns every field into a simple one (the type tests of
   * `getValue` assign), so plugins registered afterwards reach no field.
   */
  lemma {:induction false} ValuesMakeFieldsSimple(s: State, slot: string, plugin: string)
    requires Valid(s)
    requires slot == "action" || slot == "edition"
    ensures var t := Values(s).1;
            (forall k :: k in t.fields ==> t.fields[k].kind == Simple)
            && Register(t, slot, plugin).1.fields == t.fields
  {
    var t := Values(s).1;
    forall k | k in t.fields ensures t.fields[k].kind == Simple {
      ApplyAt(s.fields, s.order, AfterReading, k);
    }
    SameShapeValid(s, t);
    RegisterSkipsSimpleFields(t, slot, plugin);
  }

  /** Without rich fields `register` changes no field. */
  lemma {:induction false} RegisterSkipsSimpleFields(t: State, slot: string, plugin: string)
    requires Valid(t) && (forall k :: k in t.fields ==> t.fields[k].kind == Simple)
    requires slot == "action" || slot == "edition"
    ensures Register(t, slot, plugin).1.fields == t.fields
  {
    var g := RegisterBy(slot, plugin, t.serial);
    var m := Apply(t.fields, t.order, g);
    ApplyKeys(t.fields, t.order, g);
    forall k | k in t.fields ensures m[k] == t.fields[k] {
      ApplyAt(t.fields, t.order, g, k);
    }
    assert m == t.fields;
  }

  // ---------------------------------------------------------------- event handlers

  /** One listener of a handler, called with the field and the event; `false` when it throws. */
  function Step(s: State, name: string, l: Listener, e: Keys.Event, env: Env): (r: (bool, State))
    requires name in s.fields
    ensures SameShape(s, r.1) && r.1.subscribers == s.subscribers
    ensures !r.0 ==> l == FocusField
  {
    var f := s.fields[name];
    match l
    case PasteText => (true, InsertPaste(s, name, env.clipboard))
    case NotifyChange => (true, Change(s, name, e))
    case FocusField => var a := Focus(s, name, e, env); (a.0.Pass?, a.1)
    case UnsetPlaceholder => (true, Put(s, name, WithoutPlaceholder(f, e)))
    case DisableBlocks => (true, CancelEnter(s, name, e))
    case SetLength => (true, Put(s, name, WithLength(f)))
    case SetPlaceholder => (true, Put(s, name, WithPlaceholder(f)))
    case BlocksCreation => (true, CreateBlock(s, name, e, env))
    case Selection => (true, Select(s, name, env.rangeSelected))
    case UnsetSpan => (true, s)
    case ValidateMaxLength => (true, Put(s, name, CheckMaxLength(f).1))
    case ValidateRequire => (true, Put(s, name, CheckRequire(f).1))
  }

  /** The handler built by `handler(methods, field, self)`: the listeners in order, up to the first that throws. */
  function Run(s: State, name: string, ls: seq<Listener>, e: Keys.Event, env: Env): (r: (bool, State))
    requires name in s.fields
    ensures SameShape(s, r.1) && r.1.subscribers == s.subscribers
    decreases |ls|
  {
    if ls == [] then (true, s)
    else
      var p := Run(s, name, ls[..|ls| - 1], e, env);
      if !p.0 then p else Step(p.1, name, ls[|ls| - 1], e, env)
  }

  /**
   * An event reaching a field's element: the browser has already edited the
   * content (`env.html`, `env.text`), then the attached handler runs.
   */
  function Handle(s: State, name: string, event: string, e: Keys.Event, env: Env): (r: State)
    requires name in s.fields
    ensures SameShape(s, r) && r.subscribers == s.subscribers
    ensures event !in s.fields[name].attached ==>
              r == Put(s, name, s.fields[name].(html := env.html, text := env.text))
  {
    var f := s.fields[name];
    var s0 := Put(s, name, f.(html := env.html, text := env.text));
    if event in f.attached && event in f.listeners then Run(s0, name, f.listeners[event], e, env).1 else s0
  }

  /** The handler after one more listener. */
  lemma RunSnoc(s: State, name: string, ls: seq<Listener>, i: nat, e: Keys.Event, env: Env)
    requires name in s.fields && i < |ls|
    requires Run(s, name, ls[..i], e, env).0
    ensures name in Run(s, name, ls[..i], e, env).1.fields
    ensures Run(s, name, ls[..i + 1], e, env) == Step(Run(s, name, ls[..i], e, env).1, name, ls[i], e, env)
  {
    assert ls[..i + 1][..i] == ls[..i];
  }

  /** Once a listener has thrown, the rest of the handler does not run. */
  lemma {:induction false} RunStopsAtThrow(s: State, name: string, ls: seq<Listener>, i: nat, e: Keys.Event, env: Env)
    requires name in s.fields && i <= |ls|
    requires !Run(s, name, ls[..i], e, env).0
    ensures Run(s, name, ls, e, env) == Run(s, name, ls[..i], e, env)
    decreases |ls| - i
  {
    if i < |ls| {
      assert ls[..i + 1][..i] == ls[..i];
      RunStopsAtThrow(s, name, ls, i + 1, e, env);
    } else {
      assert ls[..i] == ls;
    }
  }

  /** Only `setLength` changes a field's length. */
  lemma {:induction false} StepKeepsLength(s: State, name: string, l: Listener, e: Keys.Event, env: Env)
    requires Valid(s) && name in s.fields && l != SetLength
    ensures Step(s, name, l, e, env).1.fields[name].length == s.fields[name].length
  {
    if l == FocusField {
      FocusKeepsLength(s, name, e, env);
      assert Step(s, name, l, e, env).1 == Focus(s, name, e, env).1;
    } else {
      StepOtherKeepsLength(s, name, l, e, env);
    }
  }

  lemma {:induction false} StepOtherKeepsLength(s: State, name: string, l: Listener, e: Keys.Event, env: Env)
    requires name in s.fields && l != SetLength && l != FocusField
    ensures Step(s, name, l, e, env).1.fields[name].length == s.fields[name].length
  {
  }

  lemma {:induction false} FocusKeepsLength(s: State, name: string, e: Keys.Event, env: Env)
    requires Valid(s) && name in s.fields
    ensures Focus(s, name, e, env).1.fields[name].length == s.fields[name].length
  {
    if !Keys.FocusIgnored(e, s.fields[name].length) {
      var a := Prepared(s, name, env);
      if a.0.Pass? {
        SameShapeValid(s, a.1);
        BlurKeepsTarget(a.1, name, env.dom);
      }
    }
  }

  /** A handler whose first listener is `setLength` (and no other is) leaves the measured length. */
  lemma {:induction false} RunMeasures(s: State, name: string, ls: seq<Listener>, e: Keys.Event, env: Env)
    requires Valid(s) && name in s.fields
    requires |ls| >= 1 && ls[0] == SetLength && SetLength !in ls[1..]
    ensures Run(s, name, ls, e, env).1.fields[name].length == TextMetrics.TextLength(s.fields[name].html)
    decreases |ls|
  {
    var ls' := ls[..|ls| - 1];
    if |ls| == 1 {
      assert ls' == [];
    } else {
      assert ls'[1..] == ls[1..|ls| - 1];
      assert ls[|ls| - 1] in ls[1..];
      RunMeasures(s, name, ls', e, env);
      var p := Run(s, name, ls', e, env);
      if p.0 {
        SameShapeValid(s, p.1);
        StepKeepsLength(p.1, name, ls[|ls| - 1], e, env);
      }
    }
  }

  /**
   * After a keyup in a field built by the constructor, the field's length is the
   * visible length of the content the browser left, whatever the other listeners did.
   */
  lemma {:induction false} KeyupMeasuresContent(s: State, name: string, e: Keys.Event, env: Env,
                                               kind: string, m: AttrValue, req: bool)
    requires Valid(s) && name in s.fields
    requires kind == Simple || kind == Rich
    requires "keyup" in s.fields[name].attached && "keyup" in s.fields[name].listeners
    requires s.fields[name].listeners["keyup"] == ListenersFor(kind, m, req, "keyup")
    ensures Handle(s, name, "keyup", e, env).fields[name].length == TextMetrics.TextLength(env.html)
  {
    var f := s.fields[name];
    var s0 := Put(s, name, f.(html := env.html, text := env.text));
    SameShapeValid(s, s0);
    KeyupMeasuresFirst(kind, m, req);
    RunMeasures(s0, name, ListenersFor(kind, m, req, "keyup"), e, env);
  }

  /** Once destroyed, a field only follows the browser's edits: keys, clicks and pastes do nothing. */
  lemma {:induction false} DestroyedFieldIgnoresInput(s: State, name: string, event: string, e: Keys.Event, env: Env)
    requires Valid(s) && name in s.fields && event != "DOMNodeInserted"
    ensures var t := Destroy(s);
            Handle(t, name, event, e, env) == Put(t, name, t.fields[name].(html := env.html, text := env.text))
  {
    DestroyDetaches(s, name);
  }
}
