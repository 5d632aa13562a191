/**
 * The key-code guards of `binds.change` and `binds.focus`: which input events
 * surface as a `CHANGE` notification and which ones move the focus.
 */
module Keys {
  import opened Wrappers

  /**
   * Where an event landed: on the element of the action or of the edition
   * toolbar itself, or anywhere else (the field's text, but also a button
   * inside a toolbar, since only the toolbar elements are compared).
   */
  datatype Target = Elsewhere | ActionMount | EditionMount

  /**
   * The parts of a DOM event the core reads: `e.type`, `e.which`, `e.keyCode`
   * (absent, as for a paste event, when `None`) and `e.target`.
   */
  datatype Event = Event(kind: string, which: Option<int>, keyCode: Option<int>, target: Target)

  /** Keys that do not change content: arrows, the "no key" code 1, Tab, Shift, Alt and Escape. */
  const NavigationKeys: seq<int> := [40, 38, 37, 39, 1, 9, 16, 18, 27]

  /** Keys (and the left mouse button, 1) that move the caret: Meta, arrows, Enter, Backspace. */
  const FocusKeys: seq<int> := [91, 40, 38, 37, 39, 13, 1, 8]

  /** `xs.indexOf(x)`: the first position holding `x`, or -1. */
  function IndexOf<T(==)>(xs: seq<T>, x: T): (r: int)
    ensures -1 <= r < |xs|
    ensures r >= 0 ==> xs[r] == x && x !in xs[..r]
    ensures r < 0 <==> x !in xs
  {
    if xs == [] then -1
    else if xs[0] == x then 0
    else
      var k := IndexOf(xs[1..], x);
      assert x !in xs[1..] ==> x !in xs by { assert xs == [xs[0]] + xs[1..]; }
      if k < 0 then -1
      else
        assert xs[1..][..k] == xs[1..k + 1];
        assert xs[..k + 1] == [xs[0]] + xs[1..k + 1];
        k + 1
  }

  /** `list.indexOf(e.which)`, where an absent `which` is found nowhere. */
  function KeyIndex(xs: seq<int>, which: Option<int>): int
  {
    match which
    case None => -1
    case Some(w) => IndexOf(xs, w)
  }

  /** The guard of `binds.change`: emit on a paste, or on any key that is not a navigation key. */
  function ShouldEmit(e: Event): (emit: bool)
    ensures emit <==> e.kind == "paste" || e.which.None? || e.which.value !in NavigationKeys
  {
    IndexOf(["paste"], e.kind) >= 0 || KeyIndex(NavigationKeys, e.which) < 0
  }

  /**
   * The early return of `binds.focus`: the key is not a caret key, or the field
   * is empty and the event is not a click, or the event hit a toolbar mount.
   */
  function FocusIgnored(e: Event, length: int): (ignored: bool)
    ensures ignored <==>
      (e.which.None? || e.which.value !in FocusKeys)
      || (length == 0 && e.kind != "click")
      || e.target != Elsewhere
  {
    KeyIndex(FocusKeys, e.which) < 0 || (length == 0 && e.kind != "click")
    || e.target == ActionMount || e.target == EditionMount
  }

  /** `binds.disableBlocks`: a simple field cancels the Enter key. */
  function DisableBlocks(e: Event): (cancel: bool)
  {
    e.which == Some(13)
  }

  /** Pressing only an arrow key never notifies subscribers. */
  lemma {:induction false} ArrowKeysDoNotEmit(e: Event)
    requires e.kind == "keyup" && e.which.Some? && 37 <= e.which.value <= 40
    ensures !ShouldEmit(e)
  {
    assert e.which.value in NavigationKeys;
  }

  /** A printable character typed into a field notifies subscribers. */
  lemma {:induction false} PrintableKeysEmit(e: Event)
    requires e.which.Some? && 48 <= e.which.value <= 90
    ensures ShouldEmit(e)
  {
  }

  /** Typing a printable character does not move the focus; only caret keys and clicks do. */
  lemma {:induction false} PrintableKeysKeepFocus(e: Event, length: int)
    requires e.which.Some? && 48 <= e.which.value <= 90
    ensures FocusIgnored(e, length)
  {
  }

  /** A left click on a field's own text (anywhere but a toolbar element) focuses it, empty or not. */
  lemma {:induction false} ClickFocuses(e: Event, length: int)
    requires e.kind == "click" && e.which == Some(1) && e.target == Elsewhere
    ensures !FocusIgnored(e, length)
  {
    assert FocusKeys[6] == 1;
  }
}
