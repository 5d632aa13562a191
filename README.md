# editor.js in Dafny

This project models the `Editor` of `src/editor.js`, a form editor over
`contenteditable` elements. Each child of a form that declares a non-empty
`data-field` and `data-placeholder` becomes a *field*: `simple` (one line of
text) or `rich` (paragraph blocks plus two plugin toolbars). The editor
attaches a handler for each browser event to each field. A handler is an
ordered list of listeners: measure the text, show or hide the placeholder,
take the focus, wrap pasted text, create blocks, validate, and tell the
`CHANGE` subscribers. The editor object itself offers `fields`, `values`,
`register`, `destroy` and `subscribe` on the table of fields.

The model has two layers:

- **Pure layer.** One module per concern of the source, each with functions
  and the lemmas about them:
  - `Attributes`: `getDataAttribute` and `parseInt`.
  - `TextMetrics`: the markup and space patterns of `setLength`.
  - `Paste`: the paste transformation.
  - `Value`: the text pipeline of `getValue`.
  - `Keys`: the key-code guards.
  - `Blocks`: `getCurrentNode` and `getCurrentBlock` over an abstract document.
  - `Fields`: a field record, its listener lists and the per-field
    operations.
  - `Model`: the editor state and every editor operation, as functions from
    state to state.
- **Imperative layer.** `Editing.Editor` is a class with the source's mutable
  state as fields:
  - `fields`, the table;
  - `order`, the key order of `for..in`;
  - `subscribers`, the `CHANGE` callbacks;
  - `log`, the observable effects;
  - `serial`, a counter for new plugin objects.

  Its methods run the source's loops. Each one is proved to leave the object
  in the state named by the matching `Model` function.

Everything the source does to the outside world is appended to the `log` as
an `Effect`: calls into plugin objects, subscriber callbacks, `execCommand`,
`preventDefault`, and mounting or removing toolbars. Browser inputs are
parameters:
- the selection's anchor and whether it is a range;
- the document tree;
- the clipboard text;
- the element's content after the browser's own edit.

A field that throws in the source yields an `Error` in the model.

How JavaScript behaviour is modelled:
- Lengths and key codes are unbounded integers. The source does no arithmetic on them that could overflow.
- A string's `.length` counts UTF-16 code units, so a character above U+FFFF counts 2.
- The document carries each node's parent and next sibling, enough for the block lookup and for `insertBefore`.
- `parseInt` is modelled for decimal text.
- `toLowerCase` is modelled for ASCII.
- Object key order is insertion order.
- A duplicate field name is keyed where it was first inserted, that is, by
  the later child, because the constructor loop runs backwards. The earlier
  child's field replaces its value.

## Model

| member | source | states |
|---|---|---|
| Attributes.GetDataAttribute | src/editor.js:375-397 | An empty or missing `data-<name>` gives the default when that is truthy and `false` otherwise. `int` reads through `parseInt`, with NaN when no digit follows. `bol` is true exactly for the text `"true"`. Any other kind gives the text itself. |
| Attributes.ParseInt | src/editor.js:386 | `parseInt` gives NaN exactly when no digit follows the leading whitespace and the optional sign. |
| Attributes.MissingIsDefaultOrFalse | src/editor.js:376-379 | A missing or empty attribute reads exactly as the default when that is truthy, and as `false` otherwise, whatever kind is asked for. |
| Attributes.StrReadTruthy | src/editor.js:375-384 | A `str` read with default `false` is truthy exactly when the attribute is present and non-empty. |
| Attributes.ParseIntReadsDigits | src/editor.js:385-387 | `parseInt` reads the leading run of digits, with or without a minus sign, and stops at the first non-digit (`"12px"` is 12). |
| Attributes.ParseIntNaN | src/editor.js:385-387 | Text that starts with neither a digit, a sign nor whitespace reads as NaN. |
| TextMetrics.Utf16Length | src/editor.js:402-406 | JavaScript's `.length` counts UTF-16 code units: at least one and at most two per character. |
| TextMetrics.Utf16LengthBmp | src/editor.js:402-406 | Text inside the Basic Multilingual Plane has one code unit per character. |
| TextMetrics.TextLength | src/editor.js:399-407 | The measured length is at most two code units per character of the markup. |
| TextMetrics.TextLengthPlain | src/editor.js:399-407 | Text without markup, entities or whitespace measures its own `.length`: its number of characters when all lie in the Basic Multilingual Plane. |
| TextMetrics.TextLengthTag | src/editor.js:32 | A tag matched by the markup pattern adds nothing to the length. |
| TextMetrics.TextLengthChar | src/editor.js:399-407 | Any visible character other than `<` and `&` adds its UTF-16 code units to the length: one, or two above U+FFFF. |
| TextMetrics.EmojiCountsTwo | src/editor.js:402-406 | One emoji measures 2, as a surrogate pair does in JavaScript. |
| TextMetrics.TextLengthNbsp | src/editor.js:39 | An `&nbsp;` entity counts as a single character. |
| TextMetrics.TagsOnlyHaveNoLength | src/editor.js:402-405 | Markup made only of tags, such as an empty paragraph `<p></p>`, has length 0. |
| TextMetrics.OpenAndCloseTags | src/editor.js:32 | The opening and closing tags of any plain tag name match the markup pattern. |
| TextMetrics.MarkSpacesLeavesNoSpace | src/editor.js:404 | After the space-and-entity replacement, no whitespace character is left. |
| TextMetrics.StripTagsNotIdempotent | src/editor.js:403 | The markup replacement runs once: `<<a>>` leaves `<>`, which a second pass would remove. |
| Paste.CollapseShape | src/editor.js:304 | After collapsing runs of whitespace, the only whitespace left is a plain space, and no two whitespace characters are adjacent. |
| Paste.CollapseKeepsText | src/editor.js:304 | Collapsing whitespace keeps every non-whitespace character, in order. |
| Paste.CollapseAppend | src/editor.js:304 | Text cut just after a visible character collapses piece by piece: no whitespace run crosses the cut. |
| Paste.CollapseRun | src/editor.js:304 | A non-empty whitespace run between visible text, or at either end, becomes exactly one space. |
| Paste.SplitLinesJoin | src/editor.js:308 | Splitting at single line-break characters gives one more piece than there are breaks. Joining the pieces with the breaks gives the text back. |
| Paste.SplitLinesPieces | src/editor.js:308 | No piece of the split holds a line break. |
| Paste.CarriageReturnLineFeed | src/editor.js:37 | `\r\n` splits into two breaks, with an empty piece between them. |
| Paste.Markup | src/editor.js:307-315 | The loop joining tag, line and closing tag per line gives the rich paste markup; any other kind gets the whitespace-collapsed text. |
| Paste.PasteTwoLines | src/editor.js:307-315 | Two pasted lines become two paragraphs. |
| Paste.PasteCarriageReturnLineFeed | src/editor.js:307-315 | A Windows line break pastes as two paragraphs with an empty one between them. |
| Paste.PasteHtml | src/editor.js:294-323 | The paste markup holds no line-break character, for a rich field (one paragraph per line) and for any other (the collapsed text). |
| Paste.CollapseNoBreak | src/editor.js:304 | Collapsing whitespace leaves no line break. |
| Value.TrimEnd | src/editor.js:36 | The result is a prefix of the input that does not end in whitespace, and everything cut off is whitespace. |
| Value.ReplaceBreaksLeavesNoBreak | src/editor.js:38 | No line break survives the break replacement. |
| Value.ReplaceBreaksPlain | src/editor.js:38 | Text without line breaks passes the break replacement unchanged. |
| Value.BreakAndDotAreOneSpace | src/editor.js:38 | `\r\n` and one `.` right after it are replaced by a single space. |
| Value.SimpleValue | src/editor.js:365-373 | The value of a simple field is one line and does not end in whitespace. |
| Value.SimpleValueOfPlainLine | src/editor.js:369 | A line without breaks and without trailing whitespace is its own value. |
| Keys.ShouldEmit | src/editor.js:328 | `change` notifies exactly for a paste, or for a key outside the navigation and modifier codes. |
| Keys.ArrowKeysDoNotEmit | src/editor.js:328 | Arrow keys never notify. |
| Keys.PrintableKeysEmit | src/editor.js:328 | A printable key (codes 48 to 90) notifies. |
| Keys.FocusIgnored | src/editor.js:273 | `focus` returns early exactly for a key outside its list, for a non-click on an empty field, or when the target is a toolbar. |
| Keys.ClickFocuses | src/editor.js:273 | A left click anywhere but on a toolbar element is never ignored, empty field or not. Only the two toolbar elements themselves are compared, so a click on a button inside a toolbar counts as a click on the field. |
| Keys.PrintableKeysKeepFocus | src/editor.js:273 | A printable key never moves the focus: only caret keys and clicks do. |
| Blocks.BlockIsNearest | src/editor.js:356-363 | A block that is found is the nearest ancestor-or-self with the block tag, and every node below it on the path is a non-block element. |
| Blocks.NearestBlockIsFound | src/editor.js:356-363 | The nearest block within reach is always found. |
| Blocks.TextInBlockFindsBlock | src/editor.js:346-363 | A caret in a text node that sits directly in a paragraph finds that paragraph. |
| Blocks.CurrentNode | src/editor.js:346-354 | The node is the anchor, or the parent of a text anchor. There is none exactly when there is no anchor or the text anchor has no parent. |
| Blocks.CurrentBlock | src/editor.js:356-363 | No current node gives no block. A block that is found has the block tag, and is the nearest ancestor-or-self of the current node that has it. |
| Fields.ListenersFor | src/editor.js:180-202 | A field's keyup list starts with the listeners its type selects, then adds `validateMaxLength` exactly when the limit is truthy and `validateRequire` exactly when the field is required. Every other event gets only the type's listeners. |
| Fields.SimpleAndRichListeners | src/editor.js:180-197 | Keypress disables Enter only on simple fields. Only rich fields react to mouseup, with the selection listener, and to inserted nodes. |
| Fields.KeyupMeasuresFirst | src/editor.js:186-202 | On keyup the length is measured first and only once. The change notice follows every type listener, and only validators come after it. |
| Fields.ValidatorsAttached | src/editor.js:198-202 | A built field validates its length exactly when the limit is truthy, and presence exactly when it is required. |
| Fields.MakeFieldSkips | src/editor.js:131-142 | A child is skipped exactly when `data-field` or `data-placeholder` is missing or empty. |
| Fields.MakeField | src/editor.js:141-224 | A built field sits on the child's element, with no focus and no block. Its length measures its stored markup, also after the placeholder has cleared an empty one. |
| Fields.MakeFieldReads | src/editor.js:145-224 | A new field carries its name, placeholder, element and type (`simple` by default). Its length is measured from its markup. When that length is 0, its content is cleared and it shows the placeholder. It has no focus and no block, and every handler is attached. |
| Fields.WithPlaceholder | src/editor.js:427-434 | An empty field has its content cleared (the action toolbar with it) and gains the `placeholder` class, and nothing else about it changes. A non-empty field is left alone. |
| Fields.WithLength | src/editor.js:399-407 | Only the length changes. It becomes the measured text length of the markup, at most two code units per character of markup. |
| Fields.WithoutPlaceholder | src/editor.js:473-478 | Any key but Tab removes the `placeholder` class, and Tab changes nothing. |
| Fields.CheckMaxLength | src/editor.js:490-500 | Reports an overflow exactly when the length exceeds the limit under JavaScript comparison, and sets or clears the `invalid` class to match. |
| Fields.CheckRequire | src/editor.js:502-512 | Reports an empty field exactly when the length is 0, and sets or clears the `require` class to match. |
| Fields.Validate | src/editor.js:480-488 | Valid exactly when not (required and empty) and not (limited and over the limit). Only a limit check that runs touches the classes. |
| Fields.ValidateAgreesWithValidators | src/editor.js:480-512 | The verdict of `validate` is the negation of the two validators' reports. |
| Fields.GetValue | src/editor.js:365-373 | The `=` in its test makes every field `simple`, rich ones included. Every value is the simple-field value of the element's text: one line that does not end in whitespace. |
| Model.Create | src/editor.js:11-15 | A missing form, a non-node or a form without children yields the error. Any other form yields an editor. |
| Model.Build | src/editor.js:130-225 | The constructor leaves a well-formed table: distinct keys, a key order covering the table exactly, and each field stored under its own name. There is no subscriber, the log is empty and no plugin has been registered. |
| Model.TableSkip | src/editor.js:141-142 | A skipped child, at any position, changes neither the table nor its key order. |
| Model.SkippedChildAddsNothing | src/editor.js:141-142 | A child without both attributes, at any position among the children, changes nothing about the editor. |
| Model.EarliestChildWins | src/editor.js:130-145 | Under a duplicate name, the field of the earliest child in the document is the one stored. |
| Model.BuildNames | src/editor.js:130-145 | A name is in the table exactly when some child declares it. |
| Model.Subscribe | src/editor.js:122-127 | Subscribing to an event other than `CHANGE` fails and changes nothing. Subscribing to `CHANGE` appends the callback. |
| Model.Emit | src/editor.js:514-525 | Emitting an unknown event fails and changes nothing. `CHANGE` calls every subscriber once, in order, with the field. |
| Model.SubscribedCallbackIsNotified | src/editor.js:122-127 | A callback subscribed to `CHANGE` is called, last, by the next emit. |
| Model.Change | src/editor.js:325-330 | Notifies the subscribers exactly when the event passes the key guard, and changes nothing otherwise. |
| Blocks.InsertsAfterChild | src/editor.js:419 | In a document whose siblings share their parent, take a block that has a next sibling. Then `insertBefore` after it finds its reference node exactly when the block is a child of the field's element. A last child never makes it throw. |
| Model.SetAction | src/editor.js:409-422 | It fails exactly when the block lookup fails, or when the block is new and `insertBefore` cannot find the block's next sibling in the field. A failed lookup changes nothing. The same block as before changes nothing either. A new block is remembered, then every action plugin's `beforeShow` is logged, then the toolbar is mounted after the block unless `insertBefore` throws. |
| Model.SetActionRemembers | src/editor.js:411-414 | A second call at the same caret does nothing, even after the first threw at `insertBefore`. So the toolbar that failed to mount is not retried. |
| Model.SetActionShowsEveryPlugin | src/editor.js:415-417 | On a new block, `beforeShow` is called on every action plugin, after what the log held before. |
| Model.NestedBlockThrows | src/editor.js:414-419 | A block nested inside another element of the field, with a sibling after it, makes `setAction` throw. The block is then remembered and the toolbar is not shown. |
| Model.UnsetAction | src/editor.js:464-471 | A shown toolbar is removed, which is logged, and the block is forgotten. When the toolbar is not shown, `removeChild` throws `NotFoundError` exactly when the field's element has an element child, and the field is left as it was. A childless element just forgets the block. |
| Model.EmptiedFieldThrowsOnUnset | src/editor.js:464-471 | A rich field emptied to length 0 keeps its block, while `setPlaceholder` has cleared the toolbar with the markup. Once an element child appears in it again, `unsetAction` throws `NotFoundError`. |
| Model.Select | src/editor.js:238-268 | Only the named field's edition toolbar and the log change. The toolbar is shown exactly on a range selection while it was hidden: then every edition plugin's `beforeShow` is logged, followed by the show. A shown toolbar is otherwise hidden, which is logged. Its plugins, key order and mounted elements are kept. |
| Model.SelectionToggles | src/editor.js:246-267 | The edition toolbar is shown afterwards exactly when there is a range selection and it was hidden before. Its plugins are unchanged. |
| Model.Blur | src/editor.js:282-291 | Every field but the named one loses the focus and its `focus` class. A rich one with a block runs `unsetAction`: its toolbar ends hidden, and its block is forgotten unless `unsetAction` throws. Nothing else about it changes. The named field is untouched. |
| Model.BlurReach | src/editor.js:282-291 | The position, in key order, of the first field whose `unsetAction` throws, or the number of fields when none does. No field before it throws. |
| Model.BlurOthers | src/editor.js:282-291 | The loop fails with `NotFoundError` exactly when some field's `unsetAction` throws. In key order, every field up to and including the first thrower becomes `Blur` of its old value, and every field after it is untouched. The table's keys, order and names are kept. |
| Model.BlurOthersStops | src/editor.js:282-291 | When the `i`-th field is the first to throw, the loop fails with `NotFoundError`, the named field is untouched, and the fields up to the `i`-th are each `Blur` of their old value. |
| Model.BlurOthersSpares | src/editor.js:282-291 | The fields after that `i`-th one are untouched. |
| Model.Focus | src/editor.js:270-292 | An ignored event changes nothing. A rich field whose `setAction` throws fails. In a valid state the focus fails exactly when that happens, or when the blur loop reaches another rich field with a block whose `unsetAction` throws. |
| Model.Prepared | src/editor.js:276-280 | The first half of `focus`: the field is focused, its length is kept, and it fails exactly for a rich field whose `setAction` throws. Every other field is untouched. |
| Model.FocusIsExclusive | src/editor.js:276-291 | After a focus that goes through (neither `setAction` nor any `unsetAction` throws), the field is focused and no other field is. Every other field is exactly `Blur` of its old value: it loses the `focus` class, and a rich one loses its block (and its toolbar when it had one). |
| Model.FocusThrowKeepsOthers | src/editor.js:276-281 | When `setAction` throws, the focus fails, the field is already focused and every other field is untouched. |
| Model.FocusThrowLeavesTwoFocused | src/editor.js:276-291 | So a throwing focus leaves two fields focused when another field had the focus before. |
| Model.BlurThrowStopsLoop | src/editor.js:282-291 | When `setAction` goes through and the `i`-th field in key order is the first whose `unsetAction` throws, the focus fails with `NotFoundError`. The field stays focused, and the thrower has lost the focus but keeps its block. |
| Model.BlurThrowBlursEarlier | src/editor.js:282-291 | The fields before the thrower have each become `Blur` of their old value. |
| Model.BlurThrowSparesLater | src/editor.js:282-291 | The fields after the thrower are untouched, focus included. |
| Model.BlurThrowLeavesTwoFocused | src/editor.js:282-291 | So a field after the thrower that had the focus keeps it, and two fields are focused. |
| Model.InsertPaste | src/editor.js:294-323 | Cancels the browser's paste and inserts the paste markup for the field's type. |
| Model.CreateBlock | src/editor.js:337-343 | Formats a block exactly when the caret's node has no element children and the key is not Backspace, or when the field is empty and the key is 1. Otherwise it changes nothing. |
| Model.ClickIntoEmptyFieldCreatesBlock | src/editor.js:341-342 | Key 1 on an empty field always formats a block. |
| Model.CancelEnter | src/editor.js:332-335 | Enter is cancelled, and every other key changes nothing. |
| Model.AddPlugin | src/editor.js:93-95 | The plugin is stored under its name. A new name goes last in the key order, and a reused one keeps its place. Exactly one element is appended to the toolbar, and the toolbar's visibility is kept. |
| Model.AddPluginIndexed | src/editor.js:93-94 | Storing a plugin keeps the slot's key order listing each key of its `methods` object exactly once. |
| Model.Register | src/editor.js:90-98 | A slot other than `action` or `edition` fails exactly when a rich field exists, and changes nothing. A known slot always succeeds. The table's shape and the log are kept. |
| Model.RegisterReachesRichFields | src/editor.js:90-98 | Each rich field becomes itself with its named slot given the new plugin by `AddPlugin`, and nothing else about it changes. Simple fields are untouched, and each `register` gets a new serial. |
| Model.RegisterKeepsIndexed | src/editor.js:90-98 | `register` keeps every slot's key order in step with its `methods` object. |
| Model.Detach | src/editor.js:104-109 | Removes every handler but `DOMNodeInserted`, the one `destroy` does not remove. |
| Model.Destroy | src/editor.js:101-119 | The table's shape and the subscribers are kept. In a valid state every field becomes `Detach` of itself. |
| Model.DestroyDetaches | src/editor.js:101-119 | After `destroy` each field has at most the `DOMNodeInserted` handler and is otherwise unchanged. |
| Model.DestroyedFieldIgnoresInput | src/editor.js:101-109 | After `destroy`, no event except an inserted node runs any listener. |
| Model.DestroyEffectsOrder | src/editor.js:111-117 | For a rich field, every action plugin's `destroy()` comes before every edition plugin's. |
| Model.DestroyCallsPlugins | src/editor.js:101-119 | `destroy` keeps the old log and appends only plugin `destroy()` calls. The calls for each field appear together as one block. |
| Model.DestroyReachesEveryPlugin | src/editor.js:111-117 | Every plugin stored in either slot of a rich field has `destroy()` called on it. |
| Model.FieldsOfDescribes | src/editor.js:55-71 | `fields()` has a record exactly for each field, keyed and named by the field's name. |
| Model.FieldsOf | src/editor.js:55-71 | In a valid state there is one record per field, keyed by its name, and each is that field's description. |
| Model.Values | src/editor.js:74-87 | The table's shape, the subscribers and the log are kept. In a valid state there is a reading for exactly each field, keyed and named by it. |
| Model.ReadingOf | src/editor.js:77-84 | A field's reading has its name, its length, the value `getValue` gives and the verdict of `validate`. The field is left as those two calls leave it. |
| Model.ValuesReport | src/editor.js:74-87 | Every field is reported. Its value is one line of its text, and it is valid exactly when the validation conditions hold. |
| Model.ValuesMakeFieldsSimple | src/editor.js:74-98 | After `values()` every field is `simple`, so a later `register` changes no field. |
| Model.Run | src/editor.js:46-52 | The handler keeps the table's shape and subscribers. |
| Model.RunStopsAtThrow | src/editor.js:46-52 | Once a listener throws, no later listener of the handler runs. |
| Model.Step | src/editor.js:46-52 | Each listener keeps the table's shape and the subscribers, and only `focus` can throw. |
| Model.StepKeepsLength | src/editor.js:180-202 | No listener except `setLength` changes the field's length. |
| Model.KeyupMeasuresContent | src/editor.js:186-215 | After a keyup, the field's length is the measured length of the element's new content. |
| Model.Handle | src/editor.js:216-224 | An event without an attached handler only leaves the browser's edit in the content. |
| Editing.Editor.constructor | src/editor.js:130-225 | The backwards loop over the children leaves the object in the state `Build` describes, which is valid. |
| Editing.Editor.New | src/editor.js:11-15 | No editor for a missing or empty form. Otherwise a fresh editor in the state `Create` describes. |
| Editing.Editor.Fields | src/editor.js:55-71 | The record loop returns `FieldsOf` of the current state. |
| Editing.Editor.Values | src/editor.js:74-87 | The reading loop returns the readings and leaves the state `Model.Values` gives. |
| Editing.Editor.Register | src/editor.js:90-98 | The loop over the fields gives the outcome and state of `Model.Register`. |
| Editing.Editor.Destroy | src/editor.js:101-119 | The loop over the fields detaches each one and appends its plugin calls, leaving the state of `Model.Destroy`. |
| Editing.Editor.Subscribe | src/editor.js:122-127 | Gives the outcome and state of `Model.Subscribe`. |
| Editing.Editor.Emit | src/editor.js:514-525 | The callback loop gives the outcome and state of `Model.Emit`. |
| Editing.Editor.Change | src/editor.js:325-330 | Leaves the state of `Model.Change`. |
| Editing.Editor.InsertPaste | src/editor.js:294-323 | Leaves the state of `Model.InsertPaste`. |
| Editing.Editor.SetAction | src/editor.js:409-422 | The `beforeShow` loop, then `insertBefore` (which may throw), give the outcome and state of `Model.SetAction`. |
| Editing.Editor.BlurEach | src/editor.js:282-291 | The loop stops right after the first field whose `unsetAction` throws, and reports whether one did. It has then visited exactly the fields up to `BlurReach`. |
| Editing.Editor.BlurOthers | src/editor.js:282-291 | The loop over the fields gives the outcome and state of `Model.BlurOthers`. |
| Editing.Editor.Focus | src/editor.js:270-292 | Gives the outcome and state of `Model.Focus`, including a throw in the blur loop. |
| Editing.Editor.Select | src/editor.js:238-268 | Leaves the state of `Model.Select`. |
| Editing.Editor.Step | src/editor.js:180-202 | One listener call gives the verdict and state of `Model.Step`. |
| Editing.Editor.Handle | src/editor.js:46-52 | The listener loop, which stops at the first throw, leaves the state of `Model.Handle`. |

## Left out

- The module wrapper (lines 1-8) is left out: it chooses between AMD, CommonJS and a global.
- `setEditable` and `setTabIndex` (lines 205-206) only set DOM attributes. The tab index uses the global `window.length`, an outside value. Neither is modelled.
- Toolbar geometry and styles (lines 170-177 and 252-257) are not modelled, nor is `edition.selection`.
- `unsetSpan` is a listener that does nothing in the model. It rewrites the DOM tree, which is modelled only as the anchor's ancestors at the moment of an event.
- `execCommand`, `preventDefault`, plugin calls and subscriber callbacks appear only as log effects. Plugins and callbacks are foreign code. They are assumed not to throw and not to call back into the editor.
- Plugins: the plugin object's constructor and its `register()` are foreign code. The model stores an instance named after a parameter, and records the element as mounted.
- `parseInt` is modelled for decimal text only: `0x` prefixes and other radixes are out. It returns an unbounded integer, whereas JavaScript's number is a double: a `data-length` above 2^53 is rounded in the source and exact in the model.
- `toLowerCase` is modelled for ASCII tag names only.
- Object keys that look like integers sort first in JavaScript's `for..in`. The model keeps plain insertion order.
- Event names and slot names inherited from `Object.prototype` (`"toString"` and the like) are not modelled.
- When two children share a name, the later child's element keeps its listeners (they work on the replaced field object). Those orphaned listeners are not modelled.
- Fields are values in a map, not shared objects. A plugin or callback that keeps a field and mutates it later is not modelled.
- The `value` and `valid` properties the constructor sets (lines 152-153) are never read by the source, so they are not part of `Field`.
- Blocks.CurrentBlock: the walk is bounded by the number of parent links, which covers every acyclic document. On a cyclic parent map the source recurses until the stack overflows, and the model reports the lookup error instead.
- Model.FocusIsExclusive: only a focus that goes through leaves exactly one field focused. When `setAction` throws, the source has already focused the field and never runs the blur loop, so two fields can be focused at once (`Model.FocusThrowLeavesTwoFocused`). When an `unsetAction` of the loop throws, the fields after it in key order keep their focus (`Model.BlurThrowLeavesTwoFocused`). No invariant over sequences of events is claimed.
- Model.Focus: the exact failure condition is stated for valid states, which every state the editor reaches is. Outside them the loop may visit a key the table lacks.
- Blocks.InsertsAfter: the only `insertBefore` failure modelled is the missing reference node (NotFoundError). A hierarchy error, such as the toolbar containing the field, is not.
- Model.UnsetAction: the document snapshot does not hold the toolbars. Whether the action toolbar is a child of the field is read from its `shown` flag, and the browser's own edits are assumed not to remove a shown toolbar.
- Model.Handle: one `Env` (document, caret and content) serves every listener of a handler. So on a rich click or keyup, `setAction` sees the document as it was before `blocksCreation`'s `formatBlock` ran. Example: a click into an empty rich field gives `NoBlock` in the model, where the source may find the paragraph `formatBlock` has just created.
- Model.Handle: the browser's edit is taken as the element's new content before the listeners run, rather than modelling the DOM edit itself.
- `DisableBlocks` (lines 332-335) is modelled by `Model.CancelEnter`. Its key test `Keys.DisableBlocks` is a one-line guard, so there is no separate row.
