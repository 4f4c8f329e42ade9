# Widget store of a minimal retained-mode GUI

This project models the widget store of a small SDL2 application skeleton
written in Rust. It has two parts.

- **Widget values** (module `Widgets`, `widgets.dfy`). `Position {x, y}` and
  `Size {w, h}` hold 32-bit signed integers (`i32`, a newtype bounded to
  Rust's range). `Widget` is the closed sum of `Form`, `Label` (with text),
  `Button` (with a `pressed` flag) and `Textbox` (with text). The factories
  `new_form` and `new_label` become `NewForm` and `NewLabel`. They store
  their arguments verbatim, with no validation: a negative size is accepted.
- **The widget table** (module `WidgetTable`, `widget_table.dfy`). `UI` is a
  class whose field `widgets` is the sequence of `(parent, widget)` pairs of
  the Rust `Vec<(i32, Widget)>`. `UI::new` is the constructor.
  `UI::add_widget` is `AddWidget`. It pushes the pair and returns the old
  length as the handle. When the table already holds `i32::MAX` entries it
  returns `Err(TooManyWidgets)` and leaves the table as it was; the Rust code
  panics there. The pure function `AddEntry` states one call as a value, and
  `AddWidget`'s postcondition ties the method to it. `InsertAll` folds
  `AddEntry` over a list of calls, and the first failure ends the run, as a
  panic would. The lemmas about `InsertAll` state the repeated-insertion
  properties. Handles are dense and in call order, and entries are never
  rewritten.
- **Start-up scenario** (module `MainScenario`, `main_scenario.dfy`).
  `BuildInterface` performs the two insertions of `main`. It inserts a form
  with parent 0, then a label with the form's handle as parent. It shows the
  handles 0 and 1. It also shows that the root form is recorded as its own
  parent, because the parent value 0 used for a root is also the first
  handle.

The parent value is stored exactly as passed. It is never checked against
the table, so a negative or dangling parent is accepted.

## Model

| member | source | states |
|---|---|---|
| Widgets.NewForm | src/main.rs:44-49 | the result is a `Form` whose position is (x, y) and size (w, h), for every i32 input, with no validation |
| Widgets.NewLabel | src/main.rs:51-57 | the result is a `Label` whose position is (x, y), size (w, h) and text the given string, with no validation |
| Widgets.NewFormInjective | src/main.rs:44-49 | two factory forms are equal if and only if their four geometry arguments are equal |
| Widgets.NewLabelInjective | src/main.rs:51-57 | two factory labels are equal if and only if their geometry and text arguments are equal |
| WidgetTable.AddEntry | src/main.rs:70-83 | one insertion fails exactly when the length is at least i32::MAX; otherwise the handle is the old length, lies in [0, i32::MAX), indexes the new entry (parent, w), the length grows by one and the earlier entries are kept |
| WidgetTable.InsertAllDense | src/main.rs:70-83 | from a table of at most i32::MAX entries, a run of insertions succeeds if and only if the final length is at most i32::MAX; it then returns the handles \|table\|, \|table\|+1, ... in call order and appends the pairs in call order |
| WidgetTable.HandlesFromEmpty | src/main.rs:64-83 | from an empty table, N <= i32::MAX insertions succeed, return handles 0 .. N-1 in order, and the entry at handle k is the k-th inserted pair |
| WidgetTable.EarlierEntriesUnchanged | src/main.rs:80 | insertions only append: the length never decreases and every earlier entry, parent included, is unchanged |
| WidgetTable.UI.constructor | src/main.rs:64-68 | a new UI has no widgets and satisfies the table invariant |
| WidgetTable.UI.AddWidget | src/main.rs:70-83 | returns Ok(old length) and appends exactly (parent, w) when the old length is below i32::MAX, else fails with the table unchanged; keeps the length at most i32::MAX; agrees with AddEntry |
| MainScenario.BuildInterface | src/main.rs:104-106 | the form gets handle 0 and the label handle 1; the table holds exactly the two pairs with parent 0; the label's parent is the form and the form is its own parent |

## Left out

- SDL2 initialisation, window and renderer creation, and the per-frame
  clear/present calls (src/main.rs:88-98, 117-120). They are calls into a
  foreign graphics library.
- The `struct_events!` macro, the `Events` record, its pump and the Escape
  test that ends the frame loop (src/main.rs:5-14, 101, 110-115). The
  `events` module that defines them is not part of this model, so their
  behaviour cannot be stated.
- The unbounded frame loop itself (src/main.rs:110-121). Its only decision
  reads state produced by the `events` module.
- The `println!` of the two handles (src/main.rs:108). It is output only.
- The panic of `add_widget` is modelled as an `Err` result with the table
  unchanged. The model does not capture process termination itself.
  `InsertAll` captures it only in that no later call runs.
- Ownership of `String` and `&str` (src/main.rs:55). Text is a Dafny `string`.
- Layout, hit-testing, button presses and textbox editing. The source
  declares the fields but contains no logic for them.
