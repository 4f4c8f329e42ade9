/** The UI widget table: an append-only list of (parent handle, widget) pairs
    whose positions are the handles given out at insertion. */
module WidgetTable {
  import opened Widgets

  /** One row of the table: the parent handle exactly as passed, and the widget. */
  type Entry = (i32, Widget)

  /** The only failure: the table already holds `i32::MAX` entries, so the next
      handle would not fit in an `i32` (the source panics). */
  datatype Error = TooManyWidgets

  datatype Result<T> = Ok(value: T) | Err(error: Error)

  /** What one successful insertion yields: the handle and the new table. */
  datatype Added = Added(handle: i32, table: seq<Entry>)

  /** What a run of successful insertions yields: the handles in call order
      and the final table. */
  datatype Inserted = Inserted(handles: seq<i32>, table: seq<Entry>)

  /** One `add_widget` call as a value. It fails exactly when the table is
      full; otherwise the handle is the old length, it indexes the new entry
      `(parent, w)`, and every earlier entry is kept. The parent is not checked
      against the table. */
  function AddEntry(table: seq<Entry>, parent: i32, w: Widget): (r: Result<Added>)
    ensures r.Ok? <==> |table| < I32_MAX
    ensures r.Ok? ==> 0 <= r.value.handle as int < I32_MAX
    ensures r.Ok? ==> r.value.handle as int == |table|
    ensures r.Ok? ==> |r.value.table| == |table| + 1
    ensures r.Ok? ==> r.value.table[..|table|] == table
    ensures r.Ok? ==> r.value.table[r.value.handle as int] == (parent, w)
  {
    if |table| >= I32_MAX then Err(TooManyWidgets)
    else Ok(Added(|table| as i32, table + [(parent, w)]))
  }

  /** The calls `add_widget(p0, w0); add_widget(p1, w1); ...` in order, starting
      from `table`. The first call that panics ends the run. */
  function InsertAll(table: seq<Entry>, items: seq<Entry>): Result<Inserted>
    decreases |items|
  {
    if items == [] then Ok(Inserted([], table))
    else
      match AddEntry(table, items[0].0, items[0].1)
      case Err(e) => Err(e)
      case Ok(a) =>
        match InsertAll(a.table, items[1..])
        case Err(e) => Err(e)
        case Ok(rest) => Ok(Inserted([a.handle] + rest.handles, rest.table))
  }

  /** Repeated insertion into a table that is not over-full succeeds exactly
      when the final length fits, returns the consecutive handles
      |table|, |table| + 1, ... and appends the pairs in call order. */
  lemma {:induction false} InsertAllDense(table: seq<Entry>, items: seq<Entry>)
    requires |table| <= I32_MAX
    ensures InsertAll(table, items).Ok? <==> |table| + |items| <= I32_MAX
    ensures InsertAll(table, items).Ok? ==>
              var ins := InsertAll(table, items).value;
              && |ins.handles| == |items|
              && (forall k :: 0 <= k < |items| ==> ins.handles[k] as int == |table| + k)
              && ins.table == table + items
    decreases |items|
  {
    if items != [] {
      var step := AddEntry(table, items[0].0, items[0].1);
      if step.Ok? {
        var a := step.value;
        assert a.table == table + [items[0]];
        InsertAllDense(a.table, items[1..]);
        assert a.table + items[1..] == table + items;
      }
    }
  }

  /** Starting from the empty table, N insertions (N <= i32::MAX) all succeed,
      return the handles 0, 1, ..., N-1, and the entry at handle k is the k-th
      inserted pair. */
  lemma HandlesFromEmpty(items: seq<Entry>)
    requires |items| <= I32_MAX
    ensures InsertAll([], items).Ok?
    ensures var ins := InsertAll([], items).value;
            && |ins.handles| == |items| == |ins.table|
            && forall k :: 0 <= k < |items| ==>
                 ins.handles[k] as int == k && ins.table[ins.handles[k] as int] == items[k]
  {
    InsertAllDense([], items);
  }

  /** Insertions never remove or rewrite an entry: the table only grows, and
      every earlier entry, parent included, is exactly as it was. */
  lemma EarlierEntriesUnchanged(table: seq<Entry>, items: seq<Entry>)
    requires |table| <= I32_MAX
    ensures InsertAll(table, items).Ok? ==>
              var ins := InsertAll(table, items).value;
              && |table| <= |ins.table|
              && forall k :: 0 <= k < |table| ==> ins.table[k] == table[k]
  {
    InsertAllDense(table, items);
  }

  /** The widget store of the UI layer. */
  class UI {
    var widgets: seq<Entry>

    /** Handles stay representable: the table never exceeds i32::MAX rows. */
    ghost predicate Valid()
      reads this
    {
      |widgets| <= I32_MAX
    }

    /** `UI::new`: no widgets yet. */
    constructor ()
      ensures Valid()
      ensures widgets == []
    {
      widgets := [];
    }

    /** `UI::add_widget`: pushes `(parent, w)` and returns its position as the
        handle, or fails with the table unchanged when it is already full. */
    method AddWidget(parent: i32, w: Widget) returns (r: Result<i32>)
      requires Valid()
      modifies this
      ensures Valid()
      ensures r.Ok? <==> old(|widgets|) < I32_MAX
      ensures r.Ok? ==> r.value as int == old(|widgets|) && widgets == old(widgets) + [(parent, w)]
      ensures r.Err? ==> r.error == TooManyWidgets && widgets == old(widgets)
      ensures AddEntry(old(widgets), parent, w)
              == if r.Ok? then Ok(Added(r.value, widgets)) else Err(r.error)
    {
      var index := |widgets|;
      if index >= I32_MAX {
        return Err(TooManyWidgets);
      }
      var safeIndex := index as i32;
      widgets := widgets + [(parent, w)];
      return Ok(safeIndex);
    }
  }
}
