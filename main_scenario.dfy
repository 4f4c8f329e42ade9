/** The start-up sequence of the program: a form inserted as root, then a
    label whose parent is the form. */
module MainScenario {
  import opened Widgets
  import opened WidgetTable

  /** Builds the interface of `main`. The form gets handle 0, the label handle
      1 with the form as parent; since the root is inserted with parent 0, the
      form is recorded as its own parent. */
  method BuildInterface() returns (ui: UI, mainForm: i32, mainLabel: i32)
    ensures ui.Valid()
    ensures mainForm == 0 && mainLabel == 1
    ensures ui.widgets == [(0, NewForm(50, 50, 100, 100)), (0, NewLabel(10, 10, 55, 12, "Hello."))]
    ensures ui.widgets[mainLabel].0 == mainForm
    ensures ui.widgets[mainForm].0 == mainForm
  {
    ui := new UI();
    var first := ui.AddWidget(0, NewForm(50, 50, 100, 100));
    mainForm := first.value;
    var second := ui.AddWidget(mainForm, NewLabel(10, 10, 55, 12, "Hello."));
    mainLabel := second.value;
  }
}
