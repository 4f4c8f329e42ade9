/** Widget values of the retained-mode UI: geometry records, the closed set of
    widget variants and the two factory functions that build them. */
module Widgets {

  /** Largest value of a Rust `i32`; handles and geometry are bounded by it. */
  const I32_MAX: int := 0x7fff_ffff

  /** Rust's 32-bit signed integer. */
  newtype i32 = x: int | -0x8000_0000 <= x <= 0x7fff_ffff

  /** Top-left corner of a widget. */
  datatype Position = Position(x: i32, y: i32)

  /** Width and height of a widget; nothing requires them to be non-negative. */
  datatype Size = Size(w: i32, h: i32)

  /** Every widget has a position and a size; some variants carry a payload. */
  datatype Widget =
    | Form(position: Position, size: Size)
    | Label(position: Position, size: Size, text: string)
    | Button(position: Position, size: Size, pressed: bool)
    | Textbox(position: Position, size: Size, text: string)

  /** A form at (x, y) of size (w, h); the arguments are stored as given,
      without any sign or range check. */
  function NewForm(x: i32, y: i32, w: i32, h: i32): (r: Widget)
    ensures r.Form?
    ensures r.position.x == x && r.position.y == y
    ensures r.size.w == w && r.size.h == h
  {
    Form(Position(x, y), Size(w, h))
  }

  /** A label at (x, y) of size (w, h) showing `text`, stored as given. */
  function NewLabel(x: i32, y: i32, w: i32, h: i32, text: string): (r: Widget)
    ensures r.Label?
    ensures r.position.x == x && r.position.y == y
    ensures r.size.w == w && r.size.h == h
    ensures r.text == text
  {
    Label(Position(x, y), Size(w, h), text)
  }

  /** Two forms from the factory are equal exactly when they were built from
      the same geometry: the factory loses nothing. */
  lemma NewFormInjective(x1: i32, y1: i32, w1: i32, h1: i32, x2: i32, y2: i32, w2: i32, h2: i32)
    ensures NewForm(x1, y1, w1, h1) == NewForm(x2, y2, w2, h2)
            <==> x1 == x2 && y1 == y2 && w1 == w2 && h1 == h2
  {
  }

  /** Two labels from the factory are equal exactly when they were built from
      the same geometry and text. */
  lemma NewLabelInjective(x1: i32, y1: i32, w1: i32, h1: i32, t1: string,
                          x2: i32, y2: i32, w2: i32, h2: i32, t2: string)
    ensures NewLabel(x1, y1, w1, h1, t1) == NewLabel(x2, y2, w2, h2, t2)
            <==> x1 == x2 && y1 == y2 && w1 == w2 && h1 == h2 && t1 == t2
  {
  }
}
