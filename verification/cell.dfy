// crates/posh-term/src/cell.rs and the row type of screen.rs: styles, cells and rows.
module Cells {
  import opened Utf8

  datatype Option<+T> = None | Some(value: T)

  datatype Color = DefaultColor | Indexed(i: byte) | Rgb(r: byte, g: byte, b: byte)

  datatype Underline = NoLine | Single | Double | Curly | Dotted | Dashed

  /** All SGR attributes, plus the DECSCA guard `guarded`, which SGR never changes. */
  datatype Style = Style(
    fg: Color, bg: Color, lineColor: Color,
    bold: bool, dim: bool, italic: bool, underline: Underline, blink: bool,
    inverse: bool, invisible: bool, struck: bool, guarded: bool)

  const PLAIN := Style(DefaultColor, DefaultColor, DefaultColor,
                       false, false, false, NoLine, false, false, false, false, false)

  /** Columns a character takes. */
  type Columns = n: nat | n <= 2

  /** `width` is 2 for the head of a wide character, 0 for the spacer after it, else 1. */
  datatype Cell = Cell(ch: char, style: Style, width: Columns, extra: string, link: nat)

  function Blank(style: Style): Cell {
    Cell(' ', style, 1, "", 0)
  }

  function Spacer(style: Style, link: nat): Cell {
    Cell('\0', style, 0, "", link)
  }

  predicate IsBlank(c: Cell) {
    (c.ch == ' ' || c.ch == '\0') && c.extra == ""
  }

  /** Invisible on a cleared background: the serializer may drop it, reflow may trim it. */
  predicate Skippable(c: Cell) {
    IsBlank(c) && c.style == PLAIN && c.link == 0
  }

  datatype Row = Row(cells: seq<Cell>, wrapped: bool, mark: Option<nat>)

  function Blanks(n: nat, style: Style): (cells: seq<Cell>)
    ensures |cells| == n && forall i | 0 <= i < n :: cells[i] == Blank(style)
  {
    seq(n, i => Blank(style))
  }

  function BlankRow(cols: nat, style: Style): Row {
    Row(Blanks(cols, style), false, None)
  }

  function BlankRows(n: nat, cols: nat, style: Style): (rows: seq<Row>)
    ensures |rows| == n && forall i | 0 <= i < n :: rows[i] == BlankRow(cols, style)
  {
    seq(n, i => BlankRow(cols, style))
  }

  /** A wide head without its spacer, or a spacer without its head. */
  predicate Orphan(cells: seq<Cell>, i: nat)
    requires i < |cells|
  {
    || (cells[i].width == 2 && (i + 1 == |cells| || cells[i + 1].width != 0))
    || (cells[i].width == 0 && (i == 0 || cells[i - 1].width != 2))
  }

  /** Wide heads and spacers come in pairs. */
  ghost predicate Paired(cells: seq<Cell>) {
    forall i | 0 <= i < |cells| :: !Orphan(cells, i)
  }

  /** One past the last cell that shows something. */
  function LastShown(cells: seq<Cell>): (n: nat)
    ensures n <= |cells|
    ensures n > 0 ==> !Skippable(cells[n - 1])
    ensures forall i | n <= i < |cells| :: Skippable(cells[i])
  {
    if cells == [] then 0
    else if !Skippable(cells[|cells| - 1]) then |cells|
    else LastShown(cells[..|cells| - 1])
  }

  /** `wcwidth` over its two range tables, which are parameters here. */
  datatype Widths = Widths(zero: char -> bool, wide: char -> bool) {
    function Of(c: char): Columns {
      var cp := c as int;
      if cp < 0x20 || 0x7F <= cp < 0xA0 then 0
      else if cp < 0x300 then 1
      else if zero(c) then 0
      else if wide(c) then 2
      else 1
    }
  }
}
