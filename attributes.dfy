// The attribute vocabulary of the editor's rich text: the font (the only
// attribute whose traits and size the editor reads back), the link value and
// the strikethrough flag. Colours are not modelled.

module Attributes {

  datatype Option<T> = None | Some(value: T)

  /** A font, reduced to what the editor tests: its bold and italic traits,
      whether its name contains "Courier", and its point size. */
  datatype Font = Font(bold: bool, italic: bool, courier: bool, size: int)

  /** What is stored under the link key: a URL, or the empty string the
      editor stores when the destination does not parse as a URL. */
  datatype LinkValue = Url(absoluteString: string) | NonUrl

  /** The attributes of one character. `None` means the key is absent. */
  datatype Attrs = Attrs(font: Option<Font>, link: Option<LinkValue>, strike: bool)

  /** An attribute dictionary passed to addAttributes: each key present
      overwrites the character's value for that key; `strike` true sets the
      single-line strikethrough style. */
  datatype AttrUpdate = AttrUpdate(font: Option<Font>, link: Option<LinkValue>, strike: bool)

  /** One character of an attributed string with its attributes. */
  datatype Cell = Cell(ch: char, attrs: Attrs)

  /** The point size the editing side styles with (Coordinator.fontSizeView). */
  const FontSizeView: int := 18

  /** A character with no attributes at all. */
  const NoAttrs := Attrs(None, None, false)

  function SystemFont(size: int): Font { Font(false, false, false, size) }
  function BoldSystemFont(size: int): Font { Font(true, false, false, size) }
  function ItalicSystemFont(size: int): Font { Font(false, true, false, size) }
  function BoldItalicFont(size: int): Font { Font(true, true, false, size) }
  function CourierFont(size: int): Font { Font(false, false, true, size) }

  /** addAttributes on one character: the keys of `u` win, the others stay. */
  function Overlay(a: Attrs, u: AttrUpdate): (r: Attrs)
    ensures u.font.Some? ==> r.font == u.font
    ensures u.font.None? ==> r.font == a.font
    ensures u.link.Some? ==> r.link == u.link
    ensures u.link.None? ==> r.link == a.link
    ensures r.strike == (a.strike || u.strike)
  {
    Attrs(if u.font.Some? then u.font else a.font,
          if u.link.Some? then u.link else a.link,
          a.strike || u.strike)
  }

  /** The plain string of an attributed string. */
  function Text(cells: seq<Cell>): (s: string)
    ensures |s| == |cells|
    ensures forall i :: 0 <= i < |cells| ==> s[i] == cells[i].ch
  {
    seq(|cells|, i requires 0 <= i < |cells| => cells[i].ch)
  }

  /** The characters of `s`, each carrying the attributes `a`. */
  function Paint(s: string, a: Attrs): (cells: seq<Cell>)
    ensures |cells| == |s|
    ensures forall i :: 0 <= i < |s| ==> cells[i] == Cell(s[i], a)
  {
    seq(|s|, i requires 0 <= i < |s| => Cell(s[i], a))
  }

  lemma TextOfPaint(s: string, a: Attrs)
    ensures Text(Paint(s, a)) == s
  {
  }

  lemma TextOfConcat(x: seq<Cell>, y: seq<Cell>)
    ensures Text(x + y) == Text(x) + Text(y)
  {
    assert forall i :: 0 <= i < |x + y| ==> Text(x + y)[i] == (Text(x) + Text(y))[i];
  }

  lemma TextOfSlice(x: seq<Cell>, i: int, j: int)
    requires 0 <= i <= j <= |x|
    ensures Text(x[i..j]) == Text(x)[i..j]
  {
    assert forall k :: 0 <= k < j - i ==> Text(x[i..j])[k] == Text(x)[i..j][k];
  }
}
