// The attributed strings the editor works on: first-occurrence search
// (String.range(of:)), NSMutableAttributedString's replaceCharacters and
// addAttributes, and the text view holding the attributed text and the
// selection.

module AttributedText {
  import opened Attributes

  /** `pat` occurs in `s` at index `j`. */
  predicate OccursAt(s: string, pat: string, j: int) {
    0 <= j && j + |pat| <= |s| && s[j..j + |pat|] == pat
  }

  /** `pat` is a non-empty string occurring somewhere in `s`. */
  ghost predicate Occurs(s: string, pat: string) {
    |pat| > 0 && exists j :: OccursAt(s, pat, j)
  }

  /** `i` is the first index at which the non-empty `pat` occurs in `s`. */
  ghost predicate FirstOccurrence(s: string, pat: string, i: nat) {
    |pat| > 0 && OccursAt(s, pat, i) && forall j :: 0 <= j < i ==> !OccursAt(s, pat, j)
  }

  function FindFrom(s: string, pat: string, from: nat): (r: Option<nat>)
    requires |pat| > 0
    ensures r.Some? ==> from <= r.value && OccursAt(s, pat, r.value)
    ensures r.Some? ==> forall j :: from <= j < r.value ==> !OccursAt(s, pat, j)
    ensures r.None? ==> forall j :: from <= j ==> !OccursAt(s, pat, j)
    decreases |s| - from
  {
    if from + |pat| > |s| then None
    else if s[from..from + |pat|] == pat then Some(from)
    else FindFrom(s, pat, from + 1)
  }

  /** String.range(of:): the first occurrence of `pat` in `s`; an empty
      pattern is never found. */
  function FindFirst(s: string, pat: string): (r: Option<nat>)
    ensures r.Some? <==> Occurs(s, pat)
    ensures r.Some? ==> FirstOccurrence(s, pat, r.value) && r.value + |pat| <= |s|
  {
    if |pat| == 0 then None else FindFrom(s, pat, 0)
  }

  /** The plain-string reference for one replacement: the first occurrence
      of `pat` in `s`, if any, replaced by `bare`. */
  function ReplaceFirst(s: string, pat: string, bare: string): (r: string)
    ensures !Occurs(s, pat) ==> r == s
    ensures forall i: nat :: FirstOccurrence(s, pat, i) ==> r == s[..i] + bare + s[i + |pat|..]
  {
    match FindFirst(s, pat)
    case None => s
    case Some(i) => s[..i] + bare + s[i + |pat|..]
  }

  /** The attributes replaceCharacters(in:with: String) gives the new
      characters: those of the first replaced character; for an empty range
      those of the character before it, else of the one after it. */
  function InheritedAttrs(cells: seq<Cell>, at: nat, n: nat): (r: Attrs)
    requires at + n <= |cells|
    ensures n > 0 ==> r == cells[at].attrs
    ensures n == 0 && at > 0 ==> r == cells[at - 1].attrs
    ensures n == 0 && at == 0 && cells != [] ==> r == cells[0].attrs
    ensures cells == [] ==> r == NoAttrs
    ensures cells != [] ==> exists k :: 0 <= k < |cells| && r == cells[k].attrs
  {
    if n > 0 then cells[at].attrs
    else if at > 0 then cells[at - 1].attrs
    else if at < |cells| then cells[at].attrs
    else NoAttrs
  }

  /** replaceCharacters(in: [at, at+n), with: text) on a plain string. */
  function ReplaceCells(cells: seq<Cell>, at: nat, n: nat, text: string): (r: seq<Cell>)
    requires at + n <= |cells|
    ensures |r| == |cells| - n + |text|
    ensures r[..at] == cells[..at] && r[at + |text|..] == cells[at + n..]
    ensures forall k :: 0 <= k < |text| ==> r[at + k] == Cell(text[k], InheritedAttrs(cells, at, n))
    ensures Text(r) == Text(cells)[..at] + text + Text(cells)[at + n..]
  {
    var r := cells[..at] + Paint(text, InheritedAttrs(cells, at, n)) + cells[at + n..];
    TextOfConcat(cells[..at] + Paint(text, InheritedAttrs(cells, at, n)), cells[at + n..]);
    TextOfConcat(cells[..at], Paint(text, InheritedAttrs(cells, at, n)));
    TextOfPaint(text, InheritedAttrs(cells, at, n));
    TextOfSlice(cells, 0, at);
    TextOfSlice(cells, at + n, |cells|);
    r
  }

  /** replaceCharacters(in: [at, at+n), with: piece) for an attributed piece:
      the new characters keep their own attributes. */
  function SpliceCells(cells: seq<Cell>, at: nat, n: nat, piece: seq<Cell>): (r: seq<Cell>)
    requires at + n <= |cells|
    ensures |r| == |cells| - n + |piece|
    ensures r[..at] == cells[..at] && r[at..at + |piece|] == piece && r[at + |piece|..] == cells[at + n..]
    ensures Text(r) == Text(cells)[..at] + Text(piece) + Text(cells)[at + n..]
  {
    TextOfConcat(cells[..at] + piece, cells[at + n..]);
    TextOfConcat(cells[..at], piece);
    TextOfSlice(cells, 0, at);
    TextOfSlice(cells, at + n, |cells|);
    cells[..at] + piece + cells[at + n..]
  }

  /** addAttributes(u, range: [at, at+n)): the characters stay, each
      attribute key of `u` overwrites the old value inside the range. */
  function AddAttrs(cells: seq<Cell>, at: nat, n: nat, u: AttrUpdate): (r: seq<Cell>)
    requires at + n <= |cells|
    ensures |r| == |cells|
    ensures r[..at] == cells[..at] && r[at + n..] == cells[at + n..]
    ensures forall k :: at <= k < at + n ==> r[k] == Cell(cells[k].ch, Overlay(cells[k].attrs, u))
    ensures Text(r) == Text(cells)
  {
    cells[..at]
      + seq(n, k requires 0 <= k < n => Cell(cells[at + k].ch, Overlay(cells[at + k].attrs, u)))
      + cells[at + n..]
  }

  /** A mutable attributed string. */
  class MutableAttributedString {
    var cells: seq<Cell>

    constructor (cells: seq<Cell>)
      ensures this.cells == cells
    {
      this.cells := cells;
    }

    /** The `string` property. */
    function String(): string
      reads this
    {
      Text(cells)
    }

    method ReplaceCharacters(at: nat, n: nat, text: string)
      requires at + n <= |cells|
      modifies this
      ensures cells == ReplaceCells(old(cells), at, n, text)
    {
      cells := ReplaceCells(cells, at, n, text);
    }

    /** addAttributes raises a range exception when the range runs past the
        end; `ok` is false then and nothing has changed. */
    method AddAttributes(u: AttrUpdate, at: nat, n: nat) returns (ok: bool)
      modifies this
      ensures ok <==> at + n <= |old(cells)|
      ensures cells == if ok then AddAttrs(old(cells), at, n, u) else old(cells)
    {
      ok := at + n <= |cells|;
      if ok {
        cells := AddAttrs(cells, at, n, u);
      }
    }
  }

  /** An NSRange as the text view reports it; the location may be computed
      negative by the editor's cursor correction. */
  datatype NSRange = NSRange(location: int, length: int)

  predicate RangeWithin(r: NSRange, cells: seq<Cell>) {
    0 <= r.location && 0 <= r.length && r.location + r.length <= |cells|
  }

  /** A text view: its attributed text and its selection. */
  class TextView {
    var attributedText: seq<Cell>
    var selectedRange: NSRange

    /** A view showing `text` in the editor's 18-point system font with the
        cursor at the start. */
    constructor (text: string)
      ensures attributedText == Paint(text, Attrs(Some(SystemFont(FontSizeView)), None, false))
      ensures selectedRange == NSRange(0, 0)
    {
      attributedText := Paint(text, Attrs(Some(SystemFont(FontSizeView)), None, false));
      selectedRange := NSRange(0, 0);
    }

    function Text(): string
      reads this
    {
      Attributes.Text(attributedText)
    }
  }
}
