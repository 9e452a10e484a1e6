// The forward pass (markdown text to styled text) as functions: each
// construct of the parsed document is looked up by the first occurrence of
// its literal markdown form in the current string, that occurrence is
// replaced by the bare text, and attributes are added over a range starting
// where the occurrence began. The imperative Coordinator in module Editor is
// proved to compute exactly these functions.

module Styling {
  import opened Attributes
  import opened AttributedText
  import opened Markup

  /** The outcome of (part of) a styling pass: the new attributed string, or
      the range exception addAttributes raises when its range runs past the
      end of the string. */
  datatype Pass = Done(cells: seq<Cell>) | OutOfBounds

  function Repeat(c: char, n: nat): (r: string)
    ensures |r| == n && forall k :: 0 <= k < n ==> r[k] == c
  {
    if n == 0 then [] else Repeat(c, n - 1) + [c]
  }

  /** dropFirst().dropLast() */
  function DropEnds(s: string): (r: string)
    ensures |s| >= 2 ==> r == s[1..|s| - 1]
    ensures |s| < 2 ==> r == []
  {
    if |s| >= 2 then s[1..|s| - 1] else []
  }

  // ---- Literal forms looked up in the text ----

  function HeadingLiteral(level: nat, text: string): string {
    Repeat('#', level) + " " + text
  }

  function Delimited(marker: string, text: string): string {
    marker + text + marker
  }

  function LinkLiteral(text: string, destination: Option<string>): string {
    "[" + text + "](" + Destination(destination) + ")"
  }

  /** `link.destination ?? ""` */
  function Destination(destination: Option<string>): string {
    if destination.Some? then destination.value else ""
  }

  // ---- Attribute dictionaries added per construct ----

  /** A heading of level L gets the bold system font of size 2*18 - 2*L. */
  function HeadingUpdate(level: nat): AttrUpdate {
    AttrUpdate(Some(BoldSystemFont(FontSizeView * 2 - level * 2)), None, false)
  }

  const BoldUpdate := AttrUpdate(Some(BoldSystemFont(FontSizeView)), None, false)
  const ItalicUpdate := AttrUpdate(Some(ItalicSystemFont(FontSizeView)), None, false)
  const BoldItalicUpdate := AttrUpdate(Some(BoldItalicFont(FontSizeView)), None, false)
  const InlineCodeUpdate := AttrUpdate(Some(CourierFont(FontSizeView)), None, false)
  const StrikethroughUpdate := AttrUpdate(Some(SystemFont(FontSizeView)), None, true)

  /** The link key holds the URL, or "" (not a URL) when the destination
      does not parse. */
  function LinkUpdate(destination: Option<string>, urlValid: bool): AttrUpdate {
    AttrUpdate(Some(SystemFont(FontSizeView)),
               Some(if urlValid then Url(Destination(destination)) else NonUrl),
               false)
  }

  // ---- One replacement ----

  /** `after` is `before` with the occurrence of length `litLen` at `i`
      replaced by `bare`, and `u` added over the `styledLen` characters from
      `i` on: nothing before `i` changes, the bare text takes the attributes
      of the first replaced character overlaid with `u`, and when
      `styledLen` exceeds the bare text the characters that follow it are
      overlaid too. */
  ghost predicate Restyled(before: seq<Cell>, after: seq<Cell>, i: nat, litLen: nat,
                           bare: string, styledLen: nat, u: AttrUpdate)
    requires 0 < litLen && i + litLen <= |before| && |bare| <= styledLen
  {
    |after| == |before| - litLen + |bare|
    && i + styledLen <= |after|
    && after[..i] == before[..i]
    && after[i + styledLen..] == before[i + litLen + styledLen - |bare|..]
    && (forall k :: 0 <= k < |bare| ==> after[i + k] == Cell(bare[k], Overlay(before[i].attrs, u)))
    && (forall k :: i + |bare| <= k < i + styledLen ==>
          after[k] == Cell(before[k + litLen - |bare|].ch, Overlay(before[k + litLen - |bare|].attrs, u)))
  }

  /** Replace the `litLen` characters at `i` by `bare`, add `u` over
      `styledLen` characters from `i`; the range exception when they do not
      fit. */
  function StyleAt(cells: seq<Cell>, i: nat, litLen: nat, bare: string, styledLen: nat,
                   u: AttrUpdate): (r: Pass)
    requires 0 < litLen && i + litLen <= |cells| && |bare| <= styledLen
    ensures r.Done? <==> i + litLen + styledLen - |bare| <= |cells|
    ensures r.Done? ==> Restyled(cells, r.cells, i, litLen, bare, styledLen, u)
    ensures r.Done? ==> Text(r.cells) == Text(cells)[..i] + bare + Text(cells)[i + litLen..]
  {
    var c := ReplaceCells(cells, i, litLen, bare);
    if i + styledLen <= |c| then
      ReplaceThenStyle(cells, i, litLen, bare, styledLen, u);
      Done(AddAttrs(c, i, styledLen, u))
    else OutOfBounds
  }

  lemma ReplaceThenStyle(cells: seq<Cell>, i: nat, litLen: nat, bare: string, styledLen: nat,
                         u: AttrUpdate)
    requires 0 < litLen && i + litLen <= |cells| && |bare| <= styledLen
    requires i + litLen + styledLen - |bare| <= |cells|
    ensures Restyled(cells, AddAttrs(ReplaceCells(cells, i, litLen, bare), i, styledLen, u),
                     i, litLen, bare, styledLen, u)
  {
    var c := ReplaceCells(cells, i, litLen, bare);
    var r := AddAttrs(c, i, styledLen, u);
    var d := litLen - |bare|;
    var tail := c[i + |bare|..];
    assert tail == cells[i + litLen..];
    assert r[i + styledLen..] == c[i + styledLen..];
    assert c[i + styledLen..] == tail[styledLen - |bare|..];
    assert cells[i + litLen + styledLen - |bare|..] == cells[i + litLen..][styledLen - |bare|..];
    forall k | 0 <= k < |bare|
      ensures r[i + k] == Cell(bare[k], Overlay(cells[i].attrs, u))
    {
      assert c[i + k] == Cell(bare[k], cells[i].attrs);
    }
    forall k | i + |bare| <= k < i + styledLen
      ensures r[k] == Cell(cells[k + d].ch, Overlay(cells[k + d].attrs, u))
    {
      assert c[k] == tail[k - i - |bare|];
      assert cells[i + litLen..][k - i - |bare|] == cells[k + d];
    }
  }

  /** Find the first occurrence of `literal`, replace it by `bare`, add `u`
      over `styledLen` characters from the match position. */
  function StyleFirst(cells: seq<Cell>, literal: string, bare: string, styledLen: nat,
                      u: AttrUpdate): (r: Pass)
    requires |bare| <= styledLen
    ensures FindFirst(Text(cells), literal).None? ==> r == Done(cells)
    ensures FindFirst(Text(cells), literal).Some? ==>
              var i := FindFirst(Text(cells), literal).value;
              (r.Done? <==> i + |literal| + styledLen - |bare| <= |cells|)
              && (r.Done? ==> Restyled(cells, r.cells, i, |literal|, bare, styledLen, u))
    ensures styledLen == |bare| ==> r.Done?
    ensures r.Done? && |bare| <= |literal| ==> |r.cells| <= |cells|
    ensures r.Done? ==> Text(r.cells) == ReplaceFirst(Text(cells), literal, bare)
  {
    match FindFirst(Text(cells), literal)
    case None => Done(cells)
    case Some(i) => StyleAt(cells, i, |literal|, bare, styledLen, u)
  }

  // ---- The constructs ----

  /** A step whose styled range is the bare text always succeeds: the
      occurrence found is replaced and styled. */
  lemma StyleFirstFound(cells: seq<Cell>, literal: string, bare: string, u: AttrUpdate, i: nat)
    requires FindFirst(Text(cells), literal) == Some(i)
    ensures i + |literal| <= |cells|
    ensures StyleFirst(cells, literal, bare, |bare|, u).cells ==
              AddAttrs(ReplaceCells(cells, i, |literal|, bare), i, |bare|, u)
  {
  }


  function StyledHeading(cells: seq<Cell>, level: nat, text: string): (r: seq<Cell>)
    ensures !Occurs(Text(cells), HeadingLiteral(level, text)) ==> r == cells
    ensures Occurs(Text(cells), HeadingLiteral(level, text)) ==>
              |r| == |cells| - (level + 1)
              && exists i :: FirstOccurrence(Text(cells), HeadingLiteral(level, text), i)
                   && Restyled(cells, r, i, level + 1 + |text|, text, |text|, HeadingUpdate(level))
    ensures Text(r) == ReplaceFirst(Text(cells), HeadingLiteral(level, text), text)
  {
    StyleFirst(cells, HeadingLiteral(level, text), text, |text|, HeadingUpdate(level)).cells
  }

  /** `**p**` is tried first, `__p__` only when `**p**` does not occur. */
  function StyledStrong(cells: seq<Cell>, p: string): (r: seq<Cell>)
    ensures Occurs(Text(cells), Delimited("**", p)) ==>
              exists i :: FirstOccurrence(Text(cells), Delimited("**", p), i)
                && Restyled(cells, r, i, |p| + 4, p, |p|, BoldUpdate)
    ensures !Occurs(Text(cells), Delimited("**", p)) && Occurs(Text(cells), Delimited("__", p)) ==>
              exists i :: FirstOccurrence(Text(cells), Delimited("__", p), i)
                && Restyled(cells, r, i, |p| + 4, p, |p|, BoldUpdate)
    ensures !Occurs(Text(cells), Delimited("**", p)) && !Occurs(Text(cells), Delimited("__", p)) ==>
              r == cells
    ensures Occurs(Text(cells), Delimited("**", p)) || Occurs(Text(cells), Delimited("__", p)) ==>
              |r| == |cells| - 4
    ensures Text(r) == if Occurs(Text(cells), Delimited("**", p))
                       then ReplaceFirst(Text(cells), Delimited("**", p), p)
                       else ReplaceFirst(Text(cells), Delimited("__", p), p)
  {
    if FindFirst(Text(cells), Delimited("**", p)).Some? then
      StyleFirst(cells, Delimited("**", p), p, |p|, BoldUpdate).cells
    else
      StyleFirst(cells, Delimited("__", p), p, |p|, BoldUpdate).cells
  }

  /** `_p_` is tried first, `*p*` only when `_p_` does not occur. */
  function StyledItalic(cells: seq<Cell>, p: string): (r: seq<Cell>)
    ensures Occurs(Text(cells), Delimited("_", p)) ==>
              exists i :: FirstOccurrence(Text(cells), Delimited("_", p), i)
                && Restyled(cells, r, i, |p| + 2, p, |p|, ItalicUpdate)
    ensures !Occurs(Text(cells), Delimited("_", p)) && Occurs(Text(cells), Delimited("*", p)) ==>
              exists i :: FirstOccurrence(Text(cells), Delimited("*", p), i)
                && Restyled(cells, r, i, |p| + 2, p, |p|, ItalicUpdate)
    ensures !Occurs(Text(cells), Delimited("_", p)) && !Occurs(Text(cells), Delimited("*", p)) ==>
              r == cells
    ensures Occurs(Text(cells), Delimited("_", p)) || Occurs(Text(cells), Delimited("*", p)) ==>
              |r| == |cells| - 2
    ensures Text(r) == if Occurs(Text(cells), Delimited("_", p))
                       then ReplaceFirst(Text(cells), Delimited("_", p), p)
                       else ReplaceFirst(Text(cells), Delimited("*", p), p)
  {
    if FindFirst(Text(cells), Delimited("_", p)).Some? then
      StyleFirst(cells, Delimited("_", p), p, |p|, ItalicUpdate).cells
    else
      StyleFirst(cells, Delimited("*", p), p, |p|, ItalicUpdate).cells
  }

  /** Bold-italic with the given three-character marker. */
  function StyledBoldItalicWith(cells: seq<Cell>, marker: string, p: string): (r: seq<Cell>)
    requires |marker| == 3
    ensures !Occurs(Text(cells), Delimited(marker, p)) ==> r == cells
    ensures Occurs(Text(cells), Delimited(marker, p)) ==>
              |r| == |cells| - 6
              && exists i :: FirstOccurrence(Text(cells), Delimited(marker, p), i)
                   && Restyled(cells, r, i, |p| + 6, p, |p|, BoldItalicUpdate)
    ensures Text(r) == ReplaceFirst(Text(cells), Delimited(marker, p), p)
  {
    StyleFirst(cells, Delimited(marker, p), p, |p|, BoldItalicUpdate).cells
  }

  /** A Strong inside an Emphasis: `***p***` and then `___p___` are both
      attempted, each on the text the previous attempt left. */
  function StyledBoldItalic(cells: seq<Cell>, p: string): (r: seq<Cell>)
    ensures |r| == |cells| || |r| == |cells| - 6 || |r| == |cells| - 12
    ensures Occurs(Text(cells), Delimited("***", p)) ==> |r| <= |cells| - 6
    ensures !Occurs(Text(cells), Delimited("***", p)) ==>
              r == StyledBoldItalicWith(cells, "___", p)
    ensures Text(r) == ReplaceFirst(ReplaceFirst(Text(cells), Delimited("***", p), p), Delimited("___", p), p)
  {
    StyledBoldItalicWith(StyledBoldItalicWith(cells, "***", p), "___", p)
  }

  function StyledLink(cells: seq<Cell>, text: string, destination: Option<string>,
                      urlValid: bool): (r: seq<Cell>)
    ensures !Occurs(Text(cells), LinkLiteral(text, destination)) ==> r == cells
    ensures Occurs(Text(cells), LinkLiteral(text, destination)) ==>
              |r| == |cells| - (|Destination(destination)| + 4)
              && exists i :: FirstOccurrence(Text(cells), LinkLiteral(text, destination), i)
                   && Restyled(cells, r, i, |text| + |Destination(destination)| + 4, text, |text|,
                               LinkUpdate(destination, urlValid))
    ensures Text(r) == ReplaceFirst(Text(cells), LinkLiteral(text, destination), text)
  {
    StyleFirst(cells, LinkLiteral(text, destination), text, |text|,
               LinkUpdate(destination, urlValid)).cells
  }

  /** Inline code: the literal is the node's plain text (delimiters
      included), the replacement drops its first and last character, but the
      attributes cover |plainText| characters: two more than were inserted,
      so the range exception is raised unless two characters follow the
      code span. */
  function StyledInlineCode(cells: seq<Cell>, p: string): (r: Pass)
    ensures r.Done? ==> |r.cells| <= |cells|
    ensures !Occurs(Text(cells), p) ==> r == Done(cells)
    ensures forall i: nat :: FirstOccurrence(Text(cells), p, i) && |p| >= 2 ==>
              (r.Done? <==> i + |p| + 2 <= |cells|)
              && (r.Done? ==> |r.cells| == |cells| - 2
                              && Restyled(cells, r.cells, i, |p|, DropEnds(p), |p|, InlineCodeUpdate))
    ensures r.Done? ==> Text(r.cells) == ReplaceFirst(Text(cells), p, DropEnds(p))
  {
    StyleFirst(cells, p, DropEnds(p), |p|, InlineCodeUpdate)
  }

  /** Strikethrough: the literal is `~p~` for the node's plain text `p`
      (which carries one `~` on each side), the replacement drops p's first
      and last character, the attributes cover |p| characters. */
  function StyledStrikethrough(cells: seq<Cell>, p: string): (r: Pass)
    ensures r.Done? ==> |r.cells| <= |cells|
    ensures !Occurs(Text(cells), Delimited("~", p)) ==> r == Done(cells)
    ensures forall i: nat :: FirstOccurrence(Text(cells), Delimited("~", p), i) && |p| >= 2 ==>
              (r.Done? <==> i + |p| + 4 <= |cells|)
              && (r.Done? ==> |r.cells| == |cells| - 4
                              && Restyled(cells, r.cells, i, |p| + 2, DropEnds(p), |p|, StrikethroughUpdate))
    ensures r.Done? ==> Text(r.cells) == ReplaceFirst(Text(cells), Delimited("~", p), DropEnds(p))
  {
    StyleFirst(cells, Delimited("~", p), DropEnds(p), |p|, StrikethroughUpdate)
  }

  // ---- Walking the document ----

  /** The children of an Emphasis in order: a Strong child is styled as
      bold-italic with its own text, every other child retries the italic
      replacement of the emphasis' whole text. */
  function StyledEmphasisChildren(cells: seq<Cell>, p: string, children: seq<Inline>): (r: seq<Cell>)
    ensures |r| <= |cells|
    decreases |children|
  {
    if children == [] then cells
    else
      var c := if children[0].Strong? then StyledBoldItalic(cells, children[0].plainText)
               else StyledItalic(cells, p);
      StyledEmphasisChildren(c, p, children[1..])
  }

  function StyledInline(cells: seq<Cell>, x: Inline): (r: Pass)
    ensures r.Done? ==> |r.cells| <= |cells|
    ensures !x.InlineCode? && !x.Strikethrough? ==> r.Done?
  {
    match x
    case Strong(p) => Done(StyledStrong(cells, p))
    case Emphasis(p, children) => Done(StyledEmphasisChildren(cells, p, children))
    case Link(t, d, valid) => Done(StyledLink(cells, t, d, valid))
    case InlineCode(p) => StyledInlineCode(cells, p)
    case Strikethrough(p) => StyledStrikethrough(cells, p)
    case OtherInline => Done(cells)
  }

  /** A paragraph's inline children in order; the first range exception
      ends the pass. */
  function StyledInlines(cells: seq<Cell>, xs: seq<Inline>): (r: Pass)
    ensures r.Done? ==> |r.cells| <= |cells|
    ensures (forall k :: 0 <= k < |xs| ==> !xs[k].InlineCode? && !xs[k].Strikethrough?) ==> r.Done?
    decreases |xs|
  {
    if xs == [] then Done(cells)
    else
      match StyledInline(cells, xs[0])
      case OutOfBounds => OutOfBounds
      case Done(c) => StyledInlines(c, xs[1..])
  }

  function StyledBlock(cells: seq<Cell>, b: Block): (r: Pass)
    ensures r.Done? ==> |r.cells| <= |cells|
    decreases b, 1
  {
    match b
    case Heading(level, text) => Done(StyledHeading(cells, level, text))
    case Paragraph(xs) => StyledInlines(cells, xs)
    case UnorderedList(items) => StyledListItems(cells, items)
    case OrderedList(items) => StyledListItems(cells, items)
    case OtherBlock => Done(cells)
  }

  /** Each list item's blocks, item after item. */
  function StyledListItems(cells: seq<Cell>, items: seq<ListItem>): (r: Pass)
    ensures r.Done? ==> |r.cells| <= |cells|
    decreases items, 0
  {
    if items == [] then Done(cells)
    else
      match StyledBlocks(cells, items[0].children)
      case OutOfBounds => OutOfBounds
      case Done(c) => StyledListItems(c, items[1..])
  }

  /** The blocks of a document in order; the first range exception ends
      the pass. */
  function StyledBlocks(cells: seq<Cell>, bs: seq<Block>): (r: Pass)
    ensures r.Done? ==> |r.cells| <= |cells|
    decreases bs, 0
  {
    if bs == [] then Done(cells)
    else
      match StyledBlock(cells, bs[0])
      case OutOfBounds => OutOfBounds
      case Done(c) => StyledBlocks(c, bs[1..])
  }

  /** The emphasis' italic replacement run `n` times in a row. */
  function ItalicTimes(cells: seq<Cell>, p: string, n: nat): seq<Cell>
    decreases n
  {
    if n == 0 then cells else ItalicTimes(StyledItalic(cells, p), p, n - 1)
  }

  /** Every child that is not Strong reruns the emphasis' italic
      replacement: with no Strong child, the replacement runs once per child,
      so later occurrences of the same literal are restyled too. */
  lemma {:induction false} EmphasisRetriesItalic(cells: seq<Cell>, p: string, children: seq<Inline>)
    requires forall k :: 0 <= k < |children| ==> !children[k].Strong?
    ensures StyledEmphasisChildren(cells, p, children) == ItalicTimes(cells, p, |children|)
    decreases |children|
  {
    if children != [] {
      var c := StyledItalic(cells, p);
      var rest := children[1..];
      ItalicChildStep(cells, p, children);
      EmphasisRetriesItalic(c, p, rest);
      assert |rest| == |children| - 1;
    }
  }

  lemma ItalicChildStep(cells: seq<Cell>, p: string, children: seq<Inline>)
    requires children != [] && !children[0].Strong?
    ensures StyledEmphasisChildren(cells, p, children)
            == StyledEmphasisChildren(StyledItalic(cells, p), p, children[1..])
    ensures ItalicTimes(cells, p, |children|) == ItalicTimes(StyledItalic(cells, p), p, |children| - 1)
  {
  }

  // ---- When a pass cannot fail ----

  /** No inline code and no strikethrough, the only nodes whose attribute
      range can run past the end of the text. */
  ghost predicate SafeInlines(xs: seq<Inline>) {
    forall k :: 0 <= k < |xs| ==> !xs[k].InlineCode? && !xs[k].Strikethrough?
  }

  ghost predicate SafeBlock(b: Block)
    decreases b, 1
  {
    match b
    case Paragraph(xs) => SafeInlines(xs)
    case UnorderedList(items) => SafeItems(items)
    case OrderedList(items) => SafeItems(items)
    case _ => true
  }

  ghost predicate SafeItems(items: seq<ListItem>)
    decreases items, 0
  {
    forall k :: 0 <= k < |items| ==> SafeBlocks(items[k].children)
  }

  ghost predicate SafeBlocks(bs: seq<Block>)
    decreases bs, 0
  {
    forall k :: 0 <= k < |bs| ==> SafeBlock(bs[k])
  }

  /** A document without inline code and strikethrough, at any depth of
      list nesting, is styled without a range exception. */
  lemma {:induction false} SafeBlocksSucceed(cells: seq<Cell>, bs: seq<Block>)
    requires SafeBlocks(bs)
    ensures StyledBlocks(cells, bs).Done?
    decreases bs, 0
  {
    if bs != [] {
      SafeBlockSucceeds(cells, bs[0]);
      SafeBlocksSucceed(StyledBlock(cells, bs[0]).cells, bs[1..]);
    }
  }

  lemma {:induction false} SafeBlockSucceeds(cells: seq<Cell>, b: Block)
    requires SafeBlock(b)
    ensures StyledBlock(cells, b).Done?
    decreases b, 1
  {
    match b
    case UnorderedList(items) => SafeItemsSucceed(cells, items);
    case OrderedList(items) => SafeItemsSucceed(cells, items);
    case _ =>
  }

  lemma {:induction false} SafeItemsSucceed(cells: seq<Cell>, items: seq<ListItem>)
    requires SafeItems(items)
    ensures StyledListItems(cells, items).Done?
    decreases items, 0
  {
    if items != [] {
      SafeBlocksSucceed(cells, items[0].children);
      SafeItemsSucceed(StyledBlocks(cells, items[0].children).cells, items[1..]);
    }
  }
}
