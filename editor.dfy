// The editor's coordinator: the forward styling pass run on a mutable copy
// of the text view's attributed text, the handling of a typed line break and
// of a typed space, and the cursor correction after a restyle. Each method
// is proved to compute the functions of module Styling and module
// ListContinuation.

module Editor {
  import opened Attributes
  import opened AttributedText
  import opened Markup
  import opened Styling
  import opened ListContinuation

  /** The space the editor types itself: the 18-point system font and no
      other attribute, whatever the neighbouring characters carry. */
  const PlainSpace: Cell := Cell(' ', Attrs(Some(SystemFont(FontSizeView)), None, false))

  class Coordinator {
    /** Document(parsing:): the markdown parser, which is not part of this
        model. */
    const parse: string -> Document
    /** parent.text: the plain text the editor hands back to its owner. */
    var parentText: string

    constructor (parse: string -> Document, parentText: string)
      ensures this.parse == parse && this.parentText == parentText
    {
      this.parse := parse;
      this.parentText := parentText;
    }

    /** The outcome of one styling pass over `cells`: the blocks the parser
        finds in its plain text, styled in order. */
    function MarkdownStyled(cells: seq<Cell>): (r: Pass)
      ensures r.Done? ==> |r.cells| <= |cells|
    {
      StyledBlocks(cells, parse(Text(cells)).children)
    }

    // ---- Setting up styles ----

    method ApplyHeadingStyle(level: nat, rawHeadingText: string, t: MutableAttributedString)
      modifies t
      ensures t.cells == StyledHeading(old(t.cells), level, rawHeadingText)
    {
      var markdownPrefix := Repeat('#', level) + " ";
      var found := FindFirst(t.String(), markdownPrefix + rawHeadingText);
      if found.Some? {
        var at := found.value;
        t.ReplaceCharacters(at, |markdownPrefix + rawHeadingText|, rawHeadingText);
        var ok := t.AddAttributes(HeadingUpdate(level), at, |rawHeadingText|);
      }
    }

    /** `at` and `n` locate the occurrence the caller found. */
    method ApplyBoldFormatting(text: string, markdown: string, t: MutableAttributedString, at: nat, n: nat)
      requires at + n <= |t.cells|
      modifies t
      ensures t.cells == AddAttrs(ReplaceCells(old(t.cells), at, n, text), at, |text|, BoldUpdate)
    {
      t.ReplaceCharacters(at, n, text);
      var ok := t.AddAttributes(BoldUpdate, at, |text|);
    }

    method ApplyItalicFormatting(text: string, markdown: string, t: MutableAttributedString, at: nat, n: nat)
      requires at + n <= |t.cells|
      modifies t
      ensures t.cells == AddAttrs(ReplaceCells(old(t.cells), at, n, text), at, |text|, ItalicUpdate)
    {
      t.ReplaceCharacters(at, n, text);
      var ok := t.AddAttributes(ItalicUpdate, at, |text|);
    }

    method ApplyBoldItalicFormatting(text: string, markdown: string, t: MutableAttributedString)
      requires |markdown| == 3
      modifies t
      ensures t.cells == StyledBoldItalicWith(old(t.cells), markdown, text)
    {
      var literal := markdown + text + markdown;
      var found := FindFirst(t.String(), literal);
      if found.Some? {
        var at := found.value;
        t.ReplaceCharacters(at, |literal|, text);
        var ok := t.AddAttributes(BoldItalicUpdate, at, |text|);
      }
    }

    /** `ok` is false when addAttributes raised its range exception; the
        copy then holds the replaced but unstyled text. */
    method ApplyInlineCodeFormatting(code: string, t: MutableAttributedString) returns (ok: bool)
      modifies t
      ensures StyledInlineCode(old(t.cells), code) == if ok then Done(t.cells) else OutOfBounds
      ensures !ok ==> FindFirst(Text(old(t.cells)), code).Some?
                      && t.cells == ReplaceCells(old(t.cells), FindFirst(Text(old(t.cells)), code).value,
                                                 |code|, DropEnds(code))
    {
      ok := true;
      var found := FindFirst(t.String(), code);
      if found.Some? {
        var at := found.value;
        t.ReplaceCharacters(at, |code|, DropEnds(code));
        ok := t.AddAttributes(InlineCodeUpdate, at, |code|);
      }
    }

    method ApplyStrikethroughFormatting(p: string, t: MutableAttributedString) returns (ok: bool)
      modifies t
      ensures StyledStrikethrough(old(t.cells), p) == if ok then Done(t.cells) else OutOfBounds
      ensures !ok ==> FindFirst(Text(old(t.cells)), Delimited("~", p)).Some?
                      && t.cells == ReplaceCells(old(t.cells), FindFirst(Text(old(t.cells)), Delimited("~", p)).value,
                                                 |p| + 2, DropEnds(p))
    {
      ok := true;
      var literal := "~" + p + "~";
      var found := FindFirst(t.String(), literal);
      if found.Some? {
        var at := found.value;
        t.ReplaceCharacters(at, |literal|, DropEnds(p));
        ok := t.AddAttributes(StrikethroughUpdate, at, |p|);
      }
    }

    method ApplyLinkFormatting(linkText: string, destination: Option<string>, urlValid: bool,
                               t: MutableAttributedString)
      modifies t
      ensures t.cells == StyledLink(old(t.cells), linkText, destination, urlValid)
    {
      var markdownLink := "[" + linkText + "](" + Destination(destination) + ")";
      assert markdownLink == LinkLiteral(linkText, destination);
      var found := FindFirst(t.String(), markdownLink);
      if found.Some? {
        var at := found.value;
        StyleFirstFound(t.cells, markdownLink, linkText, LinkUpdate(destination, urlValid), at);
        t.ReplaceCharacters(at, |markdownLink|, linkText);
        var ok := t.AddAttributes(LinkUpdate(destination, urlValid), at, |linkText|);
      }
    }

    // ---- Walking the document ----

    /** A Strong node: `**p**` first, `__p__` only when that is absent. */
    method ProcessStrong(p: string, t: MutableAttributedString)
      modifies t
      ensures t.cells == StyledStrong(old(t.cells), p)
    {
      var found := FindFirst(t.String(), Delimited("**", p));
      if found.Some? {
        StyleFirstFound(t.cells, Delimited("**", p), p, BoldUpdate, found.value);
        ApplyBoldFormatting(p, "**", t, found.value, |p| + 4);
      } else {
        found := FindFirst(t.String(), Delimited("__", p));
        if found.Some? {
          StyleFirstFound(t.cells, Delimited("__", p), p, BoldUpdate, found.value);
          ApplyBoldFormatting(p, "__", t, found.value, |p| + 4);
        }
      }
    }

    /** A child that is not Strong: the emphasis' own text, `_p_` first,
        `*p*` only when that is absent. */
    method ProcessItalic(p: string, t: MutableAttributedString)
      modifies t
      ensures t.cells == StyledItalic(old(t.cells), p)
    {
      var found := FindFirst(t.String(), Delimited("_", p));
      if found.Some? {
        StyleFirstFound(t.cells, Delimited("_", p), p, ItalicUpdate, found.value);
        ApplyItalicFormatting(p, "_", t, found.value, |p| + 2);
      } else {
        found := FindFirst(t.String(), Delimited("*", p));
        if found.Some? {
          StyleFirstFound(t.cells, Delimited("*", p), p, ItalicUpdate, found.value);
          ApplyItalicFormatting(p, "*", t, found.value, |p| + 2);
        }
      }
    }

    /** An Emphasis node, child by child. */
    method ProcessEmphasis(p: string, children: seq<Inline>, t: MutableAttributedString)
      modifies t
      ensures t.cells == StyledEmphasisChildren(old(t.cells), p, children)
    {
      for j := 0 to |children|
        invariant StyledEmphasisChildren(old(t.cells), p, children) == StyledEmphasisChildren(t.cells, p, children[j..])
      {
        assert children[j..][1..] == children[j + 1..];
        match children[j] {
          case Strong(q) =>
            ApplyBoldItalicFormatting(q, "***", t);
            ApplyBoldItalicFormatting(q, "___", t);
          case _ =>
            ProcessItalic(p, t);
        }
      }
      assert children[|children|..] == [];
    }

    /** One inline node. */
    method ProcessInline(x: Inline, t: MutableAttributedString) returns (ok: bool)
      modifies t
      ensures StyledInline(old(t.cells), x) == if ok then Done(t.cells) else OutOfBounds
    {
      ok := true;
      match x
      case Strong(p) =>
        ProcessStrong(p, t);
      case Emphasis(p, children) =>
        ProcessEmphasis(p, children, t);
      case Link(linkText, destination, urlValid) =>
        ApplyLinkFormatting(linkText, destination, urlValid, t);
      case InlineCode(p) =>
        ok := ApplyInlineCodeFormatting(p, t);
      case Strikethrough(p) =>
        ok := ApplyStrikethroughFormatting(p, t);
      case OtherInline =>
    }

    /** A paragraph's inline children, in order, until the first range
        exception. */
    method ProcessMarkdownInline(inlines: seq<Inline>, t: MutableAttributedString) returns (ok: bool)
      modifies t
      ensures StyledInlines(old(t.cells), inlines) == if ok then Done(t.cells) else OutOfBounds
    {
      ok := true;
      var i := 0;
      while i < |inlines|
        invariant 0 <= i <= |inlines|
        invariant StyledInlines(old(t.cells), inlines) == StyledInlines(t.cells, inlines[i..])
      {
        assert inlines[i..][1..] == inlines[i + 1..];
        ok := ProcessInline(inlines[i], t);
        if !ok {
          return;
        }
        i := i + 1;
      }
    }

    /** The blocks, in order, until the first range exception; the items of
        a list are processed one after the other, each as blocks of its
        own. */
    method ProcessMarkdownBlock(blocks: seq<Block>, t: MutableAttributedString) returns (ok: bool)
      modifies t
      ensures StyledBlocks(old(t.cells), blocks) == if ok then Done(t.cells) else OutOfBounds
      decreases blocks, 1
    {
      ok := true;
      var i := 0;
      while i < |blocks|
        invariant 0 <= i <= |blocks|
        invariant StyledBlocks(old(t.cells), blocks) == StyledBlocks(t.cells, blocks[i..])
      {
        assert blocks[i..][1..] == blocks[i + 1..];
        match blocks[i] {
          case Heading(level, text) =>
            ApplyHeadingStyle(level, text, t);
          case Paragraph(xs) =>
            ok := ProcessMarkdownInline(xs, t);
          case UnorderedList(items) =>
            ok := ProcessListItems(items, t, blocks, i);
          case OrderedList(items) =>
            ok := ProcessListItems(items, t, blocks, i);
          case OtherBlock =>
        }
        if !ok {
          return;
        }
        i := i + 1;
      }
    }

    /** The list-item loop of processMarkdownBlock; `blocks[i]` is the list
        the items belong to. */
    method ProcessListItems(items: seq<ListItem>, t: MutableAttributedString,
                            ghost blocks: seq<Block>, ghost i: nat) returns (ok: bool)
      requires i < |blocks| && (blocks[i].UnorderedList? || blocks[i].OrderedList?)
      requires items == blocks[i].listItems
      modifies t
      ensures StyledListItems(old(t.cells), items) == if ok then Done(t.cells) else OutOfBounds
      decreases blocks, 0
    {
      ok := true;
      var j := 0;
      while j < |items|
        invariant 0 <= j <= |items|
        invariant StyledListItems(old(t.cells), items) == StyledListItems(t.cells, items[j..])
      {
        assert items[j..][1..] == items[j + 1..];
        assert items[j] in blocks[i].listItems;
        ok := ProcessMarkdownBlock(items[j].children, t);
        if !ok {
          return;
        }
        j := j + 1;
      }
    }

    /** Style a mutable copy of the view's attributed text and put it back;
        when addAttributes raises, the view keeps its old text. */
    method ApplyMarkdownStyles(textView: TextView) returns (ok: bool)
      modifies textView`attributedText
      ensures MarkdownStyled(old(textView.attributedText)) ==
                if ok then Done(textView.attributedText) else OutOfBounds
      ensures !ok ==> textView.attributedText == old(textView.attributedText)
    {
      var attributedText := new MutableAttributedString(textView.attributedText);
      var document := parse(attributedText.String());
      ok := ProcessMarkdownBlock(document.children, attributedText);
      if ok {
        textView.attributedText := attributedText.cells;
      }
    }

    // ---- Typing ----

    /** A typed line break: the continuation chosen from the trimmed line
        containing the break replaces the selection, the cursor moves behind
        it, and the whole text is restyled. When the line matched the
        numbered-list pattern but its number did not parse, nothing is
        inserted and the cursor stays, yet the text is still restyled. */
    method HandleNewLine(textView: TextView, range: NSRange) returns (ok: bool)
      requires RangeWithin(range, textView.attributedText)
      modifies textView
      ensures var cont := NewLineContinuation(CurrentLine(Text(old(textView.attributedText)), range.location));
              var inserted := if cont.Insert? then ReplaceCells(old(textView.attributedText), range.location,
                                                                range.length, cont.text)
                              else old(textView.attributedText);
              && MarkdownStyled(inserted) == (if ok then Done(textView.attributedText) else OutOfBounds)
              && (!ok ==> textView.attributedText == inserted)
              && textView.selectedRange == if cont.Insert? then NSRange(range.location + |cont.text|, 0)
                                           else old(textView.selectedRange)
    {
      var currentText := textView.Text();
      var previousLine := CurrentLine(currentText, range.location);
      match NewLineContinuation(previousLine) {
        case Insert(newText) =>
          textView.attributedText := ReplaceCells(textView.attributedText, range.location, range.length, newText);
          textView.selectedRange := NSRange(range.location + |newText|, 0);
        case NoInsertion =>
      }
      ok := ApplyMarkdownStyles(textView);
    }

    /** The text-change delegate: a line break and a space are handled here
        and refused to the view (`allow` is false); any other replacement is
        left to the view. The space is inserted with the plain attributes of
        PlainSpace, not those of its neighbours, and the plain text is handed
        to the owner. */
    method ShouldChangeTextIn(textView: TextView, range: NSRange, text: string) returns (allow: bool, ok: bool)
      requires RangeWithin(range, textView.attributedText)
      modifies this, textView
      ensures allow <==> text != "\n" && text != " "
      ensures text == "\n" ==>
                var cont := NewLineContinuation(CurrentLine(Text(old(textView.attributedText)), range.location));
                var inserted := if cont.Insert? then ReplaceCells(old(textView.attributedText), range.location,
                                                                  range.length, cont.text)
                                else old(textView.attributedText);
                && MarkdownStyled(inserted) == (if ok then Done(textView.attributedText) else OutOfBounds)
                && (!ok ==> textView.attributedText == inserted)
                && textView.selectedRange == (if cont.Insert? then NSRange(range.location + |cont.text|, 0)
                                              else old(textView.selectedRange))
                && parentText == old(parentText)
      ensures text == " " ==>
                && ok
                && textView.attributedText == SpliceCells(old(textView.attributedText), range.location,
                                                          range.length, [PlainSpace])
                && textView.selectedRange == NSRange(range.location + 1, 0)
                && parentText == Text(textView.attributedText)
      ensures allow ==> ok && unchanged(this, textView)
    {
      if text == "\n" {
        ok := HandleNewLine(textView, range);
        allow := false;
      } else if text == " " {
        var mutableAttributedString := new MutableAttributedString(textView.attributedText);
        mutableAttributedString.cells := SpliceCells(mutableAttributedString.cells, range.location,
                                                     range.length, [PlainSpace]);
        textView.attributedText := mutableAttributedString.cells;
        textView.selectedRange := NSRange(range.location + 1, 0);
        parentText := textView.Text();
        ok := true;
        allow := false;
      } else {
        ok := true;
        allow := true;
      }
    }
  }

  /** updateUIView: restyle the view and move the cursor back by as many
      characters as the restyle removed, with an empty selection. Styling
      never lengthens the text, so the cursor never moves forward; it can
      move before the start when the removed markup followed the cursor. */
  method UpdateUIView(uiView: TextView, coordinator: Coordinator) returns (ok: bool)
    modifies uiView
    ensures coordinator.MarkdownStyled(old(uiView.attributedText)) ==
              if ok then Done(uiView.attributedText) else OutOfBounds
    ensures !ok ==> uiView.attributedText == old(uiView.attributedText)
    ensures uiView.selectedRange ==
              NSRange(old(uiView.selectedRange.location)
                      - (|old(uiView.attributedText)| - |uiView.attributedText|), 0)
    ensures uiView.selectedRange.location <= old(uiView.selectedRange.location)
  {
    var selectedRange := uiView.selectedRange;
    var oldLenText := |uiView.Text()|;
    ok := coordinator.ApplyMarkdownStyles(uiView);
    var newLenText := |uiView.Text()|;
    var correctedRange := NSRange(selectedRange.location - (oldLenText - newLenText), 0);
    uiView.selectedRange := correctedRange;
  }

  /** Styling a text whose document holds no inline code and no
      strikethrough always succeeds, so the view takes the styled text. */
  lemma SafeDocumentIsStyled(coordinator: Coordinator, cells: seq<Cell>)
    requires SafeBlocks(coordinator.parse(Text(cells)).children)
    ensures coordinator.MarkdownStyled(cells).Done?
    ensures |coordinator.MarkdownStyled(cells).cells| <= |cells|
  {
    SafeBlocksSucceed(cells, coordinator.parse(Text(cells)).children);
  }

  /** The typed space changes the plain text exactly as an ordinary
      replacement by " " would; only the new character's attributes differ:
      it gets PlainSpace's instead of inheriting its neighbour's. */
  lemma SpaceIsPlainReplacement(cells: seq<Cell>, at: nat, n: nat)
    requires at + n <= |cells|
    ensures Text(SpliceCells(cells, at, n, [PlainSpace])) == Text(ReplaceCells(cells, at, n, " "))
    ensures Text(SpliceCells(cells, at, n, [PlainSpace])) == Text(cells)[..at] + " " + Text(cells)[at + n..]
    ensures SpliceCells(cells, at, n, [PlainSpace])[at].attrs == PlainSpace.attrs
    ensures ReplaceCells(cells, at, n, " ")[at].attrs == InheritedAttrs(cells, at, n)
  {
    assert Text([PlainSpace]) == " ";
  }
}
