// The reverse direction: the attributed text, enumerated run by run, is
// turned back into markdown. Each run contributes the one form chosen by the
// first predicate that holds of its attributes: heading, bold-italic, bold,
// italic, link, strikethrough, Courier, plain text.

module Export {
  import opened Attributes
  import opened AttributedText
  import opened Styling

  /** MarkdownEditorController.fontSizeView: the size heading levels are
      decoded against. */
  const ExportFontSize: int := 24

  /** A maximal stretch of characters sharing one attribute set, as
      enumerateAttributes reports it. */
  datatype Run = Run(text: string, attrs: Attrs)

  /** The characters a sequence of runs stands for. */
  function Expand(rs: seq<Run>): seq<Cell> {
    if rs == [] then [] else Paint(rs[0].text, rs[0].attrs) + Expand(rs[1..])
  }

  /** How many characters from the start of `cells` carry the attributes `a`. */
  function SameAttrsPrefix(cells: seq<Cell>, a: Attrs): (n: nat)
    ensures n <= |cells|
    ensures forall k :: 0 <= k < n ==> cells[k].attrs == a
    ensures n == |cells| || cells[n].attrs != a
  {
    if cells != [] && cells[0].attrs == a then 1 + SameAttrsPrefix(cells[1..], a) else 0
  }

  /** The attribute runs of an attributed string: together they are exactly
      the string, none is empty, and neighbouring runs differ. */
  function Runs(cells: seq<Cell>): (rs: seq<Run>)
    ensures Expand(rs) == cells
    ensures forall k :: 0 <= k < |rs| ==> rs[k].text != []
    ensures forall k :: 0 <= k < |rs| - 1 ==> rs[k].attrs != rs[k + 1].attrs
    ensures rs != [] <==> cells != []
    ensures rs != [] ==> rs[0].attrs == cells[0].attrs
    decreases |cells|
  {
    if cells == [] then []
    else
      var a := cells[0].attrs;
      var n := 1 + SameAttrsPrefix(cells[1..], a);
      assert forall k :: 1 <= k < n ==> cells[k] == cells[1..][k - 1];
      assert n < |cells| ==> cells[n] == cells[1..][n - 1];
      var rest := Runs(cells[n..]);
      PaintOfUniform(cells[..n], a);
      RunsCons(cells, n, rest);
      ConsRun(Run(Text(cells[..n]), a), rest);
      [Run(Text(cells[..n]), a)] + rest
  }

  /** The first `n` characters of `cells`, all carrying the attributes of the
      first, followed by the runs of the remainder expand back to `cells`. */
  lemma RunsCons(cells: seq<Cell>, n: nat, rest: seq<Run>)
    requires 0 < n <= |cells|
    requires Paint(Text(cells[..n]), cells[0].attrs) == cells[..n]
    requires Expand(rest) == cells[n..]
    ensures Expand([Run(Text(cells[..n]), cells[0].attrs)] + rest) == cells
  {
    var rs := [Run(Text(cells[..n]), cells[0].attrs)] + rest;
    assert rs[1..] == rest;
    assert Expand(rs) == cells[..n] + Expand(rest);
    assert cells[..n] + cells[n..] == cells;
  }

  /** Putting a non-empty run with new attributes in front of well-formed
      runs keeps them well-formed. */
  lemma ConsRun(r: Run, rest: seq<Run>)
    requires r.text != []
    requires forall k :: 0 <= k < |rest| ==> rest[k].text != []
    requires forall k :: 0 <= k < |rest| - 1 ==> rest[k].attrs != rest[k + 1].attrs
    requires rest != [] ==> rest[0].attrs != r.attrs
    ensures ([r] + rest)[1..] == rest
    ensures forall k :: 0 <= k < |[r] + rest| ==> ([r] + rest)[k].text != []
    ensures forall k :: 0 <= k < |[r] + rest| - 1 ==> ([r] + rest)[k].attrs != ([r] + rest)[k + 1].attrs
  {
    var rs := [r] + rest;
    assert rs[1..] == rest;
    forall k | 0 <= k < |rs| - 1
      ensures rs[k].attrs != rs[k + 1].attrs
    {
      if k > 0 {
        assert rs[k] == rest[k - 1] && rs[k + 1] == rest[k];
      }
    }
  }

  /** A stretch whose characters all carry `a` is `a` painted over its text. */
  lemma PaintOfUniform(cells: seq<Cell>, a: Attrs)
    requires forall k :: 0 <= k < |cells| ==> cells[k].attrs == a
    ensures Paint(Text(cells), a) == cells
  {
  }

  predicate IsBold(a: Attrs) { a.font.Some? && a.font.value.bold }
  predicate IsItalic(a: Attrs) { a.font.Some? && a.font.value.italic }
  predicate IsCourier(a: Attrs) { a.font.Some? && a.font.value.courier }
  predicate IsUrl(a: Attrs) { a.link.Some? && a.link.value.Url? }

  /** The heading level a bold point size stands for, if any. */
  function HeadingLevel(size: int): (r: Option<nat>)
    ensures r.Some? ==> 1 <= r.value <= 6 && size == ExportFontSize + 2 * (6 - r.value)
  {
    if size == ExportFontSize + 10 then Some(1)
    else if size == ExportFontSize + 8 then Some(2)
    else if size == ExportFontSize + 6 then Some(3)
    else if size == ExportFontSize + 4 then Some(4)
    else if size == ExportFontSize + 2 then Some(5)
    else if size == ExportFontSize then Some(6)
    else None
  }

  /** `dropLast(2)` */
  function DropLast2(s: string): (r: string)
    ensures |s| >= 2 ==> r == s[..|s| - 2]
    ensures |s| < 2 ==> r == []
  {
    if |s| >= 2 then s[..|s| - 2] else []
  }

  /** The markdown one run contributes. A bold run of at least the base
      size takes the heading case even when its size is no heading size; it
      then contributes nothing. */
  function EmitRun(r: Run): string {
    var t := r.text;
    var a := r.attrs;
    if IsBold(a) && a.font.value.size >= ExportFontSize then
      match HeadingLevel(a.font.value.size)
      case Some(level) => Repeat('#', level) + " " + t
      case None => ""
    else if IsBold(a) && IsItalic(a) then "***" + t + "***"
    else if IsBold(a) then "**" + t + "**"
    else if IsItalic(a) then "_" + t + "_"
    else if IsUrl(a) then "[" + t + "](" + a.link.value.absoluteString + ")"
    else if a.strike then "~~" + DropLast2(t) + "~~"
    else if IsCourier(a) then "`" + DropLast2(t) + "`"
    else t
  }

  /** The runs' contributions, appended in order. */
  function Emit(rs: seq<Run>): string {
    if rs == [] then "" else Emit(rs[..|rs| - 1]) + EmitRun(rs[|rs| - 1])
  }

  class MarkdownEditorController {
    var textView: TextView?

    constructor ()
      ensures textView == null
    {
      textView := null;
    }

    method SetTextView(textView: TextView)
      modifies this
      ensures this.textView == textView
    {
      this.textView := textView;
    }

    /** The markdown of the attached view, or of an empty view when none is
        attached. */
    method GetCurrentText() returns (markdown: string)
      ensures textView == null ==> markdown == ""
      ensures textView != null ==> markdown == Emit(Runs(textView.attributedText))
    {
      if textView == null {
        var empty := new TextView("");
        markdown := ConvertAttributedTextToMarkdown(empty);
      } else {
        markdown := ConvertAttributedTextToMarkdown(textView);
      }
    }

    method ConvertAttributedTextToMarkdown(textView: TextView) returns (markdownText: string)
      ensures markdownText == Emit(Runs(textView.attributedText))
    {
      var runs := Runs(textView.attributedText);
      markdownText := "";
      for i := 0 to |runs|
        invariant markdownText == Emit(runs[..i])
      {
        assert runs[..i + 1][..i] == runs[..i];
        markdownText := markdownText + EmitRun(runs[i]);
      }
      assert runs[..|runs|] == runs;
    }
  }

  // ---- Heading sizes: the forward encoding and the reverse decoding ----

  /** A bold point size decodes to level L exactly when it is 24 + 2*(6 - L),
      which is the size 2*18 - 2*L the forward side gives a level-L heading. */
  lemma HeadingLevelDecodes(size: int, level: nat)
    requires 1 <= level <= 6
    ensures HeadingLevel(size) == Some(level) <==> size == ExportFontSize + 2 * (6 - level)
    ensures ExportFontSize + 2 * (6 - level) == FontSizeView * 2 - level * 2
  {
  }

  lemma HeadingLevelRange(size: int)
    ensures HeadingLevel(size).Some? ==> 1 <= HeadingLevel(size).value <= 6
    ensures HeadingLevel(size).Some? <==>
              ExportFontSize <= size <= ExportFontSize + 10 && (size - ExportFontSize) % 2 == 0
  {
  }

  /** A run styled as a level-L heading is written back as exactly the
      literal the forward side looked for. */
  lemma HeadingRoundTrip(t: string, a: Attrs, level: nat)
    requires 1 <= level <= 6
    ensures EmitRun(Run(t, Overlay(a, HeadingUpdate(level)))) == HeadingLiteral(level, t)
  {
  }

  /** A bold run of at least the base size that is not a heading size takes
      the heading case and contributes nothing. */
  lemma UnlistedHeadingSizeEmitsNothing(t: string, a: Attrs)
    requires IsBold(a) && a.font.value.size >= ExportFontSize
    requires a.font.value.size > ExportFontSize + 10 || (a.font.value.size - ExportFontSize) % 2 == 1
    ensures EmitRun(Run(t, a)) == ""
  {
  }

  // ---- First match wins ----

  /** Bold and italic together are written as `***t***`, never as nested
      `**` and `_`, whatever link, strikethrough or font name the run has. */
  lemma BoldItalicTakesPrecedence(t: string, a: Attrs)
    requires IsBold(a) && IsItalic(a) && a.font.value.size < ExportFontSize
    ensures EmitRun(Run(t, a)) == Delimited("***", t)
  {
  }

  lemma BoldBeforeOthers(t: string, a: Attrs)
    requires IsBold(a) && !IsItalic(a) && a.font.value.size < ExportFontSize
    ensures EmitRun(Run(t, a)) == Delimited("**", t)
  {
  }

  lemma ItalicBeforeOthers(t: string, a: Attrs)
    requires !IsBold(a) && IsItalic(a)
    ensures EmitRun(Run(t, a)) == Delimited("_", t)
  {
  }

  /** A URL is written as a link only when the font is neither bold nor
      italic, and then before strikethrough and Courier. */
  lemma LinkBeforeStrikethroughAndCode(t: string, a: Attrs)
    requires !IsBold(a) && !IsItalic(a) && IsUrl(a)
    ensures EmitRun(Run(t, a)) == "[" + t + "](" + a.link.value.absoluteString + ")"
  {
  }

  /** Strikethrough and Courier runs lose their last two characters. */
  lemma StrikethroughDropsTwo(t: string, a: Attrs)
    requires !IsBold(a) && !IsItalic(a) && !IsUrl(a) && a.strike
    ensures EmitRun(Run(t, a)) == "~~" + DropLast2(t) + "~~"
  {
  }

  lemma CourierDropsTwo(t: string, a: Attrs)
    requires !IsBold(a) && !IsItalic(a) && !IsUrl(a) && !a.strike && IsCourier(a)
    ensures EmitRun(Run(t, a)) == "`" + DropLast2(t) + "`"
  {
  }

  lemma PlainRunUnchanged(t: string, a: Attrs)
    requires !IsBold(a) && !IsItalic(a) && !IsUrl(a) && !a.strike && !IsCourier(a)
    ensures EmitRun(Run(t, a)) == t
  {
  }

  // ---- What the forward side produces is written back as its literal ----

  lemma StrongRoundTrip(t: string, a: Attrs)
    ensures EmitRun(Run(t, Overlay(a, BoldUpdate))) == Delimited("**", t)
  {
  }

  lemma BoldItalicRoundTrip(t: string, a: Attrs)
    ensures EmitRun(Run(t, Overlay(a, BoldItalicUpdate))) == Delimited("***", t)
  {
  }

  /** Emphasis is always written with underscores, whichever marker it was
      read from. */
  lemma ItalicRoundTrip(t: string, a: Attrs)
    ensures EmitRun(Run(t, Overlay(a, ItalicUpdate))) == Delimited("_", t)
  {
  }

  lemma LinkRoundTrip(t: string, a: Attrs, destination: Option<string>)
    ensures EmitRun(Run(t, Overlay(a, LinkUpdate(destination, true)))) == LinkLiteral(t, destination)
  {
  }

  /** A link whose destination is not a URL is not written as a link. */
  lemma InvalidLinkNotWritten(t: string, a: Attrs, destination: Option<string>)
    ensures EmitRun(Run(t, Overlay(a, LinkUpdate(destination, false)))) ==
              if a.strike then "~~" + DropLast2(t) + "~~" else t
  {
  }

  /** The inline-code attributes cover the code and the two characters after
      it; dropping the run's last two characters writes back the literal
      code span (the two characters are lost). */
  lemma InlineCodeRoundTrip(code: string, x: char, y: char, a: Attrs)
    requires !IsUrl(a) && !a.strike
    ensures EmitRun(Run(code + [x, y], Overlay(a, InlineCodeUpdate))) == "`" + code + "`"
  {
    assert (code + [x, y])[..|code|] == code;
  }

  lemma StrikethroughRoundTrip(t: string, x: char, y: char, a: Attrs)
    requires !IsUrl(a)
    ensures EmitRun(Run(t + [x, y], Overlay(a, StrikethroughUpdate))) == "~~" + t + "~~"
  {
    assert (t + [x, y])[..|t|] == t;
  }

  // ---- Whole strings ----

  /** One run is written as its own form. */
  lemma EmitSingle(r: Run)
    ensures Emit([r]) == EmitRun(r)
  {
    assert [r][..0] == [];
  }

  lemma {:induction false} SameAttrsPrefixOfPaint(t: string, a: Attrs)
    ensures SameAttrsPrefix(Paint(t, a), a) == |t|
  {
    if t != [] {
      assert Paint(t, a)[1..] == Paint(t[1..], a);
      SameAttrsPrefixOfPaint(t[1..], a);
    }
  }

  /** A non-empty string whose characters all carry the same attributes is
      one run. */
  lemma PaintIsOneRun(t: string, a: Attrs)
    requires t != []
    ensures |Runs(Paint(t, a))| == 1 && Runs(Paint(t, a))[0] == Run(t, a)
  {
    var cells := Paint(t, a);
    SameAttrsPrefixOfPaint(t[1..], a);
    assert cells[1..] == Paint(t[1..], a);
    assert cells[..|cells|] == cells;
    assert cells[|cells|..] == [];
    TextOfPaint(t, a);
  }

  /** Such a string is written as that run's one form. */
  lemma PaintEmitsOneForm(t: string, a: Attrs)
    requires t != []
    ensures Emit(Runs(Paint(t, a))) == EmitRun(Run(t, a))
  {
    PaintIsOneRun(t, a);
    assert Runs(Paint(t, a)) == [Run(t, a)];
    EmitSingle(Run(t, a));
  }

  lemma {:induction false} SameAttrsPrefixOfPaintThen(t: string, a: Attrs, rest: seq<Cell>)
    requires rest == [] || rest[0].attrs != a
    ensures SameAttrsPrefix(Paint(t, a) + rest, a) == |t|
  {
    if t != [] {
      assert (Paint(t, a) + rest)[1..] == Paint(t[1..], a) + rest;
      SameAttrsPrefixOfPaintThen(t[1..], a, rest);
    } else {
      assert Paint(t, a) + rest == rest;
    }
  }

  /** A stretch painted with attributes its successor does not carry is a
      run of its own, ahead of the runs of the rest. */
  lemma RunsOfPaintThen(t: string, a: Attrs, rest: seq<Cell>)
    requires t != []
    requires rest == [] || rest[0].attrs != a
    ensures Runs(Paint(t, a) + rest) == [Run(t, a)] + Runs(rest)
  {
    var cells := Paint(t, a) + rest;
    assert cells[1..] == Paint(t[1..], a) + rest;
    SameAttrsPrefixOfPaintThen(t[1..], a, rest);
    assert cells[..|t|] == Paint(t, a);
    assert cells[|t|..] == rest;
    TextOfPaint(t, a);
  }

  /** The markdown of runs one after the other is the markdown of each,
      concatenated. */
  lemma {:induction false} EmitAppend(xs: seq<Run>, ys: seq<Run>)
    ensures Emit(xs + ys) == Emit(xs) + Emit(ys)
    decreases |ys|
  {
    if ys == [] {
      assert xs + ys == xs;
    } else {
      var init := ys[..|ys| - 1];
      var last := ys[|ys| - 1];
      assert ys == init + [last];
      assert xs + ys == (xs + init) + [last];
      calc {
        Emit(xs + ys);
        { EmitSnoc(xs + init, last); }
        Emit(xs + init) + EmitRun(last);
        { EmitAppend(xs, init); }
        Emit(xs) + Emit(init) + EmitRun(last);
        { ConcatAssoc(Emit(xs), Emit(init), EmitRun(last)); }
        Emit(xs) + (Emit(init) + EmitRun(last));
        { EmitSnoc(init, last); }
        Emit(xs) + Emit(ys);
      }
    }
  }

  lemma ConcatAssoc(a: string, b: string, c: string)
    ensures a + b + c == a + (b + c)
  {
  }

  lemma EmitSnoc(rs: seq<Run>, r: Run)
    ensures Emit(rs + [r]) == Emit(rs) + EmitRun(r)
  {
    assert (rs + [r])[..|rs|] == rs;
  }

  /** A text styled stretch by stretch, each stretch with attributes of its
      own, is written back stretch by stretch: the first stretch's form,
      then the markdown of the rest. */
  lemma PaintThenEmits(t: string, a: Attrs, rest: seq<Cell>)
    requires t != []
    requires rest == [] || rest[0].attrs != a
    ensures Emit(Runs(Paint(t, a) + rest)) == EmitRun(Run(t, a)) + Emit(Runs(rest))
  {
    RunsOfPaintThen(t, a, rest);
    EmitAppend([Run(t, a)], Runs(rest));
    EmitSingle(Run(t, a));
  }

  /** For instance bold text followed by italic text, as "**p**" and then
      "_q_" are styled, is written back as "**p**_q_". */
  lemma StrongThenItalicRoundTrip(p: string, q: string, base: Attrs)
    requires p != [] && q != []
    ensures Emit(Runs(Paint(p, Overlay(base, BoldUpdate)) + Paint(q, Overlay(base, ItalicUpdate))))
            == Delimited("**", p) + Delimited("_", q)
  {
    PaintThenEmits(p, Overlay(base, BoldUpdate), Paint(q, Overlay(base, ItalicUpdate)));
    PaintEmitsOneForm(q, Overlay(base, ItalicUpdate));
    StrongRoundTrip(p, base);
    ItalicRoundTrip(q, base);
  }

  /** In particular a whole text styled as one heading is written back as
      the heading's literal. */
  lemma HeadingTextRoundTrip(t: string, base: Attrs, level: nat)
    requires t != [] && 1 <= level <= 6
    ensures Emit(Runs(Paint(t, Overlay(base, HeadingUpdate(level))))) == HeadingLiteral(level, t)
  {
    PaintEmitsOneForm(t, Overlay(base, HeadingUpdate(level)));
    HeadingRoundTrip(t, base, level);
  }

  /** A text typed in the editor's plain font is written back unchanged. */
  lemma PlainTextRoundTrip(t: string)
    ensures Emit(Runs(Paint(t, Attrs(Some(SystemFont(FontSizeView)), None, false)))) == t
  {
    if t != [] {
      PaintEmitsOneForm(t, Attrs(Some(SystemFont(FontSizeView)), None, false));
    }
  }
}
