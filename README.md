# MarkdownEditor in Dafny

This project models the editing core of MarkdownEditor, a SwiftUI/UIKit
editor that shows markdown as rich text. The model has four parts:

- **Forward styler** (module `Styling` specifies it; class `Editor.Coordinator`
  implements it). The text view's attributed text is copied and parsed. The
  document's blocks are walked in order, recursing into list items. For each
  construct, the styler rebuilds the construct's literal markdown form and
  finds its first occurrence in the current string. It replaces that
  occurrence with the bare text, then adds attributes over a range that starts
  at the match position. If the range runs past the end of the string,
  `addAttributes` raises a range exception; the pass stops there and the view
  keeps its old text. The strings are modelled as a sequence of cells (a
  character with its attributes). `NSMutableAttributedString` is a class with
  `ReplaceCharacters` and `AddAttributes` methods (module `AttributedText`).
- **Reverse emitter** (module `Export`). The attributed text is enumerated run
  by run. Each run contributes the one markdown form chosen by the first
  matching test, in this order: heading (bold, size at least 24, decoded
  against base size 24), bold-italic, bold, italic, URL link, strikethrough,
  Courier, plain.
- **List continuation** (module `ListContinuation`). A typed line break looks
  at the trimmed line that contains it. If the line starts with `-`, the
  editor inserts `"\n- "`. If it matches `^\d+\.\s` and the number parses, it
  inserts the next number. If it matches but the number does not parse, it
  inserts nothing. Otherwise it inserts a plain line break. Then the cursor
  moves and the text is restyled.
- **Edit rules** (module `Editor`). A typed space is inserted with a plain
  18-point font instead of inheriting its neighbour's attributes. After a
  restyle, the cursor is moved back by as many characters as the restyle
  removed.

The swift-markdown parser is not part of this model. Its output arrives as a
`Markup.Document` value, produced by the function `Coordinator.parse`.
Whether a link destination parses as a URL arrives as a flag on the `Link`
node. In swift-markdown, the plain text of inline code and of strikethrough
keeps one delimiter character on each side. The code relies on this when it
calls `dropFirst().dropLast()`.

Each forward construct states what it does to the attributed string in two
ways:

- `Styling.Restyled` says which characters change and what attributes they
  get.
- `AttributedText.ReplaceFirst` is the plain-string reference the new text is
  proved equal to.

The imperative methods are proved to compute these functions. Both quirks are
modelled as written:

- Inline code and strikethrough add their attributes over `plainText.count`
  characters. That is two more than the text they insert. The two characters
  after the span are restyled too, and when fewer than two characters follow
  the span, the pass raises the range exception.
- The emitter drops the last two characters of strikethrough and Courier
  runs.

## Model

| member | source | states |
|---|---|---|
| AttributedText.FindFirst | MarkdownEditor/ContentView.swift:223 | `String.range(of:)`, compared code point by code point: a result exists exactly when the pattern occurs, and it is the first index of an occurrence |
| AttributedText.ReplaceCells | MarkdownEditor/ContentView.swift:270 | replaceCharacters with a string: the text becomes prefix + new text + suffix, and the new characters inherit the first replaced character's attributes (for an empty range, the previous character's, else the next one's) |
| AttributedText.InheritedAttrs | MarkdownEditor/ContentView.swift:270 | the attributes a replacing string takes on: those of the first replaced character; for an empty range, those of the character before it, else of the one after it; no attributes at all in an empty string |
| AttributedText.SpliceCells | MarkdownEditor/ContentView.swift:148 | replacing a range by an attributed string keeps the prefix and the suffix, puts the new cells between them unchanged, and changes the plain text as a replacement by the new cells' characters would |
| AttributedText.AddAttrs | MarkdownEditor/ContentView.swift:273-279 | addAttributes: the characters stay, the update's keys overwrite the old values inside the range, and nothing outside the range changes |
| AttributedText.MutableAttributedString.ReplaceCharacters | MarkdownEditor/ContentView.swift:270 | the mutable string's new cells are the replacement above |
| AttributedText.MutableAttributedString.AddAttributes | MarkdownEditor/ContentView.swift:273-279 | it succeeds exactly when the range lies inside the string; otherwise the string is unchanged |
| AttributedText.TextView.constructor | MarkdownEditor/ContentView.swift:90-97 | a new view shows its text in the 18-point system font; its selection starting empty at 0 is a choice of this model, since the cited lines never set it |
| Styling.StyleFirst | MarkdownEditor/ContentView.swift:263-281 | one lookup-replace-style step: unchanged when the literal is absent; otherwise it succeeds exactly when the styled range fits, the result is `Restyled`, and the plain text is `ReplaceFirst` of the literal |
| Styling.StyledHeading | MarkdownEditor/ContentView.swift:263-281 | finds `#`×level + space + text; the text shrinks by level+1; nothing before the match changes; the heading text gets bold size 36 − 2·level; the text is unchanged when the literal is absent |
| Styling.StyledStrong | MarkdownEditor/ContentView.swift:222-227 | `**p**` is tried first and `__p__` only when that is absent; the text shrinks by 4; the bare text is bold 18 |
| Styling.StyledItalic | MarkdownEditor/ContentView.swift:237-243 | `_p_` is tried first and `*p*` only when that is absent; the text shrinks by 2; the bare text is italic 18 |
| Styling.StyledBoldItalicWith | MarkdownEditor/ContentView.swift:306-320 | one bold-italic marker: the text shrinks by 6, and the bare text is bold-italic 18 |
| Styling.StyledBoldItalic | MarkdownEditor/ContentView.swift:232-235 | `***` and `___` are both attempted, whatever the first attempt found: the text becomes that of replacing the first `***p***` by p and then the first `___p___` of the result by p, so it shrinks by 0, 6 or 12, and by at least 6 when `***p***` occurs |
| Styling.StyledLink | MarkdownEditor/ContentView.swift:354-371 | finds `[text](dest)`, where a missing destination is written as ""; the text shrinks by \|dest\|+4; the link key holds the URL, or a non-URL when the destination does not parse |
| Styling.StyledInlineCode | MarkdownEditor/ContentView.swift:323-337 | the literal is the plain text itself; the pass succeeds iff two characters follow the span; on success the text shrinks by 2 and the Courier range covers the two following characters |
| Styling.StyledStrikethrough | MarkdownEditor/ContentView.swift:340-352 | finds `~p~`; the pass succeeds iff two characters follow the span; on success the text shrinks by 4 and the strikethrough range covers the two following characters |
| Styling.StyledEmphasisChildren | MarkdownEditor/ContentView.swift:229-245 | the emphasis children, handled in order, never lengthen the text |
| Styling.EmphasisRetriesItalic | MarkdownEditor/ContentView.swift:237-243 | for any number of children, none of them Strong, the italic replacement of the emphasis' whole text runs once per child (`ItalicTimes`), so later occurrences of the same literal are restyled too |
| Styling.StyledInlines | MarkdownEditor/ContentView.swift:219-259 | a paragraph's inlines, in order: the text never grows, and the pass always succeeds when no inline code or strikethrough is present |
| Styling.StyledInline | MarkdownEditor/ContentView.swift:221-257 | one inline node: a successful pass never lengthens the text, and only inline code and strikethrough can fail |
| Styling.StyledBlocks | MarkdownEditor/ContentView.swift:194-217 | the blocks and the list items' blocks, in order, stopping at the first range exception: the text never grows |
| Styling.StyledBlock | MarkdownEditor/ContentView.swift:196-215 | one block, a heading, paragraph or list: a successful pass never lengthens the text |
| Styling.StyledListItems | MarkdownEditor/ContentView.swift:204-211 | a list's items, each item's blocks in order, stopping at the first range exception: a successful pass never lengthens the text |
| Styling.SafeBlocksSucceed | MarkdownEditor/ContentView.swift:194-217 | a document with no inline code or strikethrough at any list depth is styled without a range exception |
| Editor.Coordinator.ApplyHeadingStyle | MarkdownEditor/ContentView.swift:263-281 | the in-place heading step computes `StyledHeading` |
| Editor.Coordinator.ApplyBoldFormatting | MarkdownEditor/ContentView.swift:284-293 | replaces the found range with the text, then adds bold 18 over the text |
| Editor.Coordinator.ApplyItalicFormatting | MarkdownEditor/ContentView.swift:295-304 | replaces the found range with the text, then adds italic 18 over the text |
| Editor.Coordinator.ApplyBoldItalicFormatting | MarkdownEditor/ContentView.swift:306-320 | computes `StyledBoldItalicWith` |
| Editor.Coordinator.ApplyInlineCodeFormatting | MarkdownEditor/ContentView.swift:323-337 | computes `StyledInlineCode`; on the range exception, the copy holds the replaced, unstyled text |
| Editor.Coordinator.ApplyStrikethroughFormatting | MarkdownEditor/ContentView.swift:340-352 | computes `StyledStrikethrough`; on the range exception, the copy holds the replaced, unstyled text |
| Editor.Coordinator.ApplyLinkFormatting | MarkdownEditor/ContentView.swift:354-371 | computes `StyledLink` |
| Editor.Coordinator.ProcessStrong | MarkdownEditor/ContentView.swift:222-227 | the Strong case computes `StyledStrong` |
| Editor.Coordinator.ProcessItalic | MarkdownEditor/ContentView.swift:237-243 | the non-Strong emphasis child computes `StyledItalic` |
| Editor.Coordinator.ProcessEmphasis | MarkdownEditor/ContentView.swift:229-245 | the loop over the emphasis children computes `StyledEmphasisChildren` |
| Editor.Coordinator.ProcessInline | MarkdownEditor/ContentView.swift:220-257 | the switch over one inline node computes `StyledInline`, including its range exception |
| Editor.Coordinator.ProcessMarkdownInline | MarkdownEditor/ContentView.swift:219-259 | the loop over a paragraph's inlines computes `StyledInlines` |
| Editor.Coordinator.ProcessMarkdownBlock | MarkdownEditor/ContentView.swift:194-217 | the loop over the blocks computes `StyledBlocks` |
| Editor.Coordinator.ProcessListItems | MarkdownEditor/ContentView.swift:204-211 | the loop over a list's items computes `StyledListItems` |
| Editor.Coordinator.ApplyMarkdownStyles | MarkdownEditor/ContentView.swift:185-192 | the view takes the styled copy exactly when the pass succeeds; otherwise it keeps its text |
| Editor.Coordinator.MarkdownStyled | MarkdownEditor/ContentView.swift:186-189 | the restyle of the parsed current text never lengthens it when it succeeds |
| Editor.SafeDocumentIsStyled | MarkdownEditor/ContentView.swift:185-192 | with no inline code or strikethrough in the parsed document, the restyle succeeds and never lengthens the text |
| Editor.Coordinator.HandleNewLine | MarkdownEditor/ContentView.swift:159-181 | inserts the continuation chosen from the trimmed current line; the cursor moves behind it, or stays when nothing is inserted; then the text is restyled |
| Editor.Coordinator.ShouldChangeTextIn | MarkdownEditor/ContentView.swift:134-157 | a line break goes to HandleNewLine; a space replaces the selection with one plain 18-point space, puts the cursor at location + 1 and hands back the plain text; both are refused to the view, and anything else is allowed with nothing changed |
| Editor.SpaceIsPlainReplacement | MarkdownEditor/ContentView.swift:143-149 | the typed space changes the plain text exactly as a replacement by " " would; only the new character's attributes differ (plain instead of inherited) |
| Editor.UpdateUIView | MarkdownEditor/ContentView.swift:104-115 | after the restyle, the selection is empty at old location − (old length − new length), and never after the old location |
| ListContinuation.LineAt | MarkdownEditor/ContentView.swift:161 | lineRange: the slice of the text that starts at the text's start or just after a line break, holds no line break between its start and the location, and ends at the text's end or just after the first line break at or after the location |
| ListContinuation.TrimStripsBlanks | MarkdownEditor/ContentView.swift:162 | trimming `.whitespaces` leaves a contiguous slice of the line: only blanks (the tab and every Unicode space separator, U+00A0 and U+3000 included) are removed, and only at its two ends |
| ListContinuation.Trim | MarkdownEditor/ContentView.swift:162 | the trimmed string is no longer than the input and neither starts nor ends with a blank |
| ListContinuation.CurrentLine | MarkdownEditor/ContentView.swift:160-162 | the trimmed current line holds no line break except possibly its last character, and neither starts nor ends with a blank |
| ListContinuation.NumberedMarkerMatches | MarkdownEditor/ContentView.swift:168 | the match of `^\d+\.\s` is found exactly when the line starts with decimal digits of any script (`\d` is general category Nd: "0"–"9", Arabic-Indic, fullwidth, …), a dot and one character of Unicode White_Space (blanks, U+00A0 included, and line or paragraph breaks) |
| ListContinuation.NumberedMarker | MarkdownEditor/ContentView.swift:168 | a match it reports is a match of `^\d+\.\s` (the converse is NumberedMarkerMatches) |
| ListContinuation.NumberedLineContinuation | MarkdownEditor/ContentView.swift:168-174 | after a numbered marker, "\n(n+1). " is inserted iff the white space after the dot is a blank (so trimming removes it) and n is written in ASCII digits and fits an Int; otherwise (a line or paragraph break after the dot, digits of another script, which `Int(_:)` rejects, or too large a number) nothing is inserted |
| ListContinuation.OtherScriptMarker | MarkdownEditor/ContentView.swift:169-170 | a matched number with a digit of another script keeps that digit through trimming and dot removal, so `Int(_:)` does not parse it |
| ListContinuation.ArabicIndicNumberExample | MarkdownEditor/ContentView.swift:168-174 | "٣. x" matches the pattern but its number does not parse, so nothing is inserted |
| ListContinuation.NumberIncrements | MarkdownEditor/ContentView.swift:168-173 | "n" + "." + any blank (a space, a tab, U+00A0, …) + text continues with "n+1. " |
| ListContinuation.ParseIntOfNatToString | MarkdownEditor/ContentView.swift:170-171 | `Int(_:)` reads back the description of any number that fits an Int, so the number written is the one parsed plus one |
| ListContinuation.ParseInt | MarkdownEditor/ContentView.swift:170 | `Int(_:)` on the strings the pattern lets through: its round trip with the number's description is ParseIntOfNatToString; digits followed by one non-digit, as by a line break, do not parse (ParseIntDigitsThenOther), and neither do digits of another script (OtherScriptMarker) |
| ListContinuation.NatToString | MarkdownEditor/ContentView.swift:171 | the canonical decimal description of a number: a non-empty string of ASCII digits without leading zeros ("0" exactly for zero) whose decimal value is the number (DecimalOfNatToString) |
| ListContinuation.RemoveDots | MarkdownEditor/ContentView.swift:170 | no dot is left, and a string without dots is unchanged (RemoveDotsKeeps) |
| ListContinuation.NextNumber | MarkdownEditor/ContentView.swift:169-174 | whatever it inserts starts with a line break and ends with ". " |
| ListContinuation.NewLineContinuation | MarkdownEditor/ContentView.swift:164-178 | every insertion it chooses starts with a line break; its cases are stated by the bullet, numbered and plain lemmas beside it |
| ListContinuation.BulletLineContinuation | MarkdownEditor/ContentView.swift:164-167 | a line starting with "-" continues with "\n- " |
| ListContinuation.IndentedBulletContinuation | MarkdownEditor/ContentView.swift:162-167 | a "-" line indented by any blanks (U+00A0 included) still continues with "\n- ", because trimming removes the indentation first |
| ListContinuation.PlainLineContinuation | MarkdownEditor/ContentView.swift:175-178 | any other line, one that neither starts with "-" nor matches `^\d+\.\s` with Unicode `\d` and `\s`, gets a plain "\n" |
| ListContinuation.NoInsertionOnlyAfterMarker | MarkdownEditor/ContentView.swift:168-174 | nothing is inserted only for a line that matched the numbered-list pattern |
| ListContinuation.LineBreakAfterDotExample | MarkdownEditor/ContentView.swift:168-170 | "3.\n" matches the pattern, but "3\n" does not parse as an Int, so nothing is inserted |
| Export.Runs | MarkdownEditor/ContentView.swift:27 | enumerateAttributes: the runs together are exactly the string, none is empty, and neighbouring runs differ |
| Export.MarkdownEditorController.ConvertAttributedTextToMarkdown | MarkdownEditor/ContentView.swift:23-77 | the loop appending each run's form computes `Emit(Runs(text))` |
| Export.Emit | MarkdownEditor/ContentView.swift:25-76 | the markdown of a run sequence is each run's form appended in order; a single run gives exactly its own form (EmitSingle) |
| Export.EmitRun | MarkdownEditor/ContentView.swift:30-73 | the one form of a run, chosen by the first test that holds; each case is stated by the lemmas below (heading, bold-italic, bold, italic, link, strikethrough, Courier, plain) |
| Export.EmitAppend | MarkdownEditor/ContentView.swift:25-76 | the markdown of runs one after another is the markdown of each, concatenated |
| Export.RunsOfPaintThen | MarkdownEditor/ContentView.swift:27 | a stretch styled with attributes its successor does not carry is a run of its own, ahead of the runs of the rest |
| Export.PaintThenEmits | MarkdownEditor/ContentView.swift:23-77 | a text styled stretch by stretch is written back as the first stretch's form followed by the markdown of the rest |
| Export.StrongThenItalicRoundTrip | MarkdownEditor/ContentView.swift:23-77 | bold text followed by italic text is written back as `**p**_q_` |
| Export.HeadingLevel | MarkdownEditor/ContentView.swift:32-47 | a decoded level is between 1 and 6, and the size is 24 + 2·(6 − level) |
| Export.MarkdownEditorController.GetCurrentText | MarkdownEditor/ContentView.swift:19-21 | the attached view's markdown, or "" when no view is attached |
| Export.MarkdownEditorController.SetTextView | MarkdownEditor/ContentView.swift:15-17 | attaches the view |
| Export.HeadingLevelDecodes | MarkdownEditor/ContentView.swift:31-47 | a bold size decodes to level L iff it is 24 + 2·(6 − L), which equals the forward size 2·18 − 2·L |
| Export.HeadingLevelRange | MarkdownEditor/ContentView.swift:31-47 | exactly the even sizes from 24 to 34 decode, to levels 1 to 6 |
| Export.HeadingRoundTrip | MarkdownEditor/ContentView.swift:31-44 | a run styled as a level-L heading is written back as `#`×L + space + text |
| Export.HeadingTextRoundTrip | MarkdownEditor/ContentView.swift:23-77 | a whole text styled as one heading is written back as the heading's literal |
| Export.UnlistedHeadingSizeEmitsNothing | MarkdownEditor/ContentView.swift:45-46 | a bold run of size at least 24 that is not a heading size contributes nothing |
| Export.BoldItalicTakesPrecedence | MarkdownEditor/ContentView.swift:50-52 | bold plus italic below size 24 is written `***t***`, whatever else the run carries |
| Export.BoldBeforeOthers | MarkdownEditor/ContentView.swift:54-55 | bold without italic below size 24 is written `**t**`, before link, strikethrough and Courier |
| Export.ItalicBeforeOthers | MarkdownEditor/ContentView.swift:57-58 | italic without bold is written `_t_` |
| Export.LinkBeforeStrikethroughAndCode | MarkdownEditor/ContentView.swift:60-63 | a URL on a run that is neither bold nor italic is written `[t](url)`, before strikethrough and Courier |
| Export.StrikethroughDropsTwo | MarkdownEditor/ContentView.swift:65-66 | a strikethrough run is written `~~` + t without its last two characters + `~~` |
| Export.CourierDropsTwo | MarkdownEditor/ContentView.swift:68-69 | a Courier run is written with a backtick on each side of t without its last two characters |
| Export.PlainRunUnchanged | MarkdownEditor/ContentView.swift:71-72 | any other run is written as its text |
| Export.StrongRoundTrip | MarkdownEditor/ContentView.swift:54-55 | text styled by the Strong step is written back as `**t**` |
| Export.BoldItalicRoundTrip | MarkdownEditor/ContentView.swift:50-52 | text styled by the bold-italic step is written back as `***t***` |
| Export.ItalicRoundTrip | MarkdownEditor/ContentView.swift:57-58 | text styled by the italic step is written back as `_t_`, whichever marker it was read from |
| Export.LinkRoundTrip | MarkdownEditor/ContentView.swift:60-63 | text styled by the link step with a valid URL is written back as the link literal |
| Export.InvalidLinkNotWritten | MarkdownEditor/ContentView.swift:60-66 | with an invalid destination, the link case is skipped |
| Export.InlineCodeRoundTrip | MarkdownEditor/ContentView.swift:68-69 | code plus the two characters the Courier range spilled onto is written back as the code span; those two characters are lost |
| Export.StrikethroughRoundTrip | MarkdownEditor/ContentView.swift:65-66 | the same for strikethrough: `~~t~~`, with the two spilled characters lost |
| Export.PaintIsOneRun | MarkdownEditor/ContentView.swift:27 | a non-empty text with uniform attributes is one run |
| Export.PaintEmitsOneForm | MarkdownEditor/ContentView.swift:23-77 | such a text is written as that run's one form |
| Export.PlainTextRoundTrip | MarkdownEditor/ContentView.swift:71-72 | text in the editor's plain font is written back unchanged |

## Left out

- The swift-markdown parser (`Document(parsing:)`) is a parameter of the coordinator. Its output is a `Markup.Document` value.
- `URL(string:)` is a validity flag on the `Link` node. The URL's `absoluteString` is taken to be the destination as written.
- UIFont, UIFontDescriptor and the "Courier" name test are reduced to a font record: bold, italic, Courier and an integer size. CGFloat sizes are integers, since every size used is integral.
- Colours (`.foregroundColor`) are not modelled. The editor's runs can therefore split where only the colour differs; the model does not show such splits.
- Strings are sequences of characters with one index per character. The difference between NSRange's UTF-16 offsets and Swift's `Character` counts (`text.count`, `newText.count`) is not modelled.
- The blanks of `.whitespaces` (the tab and general category Zs), the `\s` of the regular expression (the White_Space property) and its `\d` (general category Nd) are listed by code point as Unicode 15.0 defines them; a later Unicode version that adds such a character is not followed.
- AttributedText.FindFirst: compares code points exactly. `String.range(of:)` without `.literal` compares whole Characters (grapheme clusters) under canonical equivalence, so it can match "é" written as U+00E9 against "e" + U+0301, and it does not find "**a**" when a combining mark follows the last "*"; the model finds only the exact code points and finds "**a**" in the second case.
- ListContinuation.LineAt: only "\n" ends a line. The other terminators of `lineRange(for:)` ("\r", "\r\n" as one terminator, U+0085, U+2028, U+2029) are not modelled.
- ListContinuation.NumberIncrements: `number + 1` is unbounded. The overflow trap at Int.max is not modelled; the lemma requires n ≤ Int.max.
- ListContinuation.NumberedLineContinuation: for the number Int.max itself it promises the insertion of "\n" + (Int.max + 1) + ". ", where the source traps on `number + 1`; the same holds of NextNumber.
- The range exception that `addAttributes` raises would terminate the app. The model reports it as a failed pass, and the view keeps its old text.
- Editor.Coordinator.ApplyMarkdownStyles: UIKit's handling of the selection when `attributedText` is assigned is not modelled. The selection is left as it was.
- Opening a tapped link (`UIApplication.shared.open`) is a foreign side effect.
- View set-up in `makeUIView`, `makeCoordinator`, the SwiftUI views, the sample text and the preview are UI wiring. So are the `@Binding` of `parent.text` and the `ObservableObject` plumbing. The binding is modelled as the field `Coordinator.parentText`.
- The weak reference to the controller's text view is a nullable field. Its release is not modelled.
- MarkdownEditor/MarkdownEditorApp.swift is app bootstrap and is not part of this model.
