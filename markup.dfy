// The parsed document the forward styler walks. The markdown parser itself
// is not part of this model: its output arrives as a value of these types.

module Markup {
  import opened Attributes

  /** Inline nodes. `plainText` is the node's plain text as the parser
      reports it; for inline code and strikethrough it still carries one
      delimiter character on each side. `urlValid` says whether the link's
      destination (or "" when it has none) parses as a URL. */
  datatype Inline =
    | Strong(plainText: string)
    | Emphasis(plainText: string, inlineChildren: seq<Inline>)
    | Link(plainText: string, destination: Option<string>, urlValid: bool)
    | InlineCode(plainText: string)
    | Strikethrough(plainText: string)
    | OtherInline

  datatype ListItem = ListItem(children: seq<Block>)

  /** Block nodes; every other kind of block is `OtherBlock`. */
  datatype Block =
    | Heading(level: nat, plainText: string)
    | Paragraph(inlineChildren: seq<Inline>)
    | UnorderedList(listItems: seq<ListItem>)
    | OrderedList(listItems: seq<ListItem>)
    | OtherBlock

  datatype Document = Document(children: seq<Block>)
}
