/**
 * The token types of rust/src/token_parser.rs:6-39, which the text parsers
 * of rust/src/token_parser_text.rs and rust/src/token_parser.rs produce.
 */
module Tokens {
  import opened Positions
  import Prelude

  datatype TokenKind =
    | CurlyOpen
    | CurlyBreak
    | CurlyClose
    | PointyOpen
    | PointyBreak
    | PointyClose
    | TagName(name: Prelude.BasicName)
    | AttrName
    | AttrEquals(attr: Prelude.BasicName)
    | AttrValue(value: Prelude.AttrValue)
    | Whitespace
    | Text(text: string)
    | Comment
    | CodeBlock(lang: string, content: string)

  datatype Token = Token(span: Span, raw: string, val: TokenKind)

  datatype TokenizerState =
    | Normal
    | PointyTagHead(open: char)
    | CurlyTagHead
    | CurlyTagEnd
    | CodeBlockState
    | CommentState
}
