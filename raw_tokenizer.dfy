/**
 * The character-level sub-parsers of rust/src/raw_tokenizer.rs and the text
 * mode of its `RawTokenizer` state machine.
 *
 * Each `parse_*` is a loop over a `Cursor`.  Its behaviour is specified by a
 * recursive function of the input and the loop's state (`InlineLoop`,
 * `TagLoop`, `AttrNameLoop`, `StringLoop`), one call per iteration, and the
 * method is proved to return what that function says and to leave the
 * cursor where it says.  The properties are lemmas about those functions.
 *
 * The sub-parsers read the last popped, the next and the following char as
 * `peek(0)`, `peek(1)` and `peek(2)`; they are modelled with that reading.
 * `is_valid_id_char` is a parameter `validId`, `Span::new()` the empty span
 * `BlankSpan`.
 */
module RawTokenizer {
  import opened Wrappers
  import opened Positions
  import opened Utf8Source
  import opened Cursors
  import opened Escapes
  import opened TextWhitespace
  import Chars

  datatype BasicName = BasicName(view: string, special: bool, prefix: string, local: string)

  /** `BasicName::new`. */
  const NewName := BasicName("", false, "", "")

  /** `Number`; floats are not part of this model. */
  datatype Number = Integer(value: int)

  datatype Token =
    | CodeBlock(span: Span, raw: string, parsed: string)
    | Whitespace(span: Span, raw: string, parsed: string)
    | TextMarker(span: Span, marker: char)
    | InlineText(span: Span, raw: string, parsed: string)
    | InlineMathText(span: Span, raw: string, parsed: string)
    | DisplayMathText(span: Span, raw: string, parsed: string)
    | AttributeName(span: Span, raw: string, name: BasicName)
    | NumericValue(span: Span, raw: string, number: Number)
    | StringValue(span: Span, raw: string, parsed: string)
    | CurlyTagStart(span: Span, raw: string, name: BasicName)
    | CurlyTagEnd(span: Span, marker: char)
    | PointyTag(span: Span, raw: string, name: BasicName, open: char, close: char)

  /** The tokens of `RawTokenizer`, whose raw texts concatenate to the input. */
  datatype RawToken =
    | RawCodeBlock(span: Span, raw: string)
    | RawWhitespace(span: Span, raw: string)
    | RawTextMarker(span: Span, marker: char)
    | RawInlineText(span: Span, raw: string)
    | RawInlineMathText(span: Span, raw: string)
    | RawDisplayMathText(span: Span, raw: string)
    | RawAttributeName(span: Span, raw: string)
    | RawNumericValue(span: Span, raw: string)
    | RawStringValue(span: Span, raw: string)
    | RawCurlyTagStart(span: Span, raw: string)
    | RawCurlyTagEnd(span: Span)
    | RawPointyTagStart(span: Span, raw: string)
    | RawPointyTagEnd(span: Span, raw: string)

  datatype TextEscapeState = Normal | Slash | Unicode

  datatype TagType = NotTag | CurlyTag | PointyTag

  datatype Mode =
    | StartOfInput
    | CodeBlockMode
    | TextMarkerMode
    | WhitespaceMode
    | InlineTextNew
    | InlineTextMode(escape: TextEscapeState)
    | InlineMathTextMode
    | DisplayMathTextMode
    | AttributeNameMode(gotFirstLetter: bool)
    | BooleanValueMode
    | NumericValueMode
    | StringValueMode
    | CurlyTagStartMode
    | CurlyTagEndMode
    | PointyTagStartMode
    | PointyTagEndMode

  datatype State = State(mode: Mode, afterWhitespace: Option<Mode>, textEscape: TextEscapeState, insideTag: TagType)

  datatype TokenizerError =
    | IllegalChar(pos: Position, c: char)
    | IllegalChar2(pos: Position, c: char, expected: seq<char>)
    | IllegalCharMsg(pos: Position, c: char, msg: string)
    | MissingTerminator(pos: Position, c: char)
    | MissingLocalName(pos: Position)
    | IllegalEscapeSequence(pos: Position, text: string)

  /** `Span::new()`. */
  const BlankSpan := Span(Start, Start)

  /** The chars at which inline text ends, unless a space stands on both sides. */
  predicate IsTagChar(c: char)
  {
    c == '{' || c == '}' || c == '<' || c == '>' || c == '|'
  }

  // ---------------------------------------------------------------------
  // parse_inline_text

  /** The locals of `parse_inline_text`'s loop. */
  datatype InlineScan = InlineScan(escape: TextEscapeState, raw: string, text: WsText, unicode: string)
  {
    predicate Valid()
    {
      text.Valid() && AllHex(unicode)
    }
  }

  const InlineStart := InlineScan(Normal, "", TextWhitespace.Empty, "")

  /**
   * One iteration of `parse_inline_text`'s loop from state `s` with `at`
   * chars popped.  It goes on, after popping one char, or it leaves with the
   * result, the escape state it leaves behind and the number of chars popped.
   */
  function InlineStep(input: seq<char>, at: nat, s: InlineScan): (r: Step<InlineScan, (Result<Token, TokenizerError>, TextEscapeState, nat)>)
    requires s.Valid()
    ensures r.Continue? ==> r.next.Valid() && at < |input| && r.next.raw == s.raw + [input[at]]
    ensures r.Exit? && r.result.0.Ok? ==>
      && r.result == (Ok(InlineText(BlankSpan, s.raw, s.text.parsed)), s.escape, at)
      && var cur := StreamAt(input, at);
         cur == '\0' || (s.escape == Normal && IsTagChar(cur) && (StreamAt(input, at - 1) != ' ' || StreamAt(input, at + 1) != ' '))
  {
    var last, cur, next := StreamAt(input, at - 1), StreamAt(input, at), StreamAt(input, at + 1);
    if cur == '\0' then Exit((Ok(InlineText(BlankSpan, s.raw, s.text.parsed)), s.escape, at))
    else
      match s.escape
      case Normal =>
        if IsTagChar(cur) && (last != ' ' || next != ' ') then Exit((Ok(InlineText(BlankSpan, s.raw, s.text.parsed)), Normal, at))
        else if cur == '\\' then Continue(InlineScan(if next == 'u' then Unicode else Slash, s.raw + [cur], s.text, ""))
        else Continue(s.(raw := s.raw + [cur], text := Push(s.text, cur, cur, true)))
      case Slash =>
        (match TextEscape(cur)
         case None => Exit((Err(IllegalEscapeSequence(StreamPos(input, at), ['\\', next])), Slash, at))
         case Some(c) => Continue(s.(escape := Normal, raw := s.raw + [cur], text := PushVisible(s.text, c))))
      case Unicode =>
        if |s.unicode| == 0 && cur == 'u' then Continue(s.(raw := s.raw + [cur]))
        else if cur == ';' then
          (match DecodeHex(s.unicode)
           case None => Exit((Err(IllegalEscapeSequence(StreamPos(input, at), "\\u" + s.unicode)), Unicode, at))
           case Some(c) => Continue(s.(escape := Normal, raw := s.raw + [cur], text := PushVisible(s.text, c))))
        else if IsHexDigit(cur) then Continue(s.(raw := s.raw + [cur], unicode := s.unicode + [cur]))
        else Exit((Err(IllegalEscapeSequence(StreamPos(input, at + 1), "\\u" + (s.unicode + [cur]))), Unicode, at + 1))
  }

  /** The whole loop: what `parse_inline_text` returns from state `s` with `at` chars popped. */
  function InlineLoop(input: seq<char>, at: nat, s: InlineScan): (Result<Token, TokenizerError>, TextEscapeState, nat)
    requires s.Valid()
    decreases |input| - at
  {
    match InlineStep(input, at, s)
    case Continue(s') => InlineLoop(input, at + 1, s')
    case Exit(r) => r
  }

  /**
   * Inline text ends, without consuming it, at the end of input or at a tag
   * char that does not have a space on both sides; `raw` is exactly the
   * chars consumed.
   */
  lemma {:induction false} InlineTextStops(input: seq<char>, at: nat, s: InlineScan)
    requires s.Valid() && at <= |input|
    ensures var (r, e, end) := InlineLoop(input, at, s);
      r.Ok? ==>
        && at <= end <= |input|
        && r.value.InlineText? && r.value.raw == s.raw + input[at..end]
        && var cur := StreamAt(input, end);
           cur == '\0' || (e == Normal && IsTagChar(cur) && (StreamAt(input, end - 1) != ' ' || StreamAt(input, end + 1) != ' '))
    decreases |input| - at
  {
    match InlineStep(input, at, s)
    case Continue(s') =>
      InlineTextStops(input, at + 1, s');
      var end := InlineLoop(input, at + 1, s').2;
      if InlineLoop(input, at + 1, s').0.Ok? {
        assert input[at..end] == [input[at]] + input[at + 1..end];
      }
    case Exit(_) =>
  }

  /** No escape, no line break and no tag char: the parsed text is the consumed text itself. */
  lemma {:induction false} PlainInlineText(input: seq<char>, at: nat, s: InlineScan)
    requires s.Valid() && s.escape == Normal && s.text.ws == GotFirst && at <= |input|
    requires forall k :: at <= k < |input| ==> !Chars.IsReservedChar(input[k]) && input[k] !in "\n\0"
    ensures var (r, e, end) := InlineLoop(input, at, s);
      r == Ok(InlineText(BlankSpan, s.raw + input[at..], s.text.parsed + input[at..])) && end == |input| && e == Normal
    decreases |input| - at
  {
    if at < |input| {
      var cur := input[at];
      assert cur !in "\\\n{}<>|\0";
      var s' := s.(raw := s.raw + [cur], text := Push(s.text, cur, cur, true));
      assert s'.text.parsed == s.text.parsed + [cur] && s'.text.ws == GotFirst;
      assert InlineStep(input, at, s) == Continue(s');
      PlainInlineText(input, at + 1, s');
      assert input[at..] == [cur] + input[at + 1..];
      assert s'.raw + input[at + 1..] == s.raw + input[at..];
      assert s'.text.parsed + input[at + 1..] == s.text.parsed + input[at..];
    } else {
      assert InlineStep(input, at, s).Exit?;
      assert input[at..] == [];
      assert s.raw + input[at..] == s.raw && s.text.parsed + input[at..] == s.text.parsed;
    }
  }

  /**
   * An escape that the table does not know is `IllegalEscapeSequence` at the
   * position of the backslash's successor, its text the backslash and the
   * char after the offending one.
   */
  lemma UnknownEscape(input: seq<char>, at: nat, s: InlineScan)
    requires s.Valid() && s.escape == Slash && StreamAt(input, at) != '\0' && TextEscape(StreamAt(input, at)).None?
    ensures InlineLoop(input, at, s)
      == (Err(IllegalEscapeSequence(StreamPos(input, at), ['\\', StreamAt(input, at + 1)])), Slash, at)
  {
  }

  /** `\uHEX;` that names no scalar value is `IllegalEscapeSequence` with the text up to the `;`. */
  lemma BadUnicodeEscape(input: seq<char>, at: nat, s: InlineScan)
    requires s.Valid() && s.escape == Unicode && StreamAt(input, at) == ';'
    requires |s.unicode| == 0 || !Chars.IsScalar(HexValue(s.unicode))
    ensures InlineLoop(input, at, s) == (Err(IllegalEscapeSequence(StreamPos(input, at), "\\u" + s.unicode)), Unicode, at)
  {
  }

  /**
   * A char inside `\u…` that is neither the leading `u`, a hex digit nor
   * `;` is `IllegalEscapeSequence` with the digits so far and that char; the
   * char is popped first, so the position is after it.
   */
  lemma NonHexUnicodeEscape(input: seq<char>, at: nat, s: InlineScan)
    requires s.Valid() && s.escape == Unicode
    requires var c := StreamAt(input, at); c != '\0' && c != ';' && !IsHexDigit(c) && !(|s.unicode| == 0 && c == 'u')
    ensures InlineLoop(input, at, s)
      == (Err(IllegalEscapeSequence(StreamPos(input, at + 1), "\\u" + (s.unicode + [StreamAt(input, at)]))), Unicode, at + 1)
  {
  }

  /** A `\uHEX;` escape that names a scalar value appends that char as visible text. */
  lemma GoodUnicodeEscape(input: seq<char>, at: nat, s: InlineScan)
    requires s.Valid() && s.escape == Unicode && StreamAt(input, at) == ';'
    requires |s.unicode| > 0 && Chars.IsScalar(HexValue(s.unicode))
    ensures DecodeHex(s.unicode).Some?
    ensures InlineLoop(input, at, s) == InlineLoop(input, at + 1,
      s.(escape := Normal, raw := s.raw + [';'], text := PushVisible(s.text, DecodeHex(s.unicode).value)))
    ensures DecodeHex(s.unicode).value as int == HexValue(s.unicode)
  {
  }

  /** `parse_inline_text`. */
  method ParseInlineText(src: Cursor, state: State) returns (r: Result<Token, TokenizerError>, state': State)
    requires src.Valid()
    modifies src
    ensures src.Valid()
    ensures (r, state'.textEscape, src.at) == InlineLoop(src.input, old(src.at), InlineStart)
    ensures state' == state.(mode := InlineTextNew, textEscape := state'.textEscape)
  {
    state' := state.(mode := InlineTextNew, textEscape := Normal);
    var raw, unicode := "", "";
    var text := TextWhitespace.Empty;
    ghost var at0 := src.at;
    while true
      invariant src.Valid() && text.Valid() && AllHex(unicode)
      invariant state' == state.(mode := InlineTextNew, textEscape := state'.textEscape)
      invariant InlineLoop(src.input, src.at, InlineScan(state'.textEscape, raw, text, unicode))
        == InlineLoop(src.input, at0, InlineStart)
      decreases |src.input| - src.at
    {
      var lastC, popC, nextC := src.Peek(0), src.Peek(1), src.Peek(2);
      if popC == '\0' {
        break;
      }
      ghost var s := InlineScan(state'.textEscape, raw, text, unicode);
      match state'.textEscape
      case Normal =>
        if IsTagChar(popC) && (lastC != ' ' || nextC != ' ') {
          break;
        }
        raw := raw + [popC];
        if popC == '\\' {
          state' := state'.(textEscape := if nextC == 'u' then Unicode else Slash);
          unicode := "";
          var _ := src.Pop();
          continue;
        }
        text := Push(text, popC, popC, true);
        var _ := src.Pop();
      case Slash =>
        raw := raw + [popC];
        var realC := TextEscape(popC);
        if realC.None? {
          return Err(IllegalEscapeSequence(src.pos, ['\\', nextC])), state';
        }
        text := PushVisible(text, realC.value);
        var _ := src.Pop();
        state' := state'.(textEscape := Normal);
      case Unicode =>
        raw := raw + [popC];
        if |unicode| == 0 && popC == 'u' {
        } else if popC == ';' {
          var realC := DecodeHex(unicode);
          if realC.None? {
            return Err(IllegalEscapeSequence(src.pos, "\\u" + unicode)), state';
          }
          text := PushVisible(text, realC.value);
          state' := state'.(textEscape := Normal);
        } else if IsHexDigit(popC) {
          unicode := unicode + [popC];
        } else {
          unicode := unicode + [popC];
          var _ := src.Pop();
          return Err(IllegalEscapeSequence(src.pos, "\\u" + unicode)), state';
        }
        var _ := src.Pop();
    }
    r := Ok(InlineText(BlankSpan, raw, text.parsed));
  }

  // ---------------------------------------------------------------------
  // Names: parse_tag and parse_attr_name

  /**
   * One char of a tag or attribute name: a leading `!` marks the name
   * special, an id char extends the local part (`validId` is asked with the
   * UTF-8 length of the local part so far), the first `:` moves the local
   * part into the prefix, and in a pointy tag `(`...`)` moves it into the
   * view.  `None` for any other char.  Returns the name and whether a view
   * is open.
   */
  function NameStep(name: BasicName, first: bool, c: char, pointy: bool, hasView: bool,
                    validId: (nat, char) -> bool): (r: Option<(BasicName, bool)>)
    ensures r.None? <==>
      && !(first && c == '!') && !validId(ByteLen(name.local), c) && !(c == ':' && |name.prefix| == 0)
      && !(c == '(' && pointy && !hasView) && !(c == ')' && pointy && hasView)
    ensures r.Some? ==> r.value.0.special == (name.special || (first && c == '!'))
  {
    if first && c == '!' then Some((name.(special := true, local := name.local + [c]), hasView))
    else if validId(ByteLen(name.local), c) then Some((name.(local := name.local + [c]), hasView))
    else if c == ':' && |name.prefix| == 0 then Some((name.(prefix := name.local, local := ""), hasView))
    else if c == '(' && pointy && !hasView then Some((name, true))
    else if c == ')' && pointy && hasView then Some((name.(view := name.local, local := ""), false))
    else None
  }

  /** The locals of `parse_tag`'s loop. */
  datatype TagScan = TagScan(name: BasicName, first: bool, raw: string, hasView: bool, close: char)

  /** After the name: an open view, or a missing local part, is an error. */
  function TagEnd(input: seq<char>, at: nat, pointy: bool, open: char, startPos: Position, s: TagScan)
    : (r: (Result<Token, TokenizerError>, nat))
    ensures r.0.Ok? <==> !s.hasView && (|s.name.local| > 0 || (pointy && open == '|' && s.close == '>'))
    ensures r.0.Ok? ==>
      && (if pointy then r.0.value.PointyTag? && r.0.value.open == open && r.0.value.close == s.close
          else r.0.value.CurlyTagStart?)
      && r.1 == at && r.0.value.raw == s.raw && r.0.value.name == s.name
  {
    if s.hasView then (Err(MissingTerminator(StreamPos(input, at), ')')), at)
    else if |s.name.local| == 0 && !(pointy && open == '|' && s.close == '>') then (Err(MissingLocalName(startPos)), at)
    else if pointy then (Ok(Token.PointyTag(BlankSpan, s.raw, s.name, open, s.close)), at)
    else (Ok(CurlyTagStart(BlankSpan, s.raw, s.name)), at)
  }

  /** One iteration of `parse_tag`'s loop. */
  function TagStep(input: seq<char>, at: nat, pointy: bool, open: char, startPos: Position, s: TagScan,
                   validId: (nat, char) -> bool): (r: Step<TagScan, (Result<Token, TokenizerError>, nat)>)
    ensures r.Continue? ==>
      && at < |input| && r.next.raw == s.raw + [input[at]] && !r.next.first && r.next.close == s.close
      && r.next.name.special == (s.name.special || (s.first && input[at] == '!'))
    ensures r.Exit? && r.result.0.Ok? ==>
      && (r.result.0.value.CurlyTagStart? || r.result.0.value.PointyTag?) && r.result.0.value.name == s.name
      && var cur := StreamAt(input, at);
         if pointy && (cur == '|' || cur == '>') then
           r.result == TagEnd(input, at + 1, pointy, open, startPos, s.(close := cur, raw := s.raw + [cur]))
         else
           && r.result == TagEnd(input, at, pointy, open, startPos, s)
           && (cur == '\0' || cur == ' ' || (!pointy && (cur == ';' || cur == '}')))
  {
    var cur := StreamAt(input, at);
    if cur == '\0' || cur == ' ' || (!pointy && (cur == ';' || cur == '}')) then
      Exit(TagEnd(input, at, pointy, open, startPos, s))
    else if pointy && (cur == '|' || cur == '>') then
      Exit(TagEnd(input, at + 1, pointy, open, startPos, s.(close := cur, raw := s.raw + [cur])))
    else
      match NameStep(s.name, s.first, cur, pointy, s.hasView, validId)
      case None => Exit((Err(IllegalCharMsg(StreamPos(input, at), cur, "valid id char")), at))
      case Some((name', view')) => Continue(s.(name := name', hasView := view', first := false, raw := s.raw + [cur]))
  }

  function TagLoop(input: seq<char>, at: nat, pointy: bool, open: char, startPos: Position, s: TagScan,
                   validId: (nat, char) -> bool): (Result<Token, TokenizerError>, nat)
    decreases |input| - at
  {
    match TagStep(input, at, pointy, open, startPos, s, validId)
    case Continue(s') => TagLoop(input, at + 1, pointy, open, startPos, s', validId)
    case Exit(r) => r
  }

  /**
   * `parse_tag`: `}` is a `CurlyTagEnd` at once, without consuming it; an
   * opener other than `<`, `|` and `{` is `IllegalChar2`; otherwise the
   * opener is consumed and the name scanned.
   */
  function ParseTagSpec(input: seq<char>, at: nat, validId: (nat, char) -> bool): (r: (Result<Token, TokenizerError>, nat))
    ensures StreamAt(input, at) == '}' ==> r == (Ok(CurlyTagEnd(BlankSpan, '}')), at)
    ensures StreamAt(input, at) !in "<|{}" ==> r == (Err(IllegalChar2(StreamPos(input, at), StreamAt(input, at), "<>{}")), at)
  {
    var cur := StreamAt(input, at);
    if cur == '}' then (Ok(CurlyTagEnd(BlankSpan, cur)), at)
    else if !(cur == '<' || cur == '|' || cur == '{') then (Err(IllegalChar2(StreamPos(input, at), cur, "<>{}")), at)
    else TagLoop(input, at + 1, cur != '{', cur, StreamPos(input, at), TagScan(NewName, true, [cur], false, '\0'), validId)
  }

  /**
   * A tag head that parses: `raw` is the consumed chars; a curly name stops
   * before a space, `;`, `}` or the end of input; a pointy name either
   * consumes its closing `|` or `>` into `raw` or stops before a space or the
   * end of input; the local part is empty only in `|`...`>`.
   */
  lemma {:induction false} TagLoopResult(input: seq<char>, at: nat, pointy: bool, open: char, startPos: Position,
                                         s: TagScan, validId: (nat, char) -> bool)
    requires at <= |input| && s.close == '\0'
    ensures var (r, end) := TagLoop(input, at, pointy, open, startPos, s, validId);
      r.Ok? ==>
        && (r.value.CurlyTagStart? || r.value.PointyTag?)
        && at <= end <= |input| && r.value.raw == s.raw + input[at..end]
        && (|r.value.name.local| > 0 || (r.value.PointyTag? && open == '|' && r.value.close == '>'))
        && (!pointy ==> r.value.CurlyTagStart? && StreamAt(input, end) in " ;}\0")
        && (pointy ==>
              && r.value.PointyTag? && r.value.open == open
              && (if r.value.close == '\0' then StreamAt(input, end) in " \0"
                  else r.value.close in "|>" && end > at && input[end - 1] == r.value.close))
    decreases |input| - at
  {
    var cur := StreamAt(input, at);
    match TagStep(input, at, pointy, open, startPos, s, validId)
    case Continue(s') =>
      TagLoopResult(input, at + 1, pointy, open, startPos, s', validId);
      var end := TagLoop(input, at + 1, pointy, open, startPos, s', validId).1;
      if TagLoop(input, at + 1, pointy, open, startPos, s', validId).0.Ok? {
        assert input[at..end] == [input[at]] + input[at + 1..end];
      }
    case Exit(_) =>
      if pointy && (cur == '|' || cur == '>') {
        assert input[at..at + 1] == [cur];
      }
  }

  /** Once past the first char, the special flag of the name no longer changes. */
  lemma {:induction false} TagSpecialKept(input: seq<char>, at: nat, pointy: bool, open: char, startPos: Position,
                                          s: TagScan, validId: (nat, char) -> bool)
    requires !s.first
    ensures var r := TagLoop(input, at, pointy, open, startPos, s, validId).0;
      r.Ok? && (r.value.PointyTag? || r.value.CurlyTagStart?) ==> r.value.name.special == s.name.special
    decreases |input| - at
  {
    match TagStep(input, at, pointy, open, startPos, s, validId)
    case Continue(s') =>
      TagSpecialKept(input, at + 1, pointy, open, startPos, s', validId);
    case Exit(_) =>
  }

  /** A tag name is special exactly when a `!` follows the opener. */
  lemma TagSpecial(input: seq<char>, at: nat, validId: (nat, char) -> bool)
    requires StreamAt(input, at) in "<|{"
    ensures var r := ParseTagSpec(input, at, validId).0;
      r.Ok? && (r.value.CurlyTagStart? || r.value.PointyTag?) ==> r.value.name.special == (StreamAt(input, at + 1) == '!')
  {
    var cur := StreamAt(input, at);
    var s := TagScan(NewName, true, [cur], false, '\0');
    match TagStep(input, at + 1, cur != '{', cur, StreamPos(input, at), s, validId)
    case Continue(s') =>
      assert ParseTagSpec(input, at, validId) == TagLoop(input, at + 2, cur != '{', cur, StreamPos(input, at), s', validId);
      TagSpecialKept(input, at + 2, cur != '{', cur, StreamPos(input, at), s', validId);
    case Exit(_) =>
  }

  /** A space, the end of input, or (in a curly tag) `;` or `}` stops the name where it is. */
  lemma TagStops(input: seq<char>, at: nat, pointy: bool, open: char, startPos: Position, s: TagScan,
                 validId: (nat, char) -> bool)
    requires var cur := StreamAt(input, at); cur == '\0' || cur == ' ' || (!pointy && (cur == ';' || cur == '}'))
    ensures TagLoop(input, at, pointy, open, startPos, s, validId) == TagEnd(input, at, pointy, open, startPos, s)
  {
  }

  /** In a pointy tag, `|` or `>` ends the name and is consumed as its closer. */
  lemma TagCloses(input: seq<char>, at: nat, pointy: bool, open: char, startPos: Position, s: TagScan,
                  validId: (nat, char) -> bool)
    requires var cur := StreamAt(input, at); pointy && (cur == '|' || cur == '>')
    ensures var cur := StreamAt(input, at);
      TagLoop(input, at, pointy, open, startPos, s, validId)
        == TagEnd(input, at + 1, pointy, open, startPos, s.(close := cur, raw := s.raw + [cur]))
  {
  }

  /** Any other char extends the name, or is refused when it cannot. */
  lemma TagNameChar(input: seq<char>, at: nat, pointy: bool, open: char, startPos: Position, s: TagScan,
                    validId: (nat, char) -> bool)
    requires var cur := StreamAt(input, at);
      && cur != '\0' && cur != ' ' && !(!pointy && (cur == ';' || cur == '}')) && !(pointy && (cur == '|' || cur == '>'))
    ensures var cur := StreamAt(input, at);
      match NameStep(s.name, s.first, cur, pointy, s.hasView, validId)
      case None =>
        TagLoop(input, at, pointy, open, startPos, s, validId) == (Err(IllegalCharMsg(StreamPos(input, at), cur, "valid id char")), at)
      case Some((name', view')) =>
        TagLoop(input, at, pointy, open, startPos, s, validId)
          == TagLoop(input, at + 1, pointy, open, startPos, s.(name := name', hasView := view', first := false, raw := s.raw + [cur]), validId)
  {
  }

  /** The checks after the loop of `parse_tag`. */
  method EndTag(src: Cursor, pointy: bool, open: char, startPos: Position, s: TagScan)
    returns (r: Result<Token, TokenizerError>)
    requires src.Valid()
    ensures (r, src.at) == TagEnd(src.input, src.at, pointy, open, startPos, s)
  {
    if s.hasView {
      return Err(MissingTerminator(src.pos, ')'));
    }
    if |s.name.local| == 0 && !(pointy && open == '|' && s.close == '>') {
      return Err(MissingLocalName(startPos));
    }
    if pointy {
      r := Ok(Token.PointyTag(BlankSpan, s.raw, s.name, open, s.close));
    } else {
      r := Ok(CurlyTagStart(BlankSpan, s.raw, s.name));
    }
  }

  /**
   * The loop of `parse_tag`: it stops at a refused char with the error, or
   * at the end of the name with the locals that `EndTag` checks.
   */
  method ScanTagName(src: Cursor, pointy: bool, open: char, startPos: Position, s0: TagScan, validId: (nat, char) -> bool)
    returns (err: Option<TokenizerError>, s: TagScan)
    requires src.Valid()
    modifies src
    ensures src.Valid()
    ensures err.Some? ==> (Err(err.value), src.at) == TagLoop(src.input, old(src.at), pointy, open, startPos, s0, validId)
    ensures err.None? ==>
      TagEnd(src.input, src.at, pointy, open, startPos, s) == TagLoop(src.input, old(src.at), pointy, open, startPos, s0, validId)
  {
    ghost var at0 := src.at;
    var name, first, raw, hasView, close := s0.name, s0.first, s0.raw, s0.hasView, s0.close;
    while true
      invariant src.Valid()
      invariant TagLoop(src.input, src.at, pointy, open, startPos, TagScan(name, first, raw, hasView, close), validId)
        == TagLoop(src.input, at0, pointy, open, startPos, s0, validId)
      decreases |src.input| - src.at
    {
      ghost var t := TagScan(name, first, raw, hasView, close);
      var popC := src.Peek(1);
      if popC == '\0' || popC == ' ' {
        TagStops(src.input, src.at, pointy, open, startPos, t, validId);
        break;
      }
      if !pointy && (popC == ';' || popC == '}') {
        TagStops(src.input, src.at, pointy, open, startPos, t, validId);
        break;
      }
      if pointy && (popC == '|' || popC == '>') {
        TagCloses(src.input, src.at, pointy, open, startPos, t, validId);
        close := popC;
        var c := src.Pop();
        raw := raw + [c];
        break;
      }
      var named := NameStep(name, first, popC, pointy, hasView, validId);
      TagNameChar(src.input, src.at, pointy, open, startPos, t, validId);
      if named.None? {
        return Some(IllegalCharMsg(src.pos, popC, "valid id char")), TagScan(name, first, raw, hasView, close);
      }
      name, hasView := named.value.0, named.value.1;
      first := false;
      var c := src.Pop();
      raw := raw + [c];
    }
    return None, TagScan(name, first, raw, hasView, close);
  }

  /** `parse_tag`, over a cursor. */
  method ParseTag(src: Cursor, validId: (nat, char) -> bool) returns (r: Result<Token, TokenizerError>)
    requires src.Valid()
    modifies src
    ensures src.Valid() && (r, src.at) == ParseTagSpec(src.input, old(src.at), validId)
  {
    var popC := src.Peek(1);
    var pointy: bool;
    if popC == '<' || popC == '|' {
      pointy := true;
    } else if popC == '{' {
      pointy := false;
    } else if popC == '}' {
      return Ok(CurlyTagEnd(BlankSpan, popC));
    } else {
      return Err(IllegalChar2(src.pos, popC, "<>{}"));
    }
    var startPos := src.pos;
    var c := src.Pop();
    var err, s := ScanTagName(src, pointy, popC, startPos, TagScan(NewName, true, [c], false, '\0'), validId);
    if err.Some? {
      return Err(err.value);
    }
    r := EndTag(src, pointy, popC, startPos, s);
  }

  /** The locals of `parse_attr_name`'s loop. */
  datatype AttrScan = AttrScan(name: BasicName, first: bool, raw: string)

  /** One iteration of `parse_attr_name`'s loop: an `=` after the first char ends the name. */
  function AttrNameStep(input: seq<char>, at: nat, startPos: Position, s: AttrScan,
                        validId: (nat, char) -> bool): (r: Step<AttrScan, (Result<Token, TokenizerError>, nat)>)
    requires forall n: nat :: !validId(n, '\0')
    ensures r.Continue? ==> at < |input| && r.next.raw == s.raw + [input[at]] && !r.next.first
    ensures r.Exit? && r.result.0.Ok? ==>
      && !s.first && StreamAt(input, at) == '='
      && r.result == (Ok(AttributeName(BlankSpan, s.raw + ['='], s.name)), at + 1) && |s.name.local| > 0
  {
    var cur := StreamAt(input, at);
    if !s.first && cur == '=' then
      if |s.name.local| == 0 then Exit((Err(MissingLocalName(startPos)), at + 1))
      else Exit((Ok(AttributeName(BlankSpan, s.raw + [cur], s.name)), at + 1))
    else
      match NameStep(s.name, s.first, cur, false, false, validId)
      case None => Exit((Err(IllegalCharMsg(StreamPos(input, at), cur, "valid id char")), at))
      case Some((name', _)) => Continue(AttrScan(name', false, s.raw + [cur]))
  }

  function AttrNameLoop(input: seq<char>, at: nat, startPos: Position, s: AttrScan,
                        validId: (nat, char) -> bool): (Result<Token, TokenizerError>, nat)
    requires forall n: nat :: !validId(n, '\0')
    decreases |input| - at
  {
    match AttrNameStep(input, at, startPos, s, validId)
    case Continue(s') => AttrNameLoop(input, at + 1, startPos, s', validId)
    case Exit(r) => r
  }

  /**
   * An attribute name that parses has a non-empty local part, and its `raw`
   * is the consumed chars, ending with the `=` that ends it.
   */
  lemma {:induction false} AttrNameResult(input: seq<char>, at: nat, startPos: Position, s: AttrScan,
                                          validId: (nat, char) -> bool)
    requires forall n: nat :: !validId(n, '\0')
    requires at <= |input|
    ensures var (r, end) := AttrNameLoop(input, at, startPos, s, validId);
      r.Ok? ==>
        && r.value.AttributeName? && |r.value.name.local| > 0
        && at < end <= |input| && input[end - 1] == '=' && r.value.raw == s.raw + input[at..end]
    decreases |input| - at
  {
    match AttrNameStep(input, at, startPos, s, validId)
    case Continue(s') =>
      AttrNameResult(input, at + 1, startPos, s', validId);
      var end := AttrNameLoop(input, at + 1, startPos, s', validId).1;
      if AttrNameLoop(input, at + 1, startPos, s', validId).0.Ok? {
        assert input[at..end] == [input[at]] + input[at + 1..end];
      }
    case Exit(_) =>
      if AttrNameStep(input, at, startPos, s, validId).result.0.Ok? {
        assert input[at..at + 1] == ['='];
      }
  }

  /** `parse_attr_name`, over a cursor. */
  method ParseAttrName(src: Cursor, validId: (nat, char) -> bool) returns (r: Result<Token, TokenizerError>)
    requires forall n: nat :: !validId(n, '\0')
    requires src.Valid()
    modifies src
    ensures src.Valid()
    ensures (r, src.at) == AttrNameLoop(src.input, old(src.at), old(src.pos), AttrScan(NewName, true, ""), validId)
  {
    ghost var at0 := src.at;
    var name, raw, startPos, first := NewName, "", src.pos, true;
    while true
      invariant src.Valid()
      invariant AttrNameLoop(src.input, src.at, startPos, AttrScan(name, first, raw), validId)
        == AttrNameLoop(src.input, at0, startPos, AttrScan(NewName, true, ""), validId)
      decreases |src.input| - src.at
    {
      var popC := src.Peek(1);
      if !first && popC == '=' {
        var c := src.Pop();
        raw := raw + [c];
        break;
      }
      var named := NameStep(name, first, popC, false, false, validId);
      if named.None? {
        return Err(IllegalCharMsg(src.pos, popC, "valid id char"));
      }
      name := named.value.0;
      first := false;
      var c := src.Pop();
      raw := raw + [c];
    }
    if |name.local| == 0 {
      return Err(MissingLocalName(startPos));
    }
    r := Ok(AttributeName(BlankSpan, raw, name));
  }

  // ---------------------------------------------------------------------
  // parse_string_value

  /** The locals of `parse_string_value`'s loop. */
  datatype StringScan = StringScan(escape: TextEscapeState, raw: string, val: string, unicode: string)
  {
    predicate Valid()
    {
      AllHex(unicode)
    }
  }

  /** One iteration of `parse_string_value`'s loop. */
  function StringStep(input: seq<char>, at: nat, s: StringScan): (r: Step<StringScan, (Result<Token, TokenizerError>, nat)>)
    requires s.Valid()
    ensures r.Continue? ==> r.next.Valid() && at < |input| && r.next.raw == s.raw + [input[at]]
    ensures r.Exit? && r.result.0.Ok? ==>
      s.escape == Normal && StreamAt(input, at) == '"' && r.result == (Ok(StringValue(BlankSpan, s.raw + ['"'], s.val)), at + 1)
    ensures StreamAt(input, at) == '\0' ==> r == Exit((Err(IllegalChar2(StreamPos(input, at), '\0', "\"")), at))
  {
    var cur, next := StreamAt(input, at), StreamAt(input, at + 1);
    if cur == '\0' then Exit((Err(IllegalChar2(StreamPos(input, at), cur, "\"")), at))
    else
      match s.escape
      case Normal =>
        if cur == '"' then Exit((Ok(StringValue(BlankSpan, s.raw + [cur], s.val)), at + 1))
        else if cur == '\\' then Continue(StringScan(if next == 'u' then Unicode else Slash, s.raw + [cur], s.val, ""))
        else Continue(s.(raw := s.raw + [cur], val := s.val + [cur]))
      case Slash =>
        (match StringEscape(cur)
         case None => Exit((Err(IllegalEscapeSequence(StreamPos(input, at), ['\\', next])), at))
         case Some(c) => Continue(s.(escape := Normal, raw := s.raw + [cur], val := s.val + [c])))
      case Unicode =>
        if |s.unicode| == 0 && cur == 'u' then Continue(s.(raw := s.raw + [cur]))
        else if cur == ';' then
          (match DecodeHex(s.unicode)
           case None => Exit((Err(IllegalEscapeSequence(StreamPos(input, at), "\\u" + s.unicode)), at))
           case Some(c) => Continue(s.(escape := Normal, raw := s.raw + [cur], val := s.val + [c])))
        else if IsHexDigit(cur) then Continue(s.(raw := s.raw + [cur], unicode := s.unicode + [cur]))
        else Exit((Err(IllegalEscapeSequence(StreamPos(input, at), "\\u" + (s.unicode + [cur]))), at))
  }

  function StringLoop(input: seq<char>, at: nat, s: StringScan): (Result<Token, TokenizerError>, nat)
    requires s.Valid()
    decreases |input| - at
  {
    match StringStep(input, at, s)
    case Continue(s') => StringLoop(input, at + 1, s')
    case Exit(r) => r
  }

  /** `parse_string_value`: a string value must open with `"`. */
  function ParseStringSpec(input: seq<char>, at: nat): (r: (Result<Token, TokenizerError>, nat))
    ensures StreamAt(input, at) != '"' ==> r == (Err(IllegalChar2(StreamPos(input, at), StreamAt(input, at), "\"")), at)
  {
    var cur := StreamAt(input, at);
    if cur != '"' then (Err(IllegalChar2(StreamPos(input, at), cur, "\"")), at)
    else StringLoop(input, at + 1, StringScan(Normal, [cur], "", ""))
  }

  /** A string value that parses is quoted at both ends, and its `raw` is the consumed chars. */
  lemma {:induction false} StringLoopResult(input: seq<char>, at: nat, s: StringScan)
    requires s.Valid() && at <= |input|
    ensures var (r, end) := StringLoop(input, at, s);
      r.Ok? ==> at < end <= |input| && input[end - 1] == '"' && r.value.StringValue? && r.value.raw == s.raw + input[at..end]
    decreases |input| - at
  {
    match StringStep(input, at, s)
    case Continue(s') =>
      StringLoopResult(input, at + 1, s');
      var end := StringLoop(input, at + 1, s').1;
      if StringLoop(input, at + 1, s').0.Ok? {
        assert input[at..end] == [input[at]] + input[at + 1..end];
      }
    case Exit(_) =>
      if StringStep(input, at, s).result.0.Ok? {
        assert input[at..at + 1] == ['"'];
      }
  }

  /** Without escapes, the value of a string is the text between its quotes. */
  lemma {:induction false} PlainString(input: seq<char>, at: nat, close: nat, s: StringScan)
    requires s.Valid() && s.escape == Normal && at <= close < |input| && input[close] == '"'
    requires forall k :: at <= k < close ==> input[k] !in "\"\\\0"
    ensures StringLoop(input, at, s) == (Ok(StringValue(BlankSpan, s.raw + input[at..close + 1], s.val + input[at..close])), close + 1)
    decreases close - at
  {
    if at < close {
      var cur := input[at];
      assert cur !in "\"\\\0";
      var s' := s.(raw := s.raw + [cur], val := s.val + [cur]);
      assert StringStep(input, at, s) == Continue(s');
      PlainString(input, at + 1, close, s');
      assert input[at..close + 1] == [cur] + input[at + 1..close + 1];
      assert input[at..close] == [cur] + input[at + 1..close];
      assert s'.raw + input[at + 1..close + 1] == s.raw + input[at..close + 1];
      assert s'.val + input[at + 1..close] == s.val + input[at..close];
    } else {
      assert input[at..close + 1] == ['"'] && input[at..close] == [];
      assert s.val + input[at..close] == s.val;
    }
  }

  /** A string that reaches the end of input before its closing quote is `IllegalChar2` at the end. */
  lemma {:induction false} UnterminatedString(input: seq<char>, at: nat, s: StringScan)
    requires s.Valid() && s.escape == Normal && at <= |input|
    requires forall k :: at <= k < |input| ==> input[k] !in "\"\\\0"
    ensures StringLoop(input, at, s) == (Err(IllegalChar2(StreamPos(input, |input|), '\0', "\"")), |input|)
    decreases |input| - at
  {
    if at < |input| {
      var cur := input[at];
      assert cur !in "\"\\\0";
      assert StringStep(input, at, s) == Continue(s.(raw := s.raw + [cur], val := s.val + [cur]));
      UnterminatedString(input, at + 1, s.(raw := s.raw + [cur], val := s.val + [cur]));
    }
  }

  /**
   * In a string value, a char inside `\u…` that is neither the leading `u`,
   * a hex digit nor `;` is `IllegalEscapeSequence` with the digits so far and
   * that char, at the char itself, since this loop does not pop it.
   */
  lemma NonHexStringEscape(input: seq<char>, at: nat, s: StringScan)
    requires s.Valid() && s.escape == Unicode
    requires var c := StreamAt(input, at); c != '\0' && c != ';' && !IsHexDigit(c) && !(|s.unicode| == 0 && c == 'u')
    ensures StringLoop(input, at, s)
      == (Err(IllegalEscapeSequence(StreamPos(input, at), "\\u" + (s.unicode + [StreamAt(input, at)]))), at)
  {
  }

  /** `parse_string_value`, over a cursor. */
  method ParseStringValue(src: Cursor) returns (r: Result<Token, TokenizerError>)
    requires src.Valid()
    modifies src
    ensures src.Valid() && (r, src.at) == ParseStringSpec(src.input, old(src.at))
  {
    ghost var at0 := src.at;
    var popC := src.Peek(1);
    if popC != '"' {
      return Err(IllegalChar2(src.pos, popC, "\""));
    }
    var c := src.Pop();
    var raw, val, unicode, mode := [c], "", "", Normal;
    while true
      invariant src.Valid() && AllHex(unicode)
      invariant StringLoop(src.input, src.at, StringScan(mode, raw, val, unicode)) == ParseStringSpec(src.input, at0)
      decreases |src.input| - src.at
    {
      ghost var s := StringScan(mode, raw, val, unicode);
      var nextC;
      popC, nextC := src.Peek(1), src.Peek(2);
      if popC == '\0' {
        return Err(IllegalChar2(src.pos, popC, "\""));
      }
      match mode {
        case Normal =>
          if popC == '"' {
            c := src.Pop();
            raw := raw + [c];
            break;
          } else if popC == '\\' {
            mode := if nextC == 'u' then Unicode else Slash;
            unicode := "";
          } else {
            val := val + [popC];
          }
        case Slash =>
          var realC := StringEscape(popC);
          if realC.None? {
            return Err(IllegalEscapeSequence(src.pos, ['\\', nextC]));
          }
          val := val + [realC.value];
          mode := Normal;
        case Unicode =>
          if |unicode| == 0 && popC == 'u' {
          } else if popC == ';' {
            var realC := DecodeHex(unicode);
            if realC.None? {
              return Err(IllegalEscapeSequence(src.pos, "\\u" + unicode));
            }
            val := val + [realC.value];
            mode := Normal;
          } else if IsHexDigit(popC) {
            unicode := unicode + [popC];
          } else {
            unicode := unicode + [popC];
            return Err(IllegalEscapeSequence(src.pos, "\\u" + unicode));
          }
      }
      c := src.Pop();
      raw := raw + [c];
    }
    r := Ok(StringValue(BlankSpan, raw, val));
  }

  // ---------------------------------------------------------------------
  // The text mode of RawTokenizer

  /**
   * The escape state after one text char, as `mode_text` writes it: the
   * branch meant to leave a `\uHEX;` escape tests `Slash`, which the branch
   * before it has already taken, so it never runs and `Unicode` is never left.
   */
  function NextEscapeAsWritten(c: char, escape: TextEscapeState): TextEscapeState
  {
    if c == '\\' && escape == Normal then Slash
    else if escape == Slash then (if c == 'u' then Unicode else Normal)
    else if escape == Slash && c == ';' then Normal
    else escape
  }

  /** The escape state after one text char, with the `;` that ends `\uHEX;` checked in `Unicode`. */
  function NextEscape(c: char, escape: TextEscapeState): (r: TextEscapeState)
    ensures escape == Normal ==> (r == Slash <==> c == '\\') && (r != Slash ==> r == Normal)
    ensures escape == Slash ==> r == (if c == 'u' then Unicode else Normal)
    ensures escape == Unicode ==> r == (if c == ';' then Normal else Unicode)
  {
    if c == '\\' && escape == Normal then Slash
    else if escape == Slash then (if c == 'u' then Unicode else Normal)
    else if escape == Unicode && c == ';' then Normal
    else escape
  }

  /** The escape state after a run of text chars. */
  function EscapeAfter(next: (char, TextEscapeState) -> TextEscapeState, escape: TextEscapeState, s: string): TextEscapeState
    decreases |s|
  {
    if s == [] then escape else EscapeAfter(next, next(s[0], escape), s[1..])
  }

  /** As written, no char ever leaves `Unicode`. */
  lemma {:induction false} UnicodeNeverLeft(s: string)
    ensures EscapeAfter(NextEscapeAsWritten, Unicode, s) == Unicode
    decreases |s|
  {
    if s != [] {
      UnicodeNeverLeft(s[1..]);
    }
  }

  /**
   * As written, text after `\u41;` stays in `Unicode`, so the `{` of
   * `\u41;{b}` is not a tag opener: `mode_text` keeps it as text.
   */
  lemma EscapeThenTagAsWritten()
    ensures EscapeAfter(NextEscapeAsWritten, Normal, "\\u41;") == Unicode
    ensures !EndsText('{', EscapeAfter(NextEscapeAsWritten, Normal, "\\u41;"), ';', 'b')
  {
    assert "\\u41;"[1..] == "u41;" && "u41;"[1..] == "41;";
    UnicodeNeverLeft("41;");
  }

  /** With `NextEscape`, a complete `\uHEX;` escape returns to `Normal`. */
  lemma UnicodeEscapeCloses(hex: string)
    requires AllHex(hex)
    ensures EscapeAfter(NextEscape, Normal, "\\u" + hex + ";") == Normal
  {
    var s := "\\u" + hex + ";";
    assert s[1..] == "u" + hex + ";" && s[1..][1..] == hex + ";";
    HexStaysUnicode(hex);
  }

  lemma {:induction false} HexStaysUnicode(hex: string)
    requires AllHex(hex)
    ensures EscapeAfter(NextEscape, Unicode, hex + ";") == Normal
    decreases |hex|
  {
    if hex == [] {
      assert (hex + ";")[1..] == [];
    } else {
      assert (hex + ";")[1..] == hex[1..] + ";";
      assert hex[0] != ';';
      HexStaysUnicode(hex[1..]);
    }
  }

  /**
   * Whether `mode_text` ends the text at `c`: a `{ } < |` outside an escape,
   * unless a space stands before it and a space or the end of input after it.
   */
  predicate EndsText(c: char, escape: TextEscapeState, lastC: char, nextC: char)
  {
    (c == '{' || c == '}' || c == '<' || c == '|') && escape == Normal && !((nextC == ' ' || nextC == '\0') && lastC == ' ')
  }

  /** The mode a char that ends text switches to. */
  function TagModeFor(c: char): Mode
  {
    match c
    case '{' => CurlyTagStartMode
    case '}' => CurlyTagEndMode
    case '<' => PointyTagStartMode
    case _ => PointyTagEndMode
  }

  /**
   * The state `RawTokenizer` keeps between chars.  Its reader is not part of
   * the object here: the methods that peek take the peeked chars as
   * parameters.
   */
  class Tokenizer {
    var txt: string
    var span: Span
    var state: Mode
    var result: Option<RawToken>
    var done: bool
    var repeatC: bool
    var insideTag: TagType

    /** The span covers exactly the bytes of the text collected so far. */
    ghost predicate SpanCoversText()
      reads this
    {
      span.Len() == ByteLen(txt)
    }

    /** `RawTokenizer::new`. */
    constructor ()
      ensures txt == "" && span == BlankSpan && state == InlineTextMode(Normal)
      ensures result.None? && !done && !repeatC && insideTag == NotTag
      ensures SpanCoversText()
    {
      txt, span, state := "", BlankSpan, InlineTextMode(Normal);
      result, done, repeatC, insideTag := None, false, false, NotTag;
    }

    /** `result_text`: an inline-text token, unless no text was collected. */
    method ResultText()
      modifies this`result
      ensures result == if |txt| > 0 then Some(RawInlineText(span, txt)) else old(result)
    {
      if |txt| > 0 {
        result := Some(RawInlineText(span, txt));
      }
    }

    /**
     * `mode_text`, with `lastC` and `nextC` the chars the reader shows before
     * and after `c`.  A char that ends the text emits it and switches to the
     * tag mode, to see the char again; any other char is collected, the span
     * grows over it, and the escape state moves on: by `NextEscapeAsWritten`,
     * the code as written, when `asWritten` holds, by `NextEscape` otherwise.
     */
    method ModeText(c: char, substate: TextEscapeState, lastC: char, nextC: char, asWritten: bool)
      modifies this`txt, this`span, this`state, this`result, this`repeatC
      ensures EndsText(c, substate, lastC, nextC) ==>
        && result == (if |old(txt)| > 0 then Some(RawInlineText(old(span), old(txt))) else old(result))
        && state == TagModeFor(c) && repeatC && txt == old(txt) && span == old(span)
      ensures !EndsText(c, substate, lastC, nextC) ==>
        && txt == old(txt) + [c] && span == old(span).Step(c)
        && state == InlineTextMode(if asWritten then NextEscapeAsWritten(c, substate) else NextEscape(c, substate))
        && result == old(result) && repeatC == old(repeatC)
      ensures old(SpanCoversText()) ==> SpanCoversText()
    {
      var escape := substate;
      var betweenSpaces := (nextC == ' ' || nextC == '\0') && lastC == ' ';
      if (c == '{' || c == '}' || c == '<' || c == '|') && escape == Normal && !betweenSpaces {
        ResultText();
        match c {
          case '{' => state := CurlyTagStartMode;
          case '}' => state := CurlyTagEndMode;
          case '<' => state := PointyTagStartMode;
          case _ => state := PointyTagEndMode;
        }
        repeatC := true;
      } else {
        assert (txt + [c])[..|txt|] == txt;
        txt := txt + [c];
        span := span.Step(c);
        escape := if asWritten then NextEscapeAsWritten(c, escape) else NextEscape(c, escape);
        state := InlineTextMode(escape);
      }
    }

    /** `mode_curly_end`: the span takes in the `}`, which is emitted; back to text, outside any tag. */
    method ModeCurlyEnd(c: char)
      modifies this`span, this`state, this`result, this`insideTag
      ensures span == old(span).Step(c) && span.start == old(span.start)
      ensures result == Some(RawCurlyTagEnd(span)) && state == InlineTextMode(Normal) && insideTag == NotTag
    {
      span := span.Step(c);
      state := InlineTextMode(Normal);
      result := Some(RawCurlyTagEnd(span));
      insideTag := NotTag;
    }
  }
}
