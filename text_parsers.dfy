/**
 * The text parsers of rust/src/token_parser_text.rs:20-156 and
 * rust/src/token_parser.rs:63-214: `parse_text_normal`, `parse_text_slash`,
 * `parse_text_unicode` and the `parse_text` loop that drives them.
 *
 * The two files hold the same parsers with two differences, which `Draft`
 * names: whether `parse_text_normal` pops the backslash that starts an escape
 * (token_parser_text.rs:38-39 does, token_parser.rs:81-87 does not), and
 * whether the whitespace rule is keyed on the char read (`c1`,
 * token_parser_text.rs:123-142) or on the char decoded (`val_c`,
 * token_parser.rs:165-184).
 *
 * Each loop is specified by a recursive function of the input and the loop's
 * state, one call per iteration; each method is proved to return what that
 * function says and to leave the cursor where it says.
 */
module TextParsers {
  import opened Wrappers
  import opened Positions
  import opened Utf8Source
  import opened Cursors
  import opened Escapes
  import opened TextWhitespace
  import Tokens
  import Prelude
  import Chars

  /** The escape state of the text loop; `Stop` ends it. */
  datatype TextState = Normal | Slash | Unicode | Stop

  /** What distinguishes the two drafts of the text parser. */
  datatype Draft = Draft(popsBackslash: bool, keyOnValue: bool)

  /** rust/src/token_parser_text.rs. */
  const TextDraft := Draft(true, false)

  /** rust/src/token_parser.rs as written: the backslash is left unpopped. */
  const TokenDraftAsWritten := Draft(false, true)

  /** rust/src/token_parser.rs with the backslash popped. */
  const TokenDraft := Draft(true, true)

  predicate IsSpecial(c: char)
  {
    c == '{' || c == '}' || c == '<' || c == '>' || c == '|'
  }

  /**
   * Text stops before a `{ } < > |` that is not flanked by spaces on both
   * sides, and before a `/` followed by `*`, which opens a comment.
   */
  predicate StopsText(last: char, pop: char, next: char)
  {
    (IsSpecial(pop) && (last != ' ' || next != ' ')) || (pop == '/' && next == '*')
  }

  // ---------------------------------------------------------------------
  // parse_text_normal

  /** What `parse_text_normal` does: the state it sets, the char it decodes, how many chars it pops. */
  datatype NormalOut = NormalOut(mode: TextState, val: Option<char>, popped: nat)

  function NormalSpec(input: seq<char>, at: nat, popsBackslash: bool): (r: NormalOut)
    ensures r.mode == Stop <==> StopsText(StreamAt(input, at - 1), StreamAt(input, at), StreamAt(input, at + 1))
    ensures r.mode == Stop ==> r.val.None? && r.popped == 0
    ensures r.mode == Normal ==> r.val == Some(StreamAt(input, at)) && r.popped == 1 && StreamAt(input, at) != '\\'
    ensures r.mode == Slash || r.mode == Unicode ==>
      && StreamAt(input, at) == '\\' && r.val.None?
      && r.popped == (if popsBackslash then 1 else 0)
      && (r.mode == Unicode <==> StreamAt(input, at + 1) == 'u')
  {
    var last, pop, next := StreamAt(input, at - 1), StreamAt(input, at), StreamAt(input, at + 1);
    if StopsText(last, pop, next) then NormalOut(Stop, None, 0)
    else if pop == '\\' then NormalOut(if next == 'u' then Unicode else Slash, None, if popsBackslash then 1 else 0)
    else NormalOut(Normal, Some(pop), 1)
  }

  /** `parse_text_normal`, over a cursor; `raw` collects the popped chars. */
  method ParseTextNormal(src: Cursor, raw: string, popsBackslash: bool) returns (val: Option<char>, raw': string, mode: TextState)
    requires src.Valid()
    modifies src
    ensures src.Valid()
    ensures var out := NormalSpec(src.input, old(src.at), popsBackslash);
      && mode == out.mode && val == out.val && src.at == old(src.at) + out.popped
      && raw' == raw + Slice(src.input, old(src.at), src.at)
  {
    raw' := raw;
    var lastC, popC, nextC := src.Peek(0), src.Peek(1), src.Peek(2);
    var popSpecial := popC == '{' || popC == '}' || popC == '<' || popC == '>' || popC == '|';
    if popSpecial && (lastC != ' ' || nextC != ' ') {
      return None, raw', Stop;
    }
    if popC == '/' && nextC == '*' {
      return None, raw', Stop;
    }
    if popC == '\\' && !popsBackslash {
      mode := if nextC == 'u' then Unicode else Slash;
      return None, raw', mode;
    }
    var c := src.Pop();
    raw' := raw' + [c];
    if popC == '\\' {
      mode := if nextC == 'u' then Unicode else Slash;
      return None, raw', mode;
    }
    return Some(popC), raw', Normal;
  }

  // ---------------------------------------------------------------------
  // parse_text_slash

  /**
   * What `parse_text_slash` returns: the char `\x` stands for, or
   * `IllegalEscapeSequence` at the current position with the two chars read.
   * It pops the escaped char only on success.
   */
  function SlashSpec(input: seq<char>, at: nat): (r: Result<char, Prelude.AnyError>)
    ensures r.Ok? <==> SpecialCharEscape(StreamAt(input, at - 1), StreamAt(input, at)).Some?
    ensures r.Err? ==> r.error == Prelude.IllegalEscapeSequence(StreamPos(input, at), [StreamAt(input, at - 1), StreamAt(input, at)])
  {
    var last, pop := StreamAt(input, at - 1), StreamAt(input, at);
    match SpecialCharEscape(last, pop)
    case Some(c) => Ok(c)
    case None => Err(Prelude.IllegalEscapeSequence(StreamPos(input, at), [last, pop]))
  }

  /** After a popped backslash, `\x` decodes through the inline-text table. */
  lemma SlashDecodes(input: seq<char>, at: nat)
    requires StreamAt(input, at - 1) == '\\'
    ensures var r := SlashSpec(input, at);
      && (r.Ok? <==> StreamAt(input, at) in "\"<>'\\`afnrstv{|}")
      && (r.Ok? ==> Some(r.value) == TextEscape(StreamAt(input, at)))
  {
  }

  /** `parse_text_slash`, over a cursor. */
  method ParseTextSlash(src: Cursor, raw: string) returns (r: Result<char, Prelude.AnyError>, raw': string)
    requires src.Valid()
    modifies src
    ensures src.Valid()
    ensures r == SlashSpec(src.input, old(src.at))
    ensures src.at == old(src.at) + (if r.Ok? then 1 else 0)
    ensures raw' == raw + Slice(src.input, old(src.at), src.at)
  {
    raw' := raw;
    var lastC, popC := src.Peek(0), src.Peek(1);
    var realC := SpecialCharEscape(lastC, popC);
    if realC.Some? {
      var c := src.Pop();
      raw' := raw' + [c];
      return Ok(realC.value), raw';
    }
    return Err(Prelude.IllegalEscapeSequence(src.pos, [lastC, popC])), raw';
  }

  // ---------------------------------------------------------------------
  // parse_text_unicode

  /**
   * The loop of `parse_text_unicode` from `at`, with hex digits `buf` and
   * error text `msg` so far.  Every iteration pops a char first; a leading
   * `u` is skipped, `;` ends the escape and decodes it, a hex digit is
   * collected, and anything else is an error.  Returns the result and the
   * number of chars popped by then.
   */
  function UnicodeLoop(input: seq<char>, at: nat, buf: string, msg: string): (r: (Result<char, Prelude.AnyError>, nat))
    requires AllHex(buf)
    ensures at < r.1
    ensures r.0.Ok? ==> r.1 <= |input| && input[r.1 - 1] == ';'
    ensures r.0.Err? ==> r.0.error.IllegalEscapeSequence? && r.0.error.pos == StreamPos(input, r.1)
    decreases |input| - at
  {
    var c := StreamAt(input, at);
    var msg' := msg + [c];
    if |buf| == 0 && c == 'u' then UnicodeLoop(input, at + 1, buf, msg')
    else if c == ';' then
      match DecodeHex(buf)
      case Some(v) => (Ok(v), at + 1)
      case None => (Err(Prelude.IllegalEscapeSequence(StreamPos(input, at + 1), msg')), at + 1)
    else if IsHexDigit(c) then UnicodeLoop(input, at + 1, buf + [c], msg')
    else (Err(Prelude.IllegalEscapeSequence(StreamPos(input, at + 1), msg')), at + 1)
  }

  /** The error text is the backslash and every char the escape popped. */
  lemma {:induction false} UnicodeErrorText(input: seq<char>, at: nat, buf: string, msg: string)
    requires AllHex(buf)
    ensures var (r, end) := UnicodeLoop(input, at, buf, msg);
      r.Err? ==> r.error.text == msg + Slice(input, at, end)
    decreases |input| - at
  {
    var c := StreamAt(input, at);
    var end := UnicodeLoop(input, at, buf, msg).1;
    assert Slice(input, at, end) == [c] + Slice(input, at + 1, end);
    if |buf| == 0 && c == 'u' {
      UnicodeErrorText(input, at + 1, buf, msg + [c]);
    } else if c == ';' {
    } else if IsHexDigit(c) {
      UnicodeErrorText(input, at + 1, buf + [c], msg + [c]);
    }
  }

  /** Hex digits then `;`: the escape decodes exactly when the digits spell a scalar value. */
  lemma {:induction false} UnicodeDigits(input: seq<char>, at: nat, buf: string, msg: string, hex: string)
    requires AllHex(buf) && AllHex(hex)
    requires at + |hex| < |input| && input[at..at + |hex|] == hex && input[at + |hex|] == ';'
    ensures var (r, end) := UnicodeLoop(input, at, buf, msg);
      && end == at + |hex| + 1
      && (r.Ok? <==> DecodeHex(buf + hex).Some?)
      && (r.Ok? ==> r.value == DecodeHex(buf + hex).value)
    decreases |hex|
  {
    if hex == [] {
      assert buf + hex == buf;
    } else {
      var c := input[at];
      assert c == hex[0] && IsHexDigit(c);
      assert input[at + 1..at + 1 + |hex[1..]|] == hex[1..];
      UnicodeDigits(input, at + 1, buf + [c], msg + [c], hex[1..]);
      assert buf + [c] + hex[1..] == buf + hex;
    }
  }

  /** A `u` then hex digits then `;`: the form of a `\uHEX;` escape after its backslash. */
  lemma UnicodeEscape(input: seq<char>, at: nat, hex: string)
    requires AllHex(hex)
    requires at + |hex| + 1 < |input| && input[at] == 'u'
    requires input[at + 1..at + 1 + |hex|] == hex && input[at + 1 + |hex|] == ';'
    ensures var (r, end) := UnicodeLoop(input, at, "", "\\");
      && end == at + |hex| + 2
      && (r.Ok? <==> DecodeHex(hex).Some?)
      && (r.Ok? ==> r.value == DecodeHex(hex).value)
  {
    assert StreamAt(input, at) == 'u' && "\\" + ['u'] == "\\u";
    assert UnicodeLoop(input, at, "", "\\") == UnicodeLoop(input, at + 1, "", "\\u");
    UnicodeDigits(input, at + 1, "", "\\u", hex);
    assert "" + hex == hex;
  }

  /** `parse_text_unicode`, over a cursor. */
  method ParseTextUnicode(src: Cursor, raw: string) returns (r: Result<char, Prelude.AnyError>, raw': string)
    requires src.Valid()
    modifies src
    ensures src.Valid()
    ensures (r, src.at) == UnicodeLoop(src.input, old(src.at), "", "\\")
    ensures raw' == raw + Slice(src.input, old(src.at), src.at)
  {
    raw' := raw;
    ghost var at0 := src.at;
    var bufUnicode, errMsg := "", "\\";
    while true
      invariant src.Valid() && AllHex(bufUnicode) && at0 <= src.at
      invariant UnicodeLoop(src.input, src.at, bufUnicode, errMsg) == UnicodeLoop(src.input, at0, "", "\\")
      invariant raw' == raw + Slice(src.input, at0, src.at)
      decreases |src.input| - src.at
    {
      var popC := src.Peek(1);
      errMsg := errMsg + [popC];
      var c := src.Pop();
      SliceStep(src.input, at0, src.at - 1);
      raw' := raw' + [c];
      if |bufUnicode| == 0 && popC == 'u' {
      } else if popC == ';' {
        var realC := DecodeHex(bufUnicode);
        if realC.None? {
          return Err(Prelude.IllegalEscapeSequence(src.pos, errMsg)), raw';
        }
        return Ok(realC.value), raw';
      } else if IsHexDigit(popC) {
        bufUnicode := bufUnicode + [popC];
      } else {
        return Err(Prelude.IllegalEscapeSequence(src.pos, errMsg)), raw';
      }
    }
  }

  /** `\u1F4DA;` decodes to U+1F4DA and pops the whole escape. */
  lemma UnicodeExample(input: string)
    requires input == "\\u1F4DA;"
    ensures UnicodeLoop(input, 1, "", "\\") == (Ok('\U{1F4DA}'), 8)
  {
    assert input[2..7] == "1F4DA";
    UnicodeEscape(input, 1, "1F4DA");
    DecodeHexExamples();
  }

  /** A lone high surrogate `\uD801;` is an error after its `;`, quoting the escape. */
  lemma SurrogateExample(input: string)
    requires input == "\\uD801;\\uDC37;"
    ensures UnicodeLoop(input, 1, "", "\\") == (Err(Prelude.IllegalEscapeSequence(Position(7, 1, 7), "\\uD801;")), 7)
  {
    assert input[2..6] == "D801";
    UnicodeEscape(input, 1, "D801");
    DecodeHexExamples();
    UnicodeErrorText(input, 1, "", "\\");
    SliceInside(input, 1, 7);
    assert "\\" + input[1..7] == "\\uD801;";
    AsciiLinePos(input, 7);
  }

  // ---------------------------------------------------------------------
  // parse_text

  /** The locals of `parse_text`'s loop: chars popped, escape state, raw text, parsed text. */
  datatype TextScan = TextScan(at: nat, mode: TextState, raw: string, text: WsText)

  /** What `parse_text` collected when its loop ended, and where. */
  datatype TextOut = TextOut(raw: string, parsed: string, end: nat)

  /** A decoded char goes through the whitespace rule, keyed as the draft says; no break is kept on an empty text. */
  function Feed(t: WsText, draft: Draft, c1: char, val: char): (r: WsText)
    requires t.Valid()
    ensures r.Valid()
  {
    Push(t, if draft.keyOnValue then val else c1, val, false)
  }

  function Rank(mode: TextState): nat
  {
    if mode == Normal then 1 else 0
  }

  /** One iteration of `parse_text`'s loop. */
  function TextStep(input: seq<char>, s: TextScan, draft: Draft): (r: Step<TextScan, Result<TextOut, Prelude.AnyError>>)
    requires s.text.Valid()
    ensures r.Continue? ==>
      && r.next.text.Valid() && s.at <= r.next.at <= |input|
      && r.next.raw == s.raw + Slice(input, s.at, r.next.at)
      && (s.at < r.next.at || (s.mode == Normal && r.next.mode != Normal))
      && (r.next.mode == Stop ==> StopsText(StreamAt(input, r.next.at - 1), StreamAt(input, r.next.at), StreamAt(input, r.next.at + 1)))
    ensures r.Exit? && r.result.Ok? ==>
      r.result.value == TextOut(s.raw, s.text.parsed, s.at) && (StreamAt(input, s.at) == '\0' || s.mode == Stop)
  {
    var c1 := StreamAt(input, s.at);
    if c1 == '\0' then Exit(Ok(TextOut(s.raw, s.text.parsed, s.at)))
    else
      match s.mode
      case Stop => Exit(Ok(TextOut(s.raw, s.text.parsed, s.at)))
      case Normal =>
        var out := NormalSpec(input, s.at, draft.popsBackslash);
        var text := if out.val.Some? then Feed(s.text, draft, c1, out.val.value) else s.text;
        Continue(TextScan(s.at + out.popped, out.mode, s.raw + Slice(input, s.at, s.at + out.popped), text))
      case Slash =>
        (match SlashSpec(input, s.at)
         case Err(e) => Exit(Err(e))
         case Ok(v) => Continue(TextScan(s.at + 1, Normal, s.raw + Slice(input, s.at, s.at + 1), Feed(s.text, draft, c1, v))))
      case Unicode =>
        match UnicodeLoop(input, s.at, "", "\\")
        case (Err(e), _) => Exit(Err(e))
        case (Ok(v), end) => Continue(TextScan(end, Normal, s.raw + Slice(input, s.at, end), Feed(s.text, draft, c1, v)))
  }

  function TextLoop(input: seq<char>, s: TextScan, draft: Draft): Result<TextOut, Prelude.AnyError>
    requires s.text.Valid()
    decreases |input| - s.at, Rank(s.mode)
  {
    match TextStep(input, s, draft)
    case Continue(s') => TextLoop(input, s', draft)
    case Exit(r) => r
  }

  /** The loop goes on from where a step continues. */
  lemma LoopContinues(input: seq<char>, s: TextScan, draft: Draft, s': TextScan)
    requires s.text.Valid() && TextStep(input, s, draft) == Continue(s')
    ensures TextLoop(input, s, draft) == TextLoop(input, s', draft)
  {
  }

  /** A text that parses on from where a step continues parses from before that step, the step's chars prefixed to its raw text. */
  lemma LoopContinuesFrom(input: seq<char>, s: TextScan, s': TextScan, draft: Draft)
    requires s.text.Valid() && TextStep(input, s, draft) == Continue(s')
    requires var r := TextLoop(input, s', draft);
      r.Ok? ==> s'.at <= r.value.end && r.value.raw == s'.raw + Slice(input, s'.at, r.value.end)
    ensures var r := TextLoop(input, s, draft);
      && r == TextLoop(input, s', draft)
      && (r.Ok? ==> s.at <= r.value.end && r.value.raw == s.raw + Slice(input, s.at, r.value.end))
  {
    LoopContinues(input, s, draft, s');
    var r := TextLoop(input, s', draft);
    if r.Ok? {
      SliceAppend(input, s.at, s'.at, r.value.end);
    }
  }

  /** Where a step exits with a text, the loop ends there, with nothing more popped. */
  lemma LoopExits(input: seq<char>, s: TextScan, draft: Draft)
    requires s.text.Valid() && TextStep(input, s, draft).Exit?
    ensures var r := TextLoop(input, s, draft);
      && r == TextStep(input, s, draft).result
      && (r.Ok? ==> r.value.end == s.at && r.value.raw == s.raw + Slice(input, s.at, s.at)
                    && (StreamAt(input, s.at) == '\0' || s.mode == Stop))
  {
    assert Slice(input, s.at, s.at) == [];
  }

  /** `parse_text` starts in `Normal` with nothing collected. */
  function TextStart(at: nat): TextScan
  {
    TextScan(at, Normal, "", TextWhitespace.Empty)
  }

  /**
   * Text that parses: `raw` is the chars popped, and the text stops at the
   * end of input or before a char that `StopsText`.
   */
  lemma {:induction false} TextLoopResult(input: seq<char>, s: TextScan, draft: Draft)
    requires s.text.Valid()
    requires s.mode == Stop ==> StopsText(StreamAt(input, s.at - 1), StreamAt(input, s.at), StreamAt(input, s.at + 1))
    ensures var r := TextLoop(input, s, draft);
      r.Ok? ==>
        && s.at <= r.value.end && r.value.raw == s.raw + Slice(input, s.at, r.value.end)
        && (StreamAt(input, r.value.end) == '\0'
            || StopsText(StreamAt(input, r.value.end - 1), StreamAt(input, r.value.end), StreamAt(input, r.value.end + 1)))
    decreases |input| - s.at, Rank(s.mode)
  {
    var st := TextStep(input, s, draft);
    if st.Continue? {
      var s' := st.next;
      TextLoopResult(input, s', draft);
      LoopContinuesFrom(input, s, s', draft);
    } else {
      LoopExits(input, s, draft);
    }
  }

  /** The span of a text token covers exactly the bytes of its raw text. */
  lemma TextSpanCoversRaw(input: seq<char>, at: nat, draft: Draft)
    ensures var r := TextLoop(input, TextStart(at), draft);
      r.Ok? ==> Span(StreamPos(input, at), StreamPos(input, r.value.end)).Len() == ByteLen(r.value.raw)
  {
    TextLoopResult(input, TextStart(at), draft);
    var r := TextLoop(input, TextStart(at), draft);
    if r.Ok? {
      assert "" + Slice(input, at, r.value.end) == Slice(input, at, r.value.end);
      SpanOfSlice(input, at, r.value.end);
    }
  }

  /**
   * Plain text, with no escape, no stop char and no line break: it runs to
   * the end of input without error, `raw` is all of it, and so is the parsed
   * text once a visible char has been seen.
   */
  lemma {:induction false} PlainText(input: seq<char>, s: TextScan, draft: Draft)
    requires s.text.Valid() && s.mode == Normal && s.at <= |input| && s.text.ws == GotFirst
    requires forall k :: s.at <= k < |input| ==> !Chars.IsReservedChar(input[k]) && input[k] !in "/\n\0"
    ensures TextLoop(input, s, draft) == Ok(TextOut(s.raw + input[s.at..], s.text.parsed + input[s.at..], |input|))
    decreases |input| - s.at
  {
    if s.at < |input| {
      var c := input[s.at];
      assert c !in "\\{}<>|/\n\0";
      var s' := TextScan(s.at + 1, Normal, s.raw + [c], Feed(s.text, draft, c, c));
      assert Slice(input, s.at, s.at + 1) == [c];
      assert TextStep(input, s, draft) == Continue(s');
      PlainText(input, s', draft);
      assert input[s.at..] == [c] + input[s.at + 1..];
      assert s'.raw + input[s.at + 1..] == s.raw + input[s.at..];
      assert s'.text.parsed + input[s.at + 1..] == s.text.parsed + input[s.at..];
    } else {
      assert input[s.at..] == [];
      assert s.raw + input[s.at..] == s.raw && s.text.parsed + input[s.at..] == s.text.parsed;
    }
  }

  /**
   * The two keys differ on an escaped blank: keyed on the char read, `\s`
   * is the visible `s` and is kept after a line break; keyed on the char
   * decoded, it is a space and is dropped there.
   */
  lemma EscapedBlankKeys(t: WsText)
    requires t.Valid() && t.ws == NewLine
    ensures Feed(t, TextDraft, 's', ' ') == WsText(t.parsed + [' '], GotFirst, |t.parsed| + 1)
    ensures Feed(t, TokenDraft, 's', ' ') == t
  {
  }

  /**
   * As written in rust/src/token_parser.rs, `parse_text_normal` leaves the
   * backslash of `\u` unpopped, so `parse_text_unicode` pops the backslash
   * as its first char, which is neither `u`, `;` nor a hex digit: every
   * `\uHEX;` escape is an error, reported after the backslash.
   */
  lemma UnpoppedBackslashFails(input: seq<char>, s: TextScan)
    requires s.text.Valid() && s.mode == Normal && s.at + 1 < |input|
    requires input[s.at] == '\\' && input[s.at + 1] == 'u'
    ensures TextLoop(input, s, TokenDraftAsWritten) == Err(Prelude.IllegalEscapeSequence(StreamPos(input, s.at + 1), "\\\\"))
  {
    assert !StopsText(StreamAt(input, s.at - 1), StreamAt(input, s.at), StreamAt(input, s.at + 1));
    var s' := TextScan(s.at, Unicode, s.raw + Slice(input, s.at, s.at), s.text);
    assert TextStep(input, s, TokenDraftAsWritten) == Continue(s');
    assert UnicodeLoop(input, s.at, "", "\\") == (Err(Prelude.IllegalEscapeSequence(StreamPos(input, s.at + 1), "\\" + ['\\'])), s.at + 1);
    assert "\\" + ['\\'] == "\\\\";
  }

  /**
   * With the backslash popped, a `\uHEX;` escape whose digits spell a scalar
   * value is consumed whole and decodes to that char, keyed under the `u`.
   */
  lemma PoppedEscapeDecodes(input: seq<char>, s: TextScan, draft: Draft, hex: string)
    requires draft.popsBackslash && s.text.Valid() && s.mode == Normal
    requires AllHex(hex) && DecodeHex(hex).Some?
    requires s.at + |hex| + 2 < |input| && input[s.at] == '\\' && input[s.at + 1] == 'u'
    requires input[s.at + 2..s.at + 2 + |hex|] == hex && input[s.at + 2 + |hex|] == ';'
    ensures var end := s.at + |hex| + 3;
      TextLoop(input, s, draft)
      == TextLoop(input, TextScan(end, Normal, s.raw + input[s.at..end], Feed(s.text, draft, 'u', DecodeHex(hex).value)), draft)
  {
    var end := s.at + |hex| + 3;
    assert !StopsText(StreamAt(input, s.at - 1), StreamAt(input, s.at), StreamAt(input, s.at + 1));
    var s1 := TextScan(s.at + 1, Unicode, s.raw + Slice(input, s.at, s.at + 1), s.text);
    assert TextStep(input, s, draft) == Continue(s1);
    assert TextLoop(input, s, draft) == TextLoop(input, s1, draft);
    UnicodeEscape(input, s.at + 1, hex);
    var v := DecodeHex(hex).value;
    assert StreamAt(input, s.at + 1) == 'u';
    var s2 := TextScan(end, Normal, s1.raw + Slice(input, s.at + 1, end), Feed(s.text, draft, 'u', v));
    assert TextStep(input, s1, draft) == Continue(s2);
    assert TextLoop(input, s1, draft) == TextLoop(input, s2, draft);
    SliceAppend(input, s.at, s.at + 1, end);
    SliceInside(input, s.at, end);
    assert s2.raw == s.raw + input[s.at..end];
  }

  /** On `\u41;`, as written: an error, reported after the backslash. */
  lemma EscapeExampleAsWritten(input: string)
    requires input == "\\u41;"
    ensures TextLoop(input, TextStart(0), TokenDraftAsWritten) == Err(Prelude.IllegalEscapeSequence(Position(1, 1, 1), "\\\\"))
  {
    assert input[0] == '\\' && input[1] == 'u';
    UnpoppedBackslashFails(input, TextStart(0));
    assert StreamPos(input, 1) == Start.Walk('\\');
  }

  /** On `\u41;`, with the backslash popped: the letter `A`. */
  lemma EscapeExample(input: string)
    requires input == "\\u41;"
    ensures TextLoop(input, TextStart(0), TokenDraft) == Ok(TextOut(input, "A", 5))
  {
    assert DecodeHex("41") == Some('A') by {
      assert "41"[..1] == "4";
      assert HexValue("41") == 0x41;
    }
    assert input[2..4] == "41";
    PoppedEscapeDecodes(input, TextStart(0), TokenDraft, "41");
    var t := Feed(TextWhitespace.Empty, TokenDraft, 'u', 'A');
    assert t.parsed == "A";
    var s := TextScan(5, Normal, "" + input[0..5], t);
    assert "" + input[0..5] == input;
    assert StreamAt(input, 5) == '\0';
    assert TextStep(input, s, TokenDraft) == Exit(Ok(TextOut(input, "A", 5)));
  }

  /** One pass of `parse_text`'s loop body over a cursor: it does what `TextStep` says, or reports the exit. */
  method TextIteration(src: Cursor, mode: TextState, raw: string, text: WsText, draft: Draft)
    returns (exit: Option<Result<TextOut, Prelude.AnyError>>, mode': TextState, raw': string, text': WsText)
    requires src.Valid() && text.Valid()
    modifies src
    ensures src.Valid() && text'.Valid()
    ensures var st := TextStep(src.input, TextScan(old(src.at), mode, raw, text), draft);
      && (exit.None? <==> st.Continue?)
      && (exit.None? ==> st.next == TextScan(src.at, mode', raw', text'))
      && (exit.Some? && exit.value.Err? ==> st == Exit(exit.value))
      && (exit.Some? && exit.value.Ok? ==> st.Exit? && st.result.Ok? && src.at == old(src.at) && raw' == raw && text' == text)
  {
    var c1 := src.Peek(1);
    mode', raw', text' := mode, raw, text;
    if c1 == '\0' {
      mode' := Stop;
    }
    var val: Option<char>;
    match mode' {
      case Normal =>
        val, raw', mode' := ParseTextNormal(src, raw, draft.popsBackslash);
      case Slash =>
        var res;
        res, raw' := ParseTextSlash(src, raw);
        if res.Err? {
          return Some(Err(res.error)), mode', raw', text';
        }
        val, mode' := Some(res.value), Normal;
      case Unicode =>
        var res;
        res, raw' := ParseTextUnicode(src, raw);
        if res.Err? {
          return Some(Err(res.error)), mode', raw', text';
        }
        val, mode' := Some(res.value), Normal;
      case Stop =>
        return Some(Ok(TextOut(raw, text.parsed, src.at))), mode', raw', text';
    }
    if val.Some? {
      text' := Feed(text, draft, c1, val.value);
    }
    exit := None;
  }

  /** `parse_text` over a cursor, up to the token it builds: the loop, then the span from start to end. */
  method ParseTextLoop(src: Cursor, draft: Draft) returns (r: Result<Tokens.Token, Prelude.AnyError>)
    requires src.Valid()
    modifies src
    ensures src.Valid()
    ensures var out := TextLoop(src.input, TextStart(old(src.at)), draft);
      && (r.Ok? <==> out.Ok?)
      && (r.Err? ==> r.error == out.error)
      && (r.Ok? ==> src.at == out.value.end && r.value == Tokens.Token(Span(old(src.pos), src.pos), out.value.raw, Tokens.Text(out.value.parsed)))
  {
    var mode, raw, text := Normal, "", TextWhitespace.Empty;
    var start := src.pos;
    ghost var at0 := src.at;
    while true
      invariant src.Valid() && text.Valid()
      invariant TextLoop(src.input, TextScan(src.at, mode, raw, text), draft) == TextLoop(src.input, TextStart(at0), draft)
      decreases |src.input| - src.at, Rank(mode)
    {
      ghost var s := TextScan(src.at, mode, raw, text);
      var exit;
      exit, mode, raw, text := TextIteration(src, mode, raw, text, draft);
      if exit.Some? {
        if exit.value.Err? {
          return Err(exit.value.error);
        }
        break;
      }
      LoopContinues(src.input, s, draft, TextScan(src.at, mode, raw, text));
    }
    r := Ok(Tokens.Token(Span(start, src.pos), raw, Tokens.Text(text.parsed)));
  }

  /** `parse_text` of rust/src/token_parser_text.rs. */
  method ParseText(src: Cursor) returns (r: Result<Tokens.Token, Prelude.AnyError>)
    requires src.Valid()
    modifies src
    ensures src.Valid()
    ensures var out := TextLoop(src.input, TextStart(old(src.at)), TextDraft);
      && (r.Ok? <==> out.Ok?)
      && (r.Err? ==> r.error == out.error)
      && (r.Ok? ==> src.at == out.value.end && r.value == Tokens.Token(Span(old(src.pos), src.pos), out.value.raw, Tokens.Text(out.value.parsed)))
  {
    r := ParseTextLoop(src, TextDraft);
  }
}
