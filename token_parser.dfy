/**
 * The token loop of rust/src/token_parser.rs: `parse_text` with the state it
 * hands on, `parse_next_token`, and the `Tokenizer` with its one-token
 * lookback (`next`, `unnext`).
 *
 * Only the `Normal` state has a parser; every other state reaches an
 * `unreachable!()`, modelled as a `Panics` completion.  The text loop is the
 * one of the `TextParsers` module, keyed on the decoded char; every member
 * takes the `Draft` it runs.  `TokenDraftAsWritten` is the code as written,
 * which leaves the backslash of an escape unpopped (so every `\uHEX;` fails,
 * see `UnpoppedBackslashFails` there); `TokenDraft` pops it.
 */
module TokenParser {
  import opened Wrappers
  import opened Positions
  import opened Utf8Source
  import opened Cursors
  import TextParsers
  import Tokens
  import Prelude
  import TextWhitespace

  /** The message of Rust's `unreachable!()`. */
  const Unreachable := "internal error: entered unreachable code"

  /**
   * The state that follows a text, chosen by the char that stopped it; any
   * other char, the end of input included, is a `FauxPanic`.
   */
  function NextState(c: char): (r: Result<Tokens.TokenizerState, Prelude.AnyError>)
    ensures r.Ok? <==> c in "{}<|/`"
    ensures r.Ok? ==> r.value != Tokens.Normal
    ensures r.Ok? ==> (r.value == Tokens.CodeBlockState <==> c == '`') && (r.value == Tokens.CommentState <==> c == '/')
    ensures r.Ok? ==> (r.value.PointyTagHead? <==> c in "<|") && (r.value.PointyTagHead? ==> r.value.open == c)
    ensures r.Err? ==> r.error.FauxPanic?
  {
    match c
    case '{' => Ok(Tokens.CurlyTagHead)
    case '}' => Ok(Tokens.CurlyTagEnd)
    case '<' => Ok(Tokens.PointyTagHead(c))
    case '|' => Ok(Tokens.PointyTagHead(c))
    case '/' => Ok(Tokens.CommentState)
    case '`' => Ok(Tokens.CodeBlockState)
    case _ => Err(Prelude.FauxPanic("unhandled state transition"))
  }

  /** What `parse_text` returns, the state it leaves, and where the cursor stands after a token. */
  datatype TextToken = TextToken(result: Result<Tokens.Token, Prelude.AnyError>, state: Tokens.TokenizerState, end: nat)

  /**
   * `parse_text`: the state is reset to `Normal`, the text loop runs, and
   * the char after the text picks the next state.  A token spans exactly the
   * bytes of its raw text and always leaves a state other than `Normal`; an
   * error leaves `Normal`.
   */
  function TokenText(input: seq<char>, at: nat, draft: TextParsers.Draft): (r: TextToken)
    ensures r.result.Ok? ==>
      && r.state != Tokens.Normal && at <= r.end
      && r.result.value.span == Span(StreamPos(input, at), StreamPos(input, r.end))
      && r.result.value.span.Len() == ByteLen(r.result.value.raw)
      && r.result.value.raw == Slice(input, at, r.end)
    ensures r.result.Err? ==> r.state == Tokens.Normal
  {
    TextParsers.TextSpanCoversRaw(input, at, draft);
    TextParsers.TextLoopResult(input, TextParsers.TextStart(at), draft);
    match TextParsers.TextLoop(input, TextParsers.TextStart(at), draft)
    case Err(e) => TextToken(Err(e), Tokens.Normal, at)
    case Ok(out) =>
      assert "" + Slice(input, at, out.end) == Slice(input, at, out.end);
      match NextState(StreamAt(input, out.end))
      case Err(e) => TextToken(Err(e), Tokens.Normal, out.end)
      case Ok(st) =>
        var span := Span(StreamPos(input, at), StreamPos(input, out.end));
        TextToken(Ok(Tokens.Token(span, out.raw, Tokens.Text(out.parsed))), st, out.end)
  }

  /** A text token stops before one of `{ } < | /`: a backtick never stops text, so no code block follows. */
  lemma TextTokenStops(input: seq<char>, at: nat, draft: TextParsers.Draft)
    ensures var r := TokenText(input, at, draft);
      r.result.Ok? ==> StreamAt(input, r.end) in "{}<|/" && r.state != Tokens.CodeBlockState
  {
    var r := TextParsers.TextLoop(input, TextParsers.TextStart(at), draft);
    if r.Ok? {
      TextParsers.TextLoopResult(input, TextParsers.TextStart(at), draft);
      var e := r.value.end;
      var c := StreamAt(input, e);
      assert c != '`' by {
        if c != '\0' {
          assert TextParsers.StopsText(StreamAt(input, e as int - 1), c, StreamAt(input, e + 1));
        }
      }
      assert NextState(c).Ok? ==> NextState(c).value != Tokens.CodeBlockState;
    }
  }

  /** Text that runs to the end of input is never a token: the end of input has no next state. */
  lemma PlainTextIsFauxPanic(input: seq<char>, at: nat, draft: TextParsers.Draft)
    requires at <= |input|
    requires forall k :: at <= k < |input| ==> input[k] !in "\\{}<>|/\n\0"
    ensures TokenText(input, at, draft).result.Err? && TokenText(input, at, draft).result.error.FauxPanic?
  {
    TextParsers.PlainText(input, TextParsers.TextStart(at), draft);
    assert StreamAt(input, |input|) == '\0' && NextState('\0').Err?;
  }

  /** `>` stops text but has no next state, so text before a `>` is a `FauxPanic` too. */
  lemma CloseAngleIsFauxPanic(input: seq<char>, at: nat, draft: TextParsers.Draft)
    ensures var r := TextParsers.TextLoop(input, TextParsers.TextStart(at), draft);
      r.Ok? && StreamAt(input, r.value.end) == '>' ==> TokenText(input, at, draft).result == Err(Prelude.FauxPanic("unhandled state transition"))
  {
  }

  /** A char that is neither special, an escape, a slash, a blank nor NUL. */
  predicate Plain(c: char)
  {
    && c != '\\' && c != '{' && c != '}' && c != '<' && c != '>' && c != '|' && c != '/'
    && c != '\n' && c != '\0' && c != ' ' && c != '\t'
  }

  /** One plain char, read in `Normal` after a visible one, is appended as it is. */
  lemma PlainStep(input: seq<char>, at: nat, raw: string, parsed: string, draft: TextParsers.Draft)
    requires at < |input| && Plain(input[at])
    ensures var d := draft;
      TextParsers.TextStep(input, TextParsers.TextScan(at, TextParsers.Normal, raw, TextWhitespace.WsText(parsed, TextWhitespace.GotFirst, |parsed|)), d)
      == Continue(TextParsers.TextScan(at + 1, TextParsers.Normal, raw + [input[at]], TextWhitespace.WsText(parsed + [input[at]], TextWhitespace.GotFirst, |parsed| + 1)))
  {
    assert Slice(input, at, at + 1) == [input[at]];
  }

  /** One plain char, read in `Normal` after a visible one: the loop goes on after it. */
  lemma PlainLoop(input: seq<char>, s: TextParsers.TextScan, c: char, draft: TextParsers.Draft)
    requires s.mode == TextParsers.Normal && s.text == TextWhitespace.WsText(s.text.parsed, TextWhitespace.GotFirst, |s.text.parsed|)
    requires s.at < |input| && input[s.at] == c && Plain(c)
    ensures var d := draft;
      TextParsers.TextLoop(input, s, d)
      == TextParsers.TextLoop(input, TextParsers.TextScan(s.at + 1, TextParsers.Normal, s.raw + [c], TextWhitespace.WsText(s.text.parsed + [c], TextWhitespace.GotFirst, |s.text.parsed| + 1)), d)
  {
    PlainStep(input, s.at, s.raw, s.text.parsed, draft);
    TextParsers.LoopContinues(input, s, draft,
      TextParsers.TextScan(s.at + 1, TextParsers.Normal, s.raw + [c], TextWhitespace.WsText(s.text.parsed + [c], TextWhitespace.GotFirst, |s.text.parsed| + 1)));
  }

  /** The text loop on `abc` then a comment opener stops before the `/`. */
  lemma CommentExampleText(input: string, draft: TextParsers.Draft)
    requires |input| >= 5 && input[0] == 'a' && input[1] == 'b' && input[2] == 'c' && input[3] == '/' && input[4] == '*'
    ensures TextParsers.TextLoop(input, TextParsers.TextStart(0), draft) == Ok(TextParsers.TextOut("abc", "abc", 3))
  {
    var s0 := TextParsers.TextStart(0);
    var s1 := TextParsers.TextScan(1, TextParsers.Normal, "a", TextWhitespace.WsText("a", TextWhitespace.GotFirst, 1));
    var s2 := TextParsers.TextScan(2, TextParsers.Normal, "ab", TextWhitespace.WsText("ab", TextWhitespace.GotFirst, 2));
    var s3 := TextParsers.TextScan(3, TextParsers.Normal, "abc", TextWhitespace.WsText("abc", TextWhitespace.GotFirst, 3));
    assert TextParsers.TextLoop(input, s0, draft) == TextParsers.TextLoop(input, s1, draft) by {
      assert "" + ['a'] == "a";
      PlainLoop(input, s0, 'a', draft);
    }
    assert TextParsers.TextLoop(input, s1, draft) == TextParsers.TextLoop(input, s2, draft) by {
      assert "a" + ['b'] == "ab";
      PlainLoop(input, s1, 'b', draft);
    }
    assert TextParsers.TextLoop(input, s2, draft) == TextParsers.TextLoop(input, s3, draft) by {
      assert "ab" + ['c'] == "abc";
      PlainLoop(input, s2, 'c', draft);
    }
    CommentExampleStop(input, draft);
  }

  /** `/` then `*` stops the text: the loop ends where it stands. */
  lemma CommentExampleStop(input: string, draft: TextParsers.Draft)
    requires |input| >= 5 && input[0] == 'a' && input[1] == 'b' && input[2] == 'c' && input[3] == '/' && input[4] == '*'
    ensures var s3 := TextParsers.TextScan(3, TextParsers.Normal, "abc", TextWhitespace.WsText("abc", TextWhitespace.GotFirst, 3));
      TextParsers.TextLoop(input, s3, draft) == Ok(TextParsers.TextOut("abc", "abc", 3))
  {
    var s3 := TextParsers.TextScan(3, TextParsers.Normal, "abc", TextWhitespace.WsText("abc", TextWhitespace.GotFirst, 3));
    var s4 := TextParsers.TextScan(3, TextParsers.Stop, "abc", s3.text);
    assert Slice(input, 3, 3) == "" && "abc" + Slice(input, 3, 3) == "abc";
    assert StreamAt(input, 3) == '/' && StreamAt(input, 4) == '*';
    assert TextParsers.NormalSpec(input, 3, draft.popsBackslash) == TextParsers.NormalOut(TextParsers.Stop, None, 0);
    assert TextParsers.TextStep(input, s3, draft) == Continue(s4);
    TextParsers.LoopContinues(input, s3, draft, s4);
    assert TextParsers.TextStep(input, s4, draft) == Exit(Ok(TextParsers.TextOut("abc", "abc", 3)));
  }

  /** The text `abc` then a comment opener: the text `abc`, followed by the comment state. */
  lemma CommentExample(input: string, draft: TextParsers.Draft)
    requires input == "abc/*comment"
    ensures TokenText(input, 0, draft).result == Ok(Tokens.Token(Span(Start, Position(3, 1, 3)), "abc", Tokens.Text("abc")))
    ensures TokenText(input, 0, draft).state == Tokens.CommentState
  {
    CommentExampleText(input, draft);
    assert StreamAt(input, 3) == '/';
    AsciiLinePos(input, 3);
  }

  /**
   * On `\u41;`: as written, the escape is an error reported after the
   * backslash; with the backslash popped, the escape decodes and the text
   * runs to the end of input, which picks no next state.
   */
  lemma EscapeTokenExample(input: string)
    requires input == "\\u41;"
    ensures TokenText(input, 0, TextParsers.TokenDraftAsWritten).result == Err(Prelude.IllegalEscapeSequence(Position(1, 1, 1), "\\\\"))
    ensures TokenText(input, 0, TextParsers.TokenDraft).result == Err(Prelude.FauxPanic("unhandled state transition"))
  {
    TextParsers.EscapeExampleAsWritten(input);
    TextParsers.EscapeExample(input);
    assert StreamAt(input, 5) == '\0';
  }

  /** The rank of a state in `next`'s loop: only `Normal` parses. */
  function Rank(state: Tokens.TokenizerState): nat
  {
    if state == Tokens.Normal then 1 else 0
  }

  /**
   * `parse_next_token`: `parse_text` in the `Normal` state, `unreachable!()`
   * in any other.  Its final check that the span, the raw text and the
   * token's span have equal lengths never fails: what it returns is exactly
   * what `parse_text` returned.
   */
  function NextToken(input: seq<char>, at: nat, state: Tokens.TokenizerState, draft: TextParsers.Draft): (r: Completion<TextToken>)
    ensures r.Panics? <==> state != Tokens.Normal
    ensures r.Returns? ==> r.value == TokenText(input, at, draft)
  {
    if state != Tokens.Normal then Panics(Unreachable)
    else
      var t := TokenText(input, at, draft);
      match t.result
      case Err(_) => Returns(t)
      case Ok(ans) =>
        var span := Span(StreamPos(input, at), StreamPos(input, t.end));
        if span.Len() != ByteLen(ans.raw) || ByteLen(ans.raw) != ans.span.Len() || span.Len() != ans.span.Len() then
          Returns(TextToken(Err(Prelude.FauxPanic("lengths don't match")), t.state, t.end))
        else Returns(t)
  }

  /**
   * The loop of `Tokenizer::next`: call `parse_next_token` until it fails or
   * returns a token with a non-empty span.
   */
  function NextLoop(input: seq<char>, at: nat, state: Tokens.TokenizerState, draft: TextParsers.Draft): (r: Completion<TextToken>)
    ensures r.Returns? ==> r.value.result.Err? || r.value.result.value.span.Len() != 0
    ensures r.Returns? ==> state == Tokens.Normal && r.value == TokenText(input, at, draft)
    decreases Rank(state)
  {
    match NextToken(input, at, state, draft)
    case Panics(m) => Panics(m)
    case Returns(t) =>
      if t.result.Ok? && t.result.value.span.Len() == 0 then NextLoop(input, t.end, t.state, draft)
      else Returns(t)
  }

  /**
   * A text stopped at once leaves an empty token and a tag state, in which
   * `parse_next_token` is unreachable: `next` panics on a document that
   * starts with a tag.
   */
  lemma EmptyTextPanics(input: seq<char>, at: nat, draft: TextParsers.Draft)
    requires var t := TokenText(input, at, draft); t.result.Ok? && t.end == at
    ensures NextLoop(input, at, Tokens.Normal, draft).Panics?
  {
    var t := TokenText(input, at, draft);
    assert t.result.value.span.Len() == 0;
    assert NextLoop(input, at, Tokens.Normal, draft) == NextLoop(input, t.end, t.state, draft);
  }

  /** The text loop on a document that starts with a tag opener or closer: empty text, nothing popped. */
  lemma TagFirstText(input: seq<char>, draft: TextParsers.Draft)
    requires |input| > 0 && input[0] in "{}<|"
    ensures TextParsers.TextLoop(input, TextParsers.TextStart(0), draft) == Ok(TextParsers.TextOut("", "", 0))
  {
    var d := draft;
    var s0 := TextParsers.TextStart(0);
    var s1 := TextParsers.TextScan(0, TextParsers.Stop, "", s0.text);
    assert StreamAt(input, -1) == '\0' && StreamAt(input, 0) == input[0];
    assert TextParsers.NormalSpec(input, 0, draft.popsBackslash) == TextParsers.NormalOut(TextParsers.Stop, None, 0);
    assert Slice(input, 0, 0) == "" && "" + Slice(input, 0, 0) == "";
    assert TextParsers.TextStep(input, s0, d) == Continue(s1);
    TextParsers.LoopContinues(input, s0, d, s1);
    assert TextParsers.TextStep(input, s1, d) == Exit(Ok(TextParsers.TextOut("", "", 0)));
  }

  /** `next` on a document that starts with a tag opener or closer, `{ } < |`: a panic. */
  lemma TagFirstPanics(input: seq<char>, draft: TextParsers.Draft)
    requires |input| > 0 && input[0] in "{}<|"
    ensures NextLoop(input, 0, Tokens.Normal, draft).Panics?
  {
    TagFirstText(input, draft);
    assert StreamAt(input, 0) == input[0];
    EmptyTextPanics(input, 0, draft);
  }

  /** After a token, the state is never `Normal`, so the next call to `next` panics. */
  lemma SecondNextPanics(input: seq<char>, at: nat, state: Tokens.TokenizerState, draft: TextParsers.Draft)
    ensures var r := NextLoop(input, at, state, draft);
      r.Returns? && r.value.result.Ok? ==> NextLoop(input, r.value.end, r.value.state, draft).Panics?
  {
  }

  /** `parse_text` of rust/src/token_parser.rs, over a cursor; it returns the new state. */
  method ParseTokenText(src: Cursor, draft: TextParsers.Draft) returns (r: Result<Tokens.Token, Prelude.AnyError>, state: Tokens.TokenizerState)
    requires src.Valid()
    modifies src
    ensures src.Valid()
    ensures var t := TokenText(src.input, old(src.at), draft);
      && r == t.result && state == t.state
      && (r.Ok? ==> src.at == t.end)
  {
    state := Tokens.Normal;
    ghost var at0 := src.at;
    TextParsers.TextSpanCoversRaw(src.input, at0, draft);
    TextParsers.TextLoopResult(src.input, TextParsers.TextStart(at0), draft);
    var tok := TextParsers.ParseTextLoop(src, draft);
    if tok.Err? {
      return tok, state;
    }
    var c := src.Peek(1);
    var next := NextState(c);
    if next.Err? {
      return Err(next.error), state;
    }
    assert "" + Slice(src.input, at0, src.at) == Slice(src.input, at0, src.at);
    return tok, next.value;
  }

  /** `parse_next_token`, over a cursor. */
  method ParseNextToken(src: Cursor, state: Tokens.TokenizerState, draft: TextParsers.Draft)
    returns (r: Completion<Result<Tokens.Token, Prelude.AnyError>>, state': Tokens.TokenizerState)
    requires src.Valid()
    modifies src
    ensures src.Valid()
    ensures var n := NextToken(src.input, old(src.at), state, draft);
      && (r.Panics? <==> n.Panics?)
      && (r.Returns? ==> r.value == n.value.result && state' == n.value.state && (r.value.Ok? ==> src.at == n.value.end))
  {
    var start := src.pos;
    if state != Tokens.Normal {
      return Panics(Unreachable), state;
    }
    var ans;
    ans, state' := ParseTokenText(src, draft);
    if ans.Err? {
      return Returns(ans), state';
    }
    var span := Span(start, src.pos);
    if span.Len() != ByteLen(ans.value.raw) || ByteLen(ans.value.raw) != ans.value.span.Len() || span.Len() != ans.value.span.Len() {
      return Returns(Err(Prelude.FauxPanic("lengths don't match"))), state';
    }
    return Returns(ans), state';
  }

  /**
   * `Tokenizer`: a cursor, the current state, and the last output kept for
   * `unnext`; `draft` says whether its text loop pops the backslash of an
   * escape (`TokenDraft`) or leaves it, as token_parser.rs does
   * (`TokenDraftAsWritten`).
   */
  class Tokenizer {
    const src: Cursor
    const draft: TextParsers.Draft
    var state: Tokens.TokenizerState
    var reout: bool
    var output: Result<Tokens.Token, Prelude.AnyError>

    /** `new`: the `Normal` state, nothing to replay, and `NotReadyYet` as the last output. */
    constructor (src: Cursor, draft: TextParsers.Draft)
      ensures this.src == src && this.draft == draft && state == Tokens.Normal && !reout && output == Err(Prelude.NotReadyYet)
    {
      this.src := src;
      this.draft := draft;
      state := Tokens.Normal;
      reout := false;
      output := Err(Prelude.NotReadyYet);
    }

    /**
     * `next`: after `unnext`, the last output again, with nothing read;
     * otherwise what `NextLoop` says, kept as the last output.
     */
    method Next() returns (r: Completion<Result<Tokens.Token, Prelude.AnyError>>)
      requires src.Valid()
      modifies this, src
      ensures src.Valid()
      ensures old(reout) ==>
        && r == Returns(old(output)) && !reout && output == old(output)
        && state == old(state) && src.at == old(src.at)
      ensures !old(reout) ==>
        var n := NextLoop(src.input, old(src.at), old(state), draft);
        && (r.Panics? <==> n.Panics?)
        && (r.Returns? ==>
              && r.value == n.value.result && output == r.value && state == n.value.state && !reout
              && (r.value.Ok? ==> src.at == n.value.end))
    {
      if reout {
        reout := false;
        return Returns(output);
      }
      ghost var at0, state0 := src.at, state;
      while true
        invariant src.Valid() && !reout
        invariant NextLoop(src.input, src.at, state, draft) == NextLoop(src.input, at0, state0, draft)
        decreases Rank(state)
      {
        ghost var at1, state1 := src.at, state;
        var c, st := ParseNextToken(src, state, draft);
        if c.Panics? {
          return Panics(c.message);
        }
        output, state := c.value, st;
        if output.Err? || output.value.span.Len() != 0 {
          assert NextLoop(src.input, at1, state1, draft) == Returns(NextToken(src.input, at1, state1, draft).value);
          break;
        }
      }
      return Returns(output);
    }

    /** `unnext`: the next call to `next` replays the last output. */
    method Unnext()
      modifies this`reout
      ensures reout
    {
      reout := true;
    }
  }
}
