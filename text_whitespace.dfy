/**
 * The whitespace rule that every text parser applies to the chars it decodes
 * (rust/src/raw_tokenizer.rs:205-221, rust/src/token_parser_text.rs:123-142,
 * rust/src/token_parser.rs:165-184).  Each decoded char comes with a key
 * char that decides how it is treated:
 *  - at a key `'\n'` the text is cut back to just after the last visible
 *    char and a `'\n'` is appended, and blanks are dropped from then on;
 *  - the first key that is not a space or a tab ends the dropping;
 *  - a char pushed under a key that is not blank is visible.
 * The parsers differ in which char is the key, and in whether a line break
 * is appended to an empty text.
 */
module TextWhitespace {
  datatype WsMode = NewLine | GotFirst

  /** The parsed text so far, the mode, and the length up to its last visible char. */
  datatype WsText = WsText(parsed: string, ws: WsMode, lastVis: nat)
  {
    predicate Valid()
    {
      lastVis <= |parsed|
    }
  }

  const Empty := WsText("", GotFirst, 0)

  predicate IsBlankChar(c: char)
  {
    c == ' ' || c == '\t'
  }

  /** Push `val`, decoded under `key`; `emptyLines` says whether a break is appended to an empty text. */
  function Push(t: WsText, key: char, val: char, emptyLines: bool): (r: WsText)
    requires t.Valid()
    ensures r.Valid()
  {
    var ws1 := if t.ws == NewLine && !IsBlankChar(key) then GotFirst else t.ws;
    var cut := t.parsed[..t.lastVis];
    var parsed1 := if key != '\n' then t.parsed else if emptyLines || |cut| > 0 then cut + ['\n'] else cut;
    var ws2 := if key == '\n' then NewLine else ws1;
    if ws2 == GotFirst then
      WsText(parsed1 + [val], GotFirst, if IsBlankChar(key) then t.lastVis else |parsed1| + 1)
    else
      WsText(parsed1, ws2, t.lastVis)
  }

  /** An escaped char: always visible, and it ends the dropping of blanks. */
  function PushVisible(t: WsText, val: char): (r: WsText)
    requires t.Valid()
    ensures r.Valid() && r.parsed == t.parsed + [val] && r.lastVis == |r.parsed| && r.ws == GotFirst
  {
    WsText(t.parsed + [val], GotFirst, |t.parsed| + 1)
  }

  /** Push the chars `vals` under the keys `keys`, in order. */
  function PushAll(t: WsText, keys: string, vals: string, emptyLines: bool): (r: WsText)
    requires t.Valid() && |keys| == |vals|
    ensures r.Valid()
    decreases |keys|
  {
    if keys == [] then t
    else Push(PushAll(t, keys[..|keys| - 1], vals[..|vals| - 1], emptyLines), keys[|keys| - 1], vals[|vals| - 1], emptyLines)
  }

  /** A line break cuts the text after its last visible char and starts dropping blanks. */
  lemma NewLineCuts(t: WsText, val: char, emptyLines: bool)
    requires t.Valid()
    ensures var r := Push(t, '\n', val, emptyLines);
      && r.ws == NewLine && r.lastVis == t.lastVis
      && r.parsed == (if emptyLines || t.lastVis > 0 then t.parsed[..t.lastVis] + ['\n'] else [])
  {
  }

  /** After a line break, blanks are dropped: pushing one changes nothing. */
  lemma BlanksAfterNewLineDropped(t: WsText, key: char, val: char, emptyLines: bool)
    requires t.Valid() && t.ws == NewLine && IsBlankChar(key)
    ensures Push(t, key, val, emptyLines) == t
  {
  }

  /** A line that holds no visible char leaves no trace: a second break gives the text the first gave. */
  lemma BlankLinesCollapse(t: WsText, v1: char, v2: char, emptyLines: bool)
    requires t.Valid()
    ensures Push(Push(t, '\n', v1, emptyLines), '\n', v2, emptyLines) == Push(t, '\n', v1, emptyLines)
  {
  }

  /**
   * On one line, once a visible char has been seen, the text is every
   * decoded char unchanged: with no key `'\n'`, pushing appends the values.
   */
  lemma {:induction false} SameLineKeepsAll(t: WsText, keys: string, vals: string, emptyLines: bool)
    requires t.Valid() && t.ws == GotFirst && |keys| == |vals|
    requires forall i :: 0 <= i < |keys| ==> keys[i] != '\n'
    ensures PushAll(t, keys, vals, emptyLines).parsed == t.parsed + vals
    ensures PushAll(t, keys, vals, emptyLines).ws == GotFirst
  {
    if keys != [] {
      var n := |keys| - 1;
      SameLineKeepsAll(t, keys[..n], vals[..n], emptyLines);
      assert vals == vals[..n] + [vals[n]];
    }
  }
}
