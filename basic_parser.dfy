/**
 * The tag assembler of rust/src/basic_parser.rs: the tag kinds, the lookups
 * of an attribute by position and by name, the view table, and the parser
 * that folds a token stream into `Tag` values.
 *
 * The file uses tokens, an `AttrValue` and a `NotAttributeValue` error that
 * the tokenizer it imports does not define; they are defined here from the
 * way the file uses them.  The tokenizer is a finite sequence of results read
 * through a one-slot pushback, as the `Tokenizer` of rust/src/token_parser.rs
 * does; past the end of the sequence it yields `EndOfInput`.
 */
module BasicParser {
  import opened Wrappers
  import opened Positions
  import opened Cursors
  import RawTokenizer

  type BasicName = RawTokenizer.BasicName

  /** `is_empty`: the name equals `BasicName::new()`, every part empty. */
  predicate IsEmptyName(n: BasicName)
  {
    n == RawTokenizer.NewName
  }

  /** The special name of the virtual text tag, and of its single attribute. */
  const TextName := RawTokenizer.BasicName("", true, "", "text")
  const ValName := RawTokenizer.BasicName("", true, "", "val")

  /** The message of Rust's `unimplemented!()`. */
  const NotImplemented := "not implemented"

  datatype TagType = CurlyFull | CurlyStart | CurlyEnd | PointyFull | PointyStart | PointyEnd | Virtual
  {
    predicate IsPointy()
    {
      match this
      case PointyFull | PointyStart | PointyEnd => true
      case _ => false
    }

    predicate IsCurly()
    {
      match this
      case CurlyFull | CurlyStart | CurlyEnd => true
      case _ => false
    }
  }

  /** A tag is pointy, curly or virtual, and only one of them. */
  lemma KindsPartition(t: TagType)
    ensures !(t.IsPointy() && t.IsCurly())
    ensures t == Virtual <==> !t.IsPointy() && !t.IsCurly()
  {
  }

  datatype AttrValue = StringValue(text: string) | IntegerValue(number: int)

  datatype Attr = Attr(name: BasicName, val: AttrValue)
  {
    /** `is_named`: a positional attribute has the empty name. */
    predicate IsNamed()
    {
      !IsEmptyName(name)
    }
  }

  datatype Tag = Tag(name: BasicName, kind: TagType, raw: string, attrs: seq<Attr>, span: Span)

  // ---------------------------------------------------------------------
  // Positional attributes

  /** The number of unnamed (positional) attributes. */
  function Unnamed(attrs: seq<Attr>): (n: nat)
    ensures n <= |attrs|
  {
    if |attrs| == 0 then 0
    else Unnamed(attrs[..|attrs| - 1]) + (if attrs[|attrs| - 1].IsNamed() then 0 else 1)
  }

  lemma UnnamedStep(attrs: seq<Attr>, j: nat)
    requires j < |attrs|
    ensures Unnamed(attrs[..j + 1]) == Unnamed(attrs[..j]) + (if attrs[j].IsNamed() then 0 else 1)
  {
    assert attrs[..j + 1][..j] == attrs[..j];
  }

  /** Counting over a prefix never gives more than counting over the whole. */
  lemma {:induction false} UnnamedPrefix(attrs: seq<Attr>, j: nat)
    requires j <= |attrs|
    ensures Unnamed(attrs[..j]) <= Unnamed(attrs)
    decreases |attrs| - j
  {
    if j < |attrs| {
      UnnamedStep(attrs, j);
      UnnamedPrefix(attrs, j + 1);
    } else {
      assert attrs[..j] == attrs;
    }
  }

  /**
   * The loop of `get_pos_attr` from attribute `i` on, `counter` unnamed
   * attributes seen so far.  As written, an unnamed attribute only counts,
   * and a named one is returned once the count equals `pos`; corrected, the
   * unnamed attribute that brings the count to `pos` is returned.
   */
  function PosScan(attrs: seq<Attr>, pos: nat, asWritten: bool, i: nat, counter: nat): Option<Attr>
    requires i <= |attrs|
    decreases |attrs| - i
  {
    if i == |attrs| then None
    else if !attrs[i].IsNamed() then
      if !asWritten && counter + 1 == pos then Some(attrs[i])
      else PosScan(attrs, pos, asWritten, i + 1, counter + 1)
    else if asWritten && counter == pos then Some(attrs[i])
    else PosScan(attrs, pos, asWritten, i + 1, counter)
  }

  /** `get_pos_attr(pos)`. */
  function PosAttr(attrs: seq<Attr>, pos: nat, asWritten: bool): Option<Attr>
  {
    PosScan(attrs, pos, asWritten, 0, 0)
  }

  /** What the loop as written looks for: a named attribute after exactly `pos` unnamed ones. */
  predicate AsWrittenHit(attrs: seq<Attr>, pos: nat, j: nat)
    requires j < |attrs|
  {
    attrs[j].IsNamed() && Unnamed(attrs[..j]) == pos
  }

  /** What the doc comment asks for: the `pos`-th unnamed attribute, counting from 1. */
  predicate PositionalHit(attrs: seq<Attr>, pos: nat, j: nat)
    requires j < |attrs|
  {
    !attrs[j].IsNamed() && Unnamed(attrs[..j]) + 1 == pos
  }

  lemma {:induction false} AsWrittenScan(attrs: seq<Attr>, pos: nat, i: nat)
    requires i <= |attrs|
    ensures var r := PosScan(attrs, pos, true, i, Unnamed(attrs[..i]));
      && (r.None? <==> forall j :: i <= j < |attrs| ==> !AsWrittenHit(attrs, pos, j))
      && (r.Some? ==> exists j :: i <= j < |attrs| && AsWrittenHit(attrs, pos, j) && r.value == attrs[j]
                                  && forall m :: i <= m < j ==> !AsWrittenHit(attrs, pos, m))
    decreases |attrs| - i
  {
    if i < |attrs| {
      UnnamedStep(attrs, i);
      AsWrittenScan(attrs, pos, i + 1);
      var r := PosScan(attrs, pos, true, i, Unnamed(attrs[..i]));
      if AsWrittenHit(attrs, pos, i) {
        assert r == Some(attrs[i]);
      } else {
        assert r == PosScan(attrs, pos, true, i + 1, Unnamed(attrs[..i + 1]));
        if r.Some? {
          var j :| i + 1 <= j < |attrs| && AsWrittenHit(attrs, pos, j) && r.value == attrs[j]
                   && forall m :: i + 1 <= m < j ==> !AsWrittenHit(attrs, pos, m);
          assert forall m :: i <= m < j ==> !AsWrittenHit(attrs, pos, m);
        }
      }
    }
  }

  lemma {:induction false} PositionalScan(attrs: seq<Attr>, pos: nat, i: nat)
    requires i <= |attrs|
    ensures var r := PosScan(attrs, pos, false, i, Unnamed(attrs[..i]));
      && (r.None? <==> forall j :: i <= j < |attrs| ==> !PositionalHit(attrs, pos, j))
      && (r.Some? ==> exists j :: i <= j < |attrs| && PositionalHit(attrs, pos, j) && r.value == attrs[j])
    decreases |attrs| - i
  {
    if i < |attrs| {
      UnnamedStep(attrs, i);
      PositionalScan(attrs, pos, i + 1);
      var r := PosScan(attrs, pos, false, i, Unnamed(attrs[..i]));
      if PositionalHit(attrs, pos, i) {
        assert r == Some(attrs[i]);
      } else {
        assert r == PosScan(attrs, pos, false, i + 1, Unnamed(attrs[..i + 1]));
      }
    }
  }

  /**
   * `get_pos_attr` as written only ever returns a named attribute: the first
   * named one that exactly `pos` unnamed ones precede, or nothing.
   */
  lemma PosAttrAsWritten(attrs: seq<Attr>, pos: nat)
    ensures var r := PosAttr(attrs, pos, true);
      && (r.Some? ==> r.value.IsNamed())
      && (r.None? <==> forall j :: 0 <= j < |attrs| ==> !AsWrittenHit(attrs, pos, j))
      && (r.Some? ==> exists j :: 0 <= j < |attrs| && AsWrittenHit(attrs, pos, j) && r.value == attrs[j]
                                  && forall m :: 0 <= m < j ==> !AsWrittenHit(attrs, pos, m))
  {
    assert attrs[..0] == [];
    AsWrittenScan(attrs, pos, 0);
  }

  /**
   * Corrected, `get_pos_attr(pos)` is the `pos`-th unnamed attribute,
   * counting from 1: there is one exactly when 1 <= pos <= the number of
   * unnamed attributes.
   */
  lemma PosAttrCountsFromOne(attrs: seq<Attr>, pos: nat)
    ensures var r := PosAttr(attrs, pos, false);
      && (r.Some? <==> 1 <= pos <= Unnamed(attrs))
      && (r.Some? ==> !r.value.IsNamed() && exists j :: 0 <= j < |attrs| && PositionalHit(attrs, pos, j) && r.value == attrs[j])
  {
    assert attrs[..0] == [];
    PositionalScan(attrs, pos, 0);
    var r := PosAttr(attrs, pos, false);
    if r.Some? {
      var j :| 0 <= j < |attrs| && PositionalHit(attrs, pos, j) && r.value == attrs[j];
      UnnamedStep(attrs, j);
      UnnamedPrefix(attrs, j + 1);
    } else if 1 <= pos <= Unnamed(attrs) {
      var j := PositionalWitness(attrs, pos);
    }
  }

  /** Every count from 1 up to the number of unnamed attributes is reached at some unnamed attribute. */
  lemma {:induction false} PositionalWitness(attrs: seq<Attr>, pos: nat) returns (j: nat)
    requires 1 <= pos <= Unnamed(attrs)
    ensures j < |attrs| && PositionalHit(attrs, pos, j)
    decreases |attrs|
  {
    var init := attrs[..|attrs| - 1];
    if pos <= Unnamed(init) {
      j := PositionalWitness(init, pos);
      assert init[..j] == attrs[..j];
    } else {
      j := |attrs| - 1;
      assert attrs[..j] == init;
    }
  }

  /** `[unnamed, named]` and position 1: as written the named one comes back, corrected the unnamed one. */
  lemma PosAttrExample(u: Attr, n: Attr)
    requires !u.IsNamed() && n.IsNamed()
    ensures PosAttr([u, n], 1, true) == Some(n)
    ensures PosAttr([u, n], 1, false) == Some(u)
  {
    assert PosScan([u, n], 1, true, 1, 1) == Some(n);
  }

  /** `get_pos_attr`, the loop with its counter. */
  method GetPosAttr(tag: Tag, pos: nat, asWritten: bool) returns (r: Option<Attr>)
    ensures r == PosAttr(tag.attrs, pos, asWritten)
  {
    var counter := 0;
    var i := 0;
    while i < |tag.attrs|
      invariant i <= |tag.attrs|
      invariant PosScan(tag.attrs, pos, asWritten, i, counter) == PosAttr(tag.attrs, pos, asWritten)
    {
      var attr := tag.attrs[i];
      if !attr.IsNamed() {
        counter := counter + 1;
        if !asWritten && counter == pos {
          return Some(attr);
        }
      } else if asWritten && counter == pos {
        return Some(attr);
      }
      i := i + 1;
    }
    return None;
  }

  // ---------------------------------------------------------------------
  // Named attributes

  predicate NameMatches(a: Attr, name: BasicName)
  {
    a.IsNamed() && a.name == name
  }

  /** The loop of `get_named_attr` from attribute `i` on: skip unnamed ones, stop at the first match. */
  function NamedFrom(attrs: seq<Attr>, name: BasicName, i: nat): (r: Option<Attr>)
    requires i <= |attrs|
    ensures r.Some? <==> exists j :: i <= j < |attrs| && NameMatches(attrs[j], name)
    ensures r.Some? ==> exists j :: i <= j < |attrs| && NameMatches(attrs[j], name) && r.value == attrs[j]
                                    && forall m :: i <= m < j ==> !NameMatches(attrs[m], name)
    decreases |attrs| - i
  {
    if i == |attrs| then None
    else if !attrs[i].IsNamed() then NamedFrom(attrs, name, i + 1)
    else if attrs[i].name == name then Some(attrs[i])
    else NamedFrom(attrs, name, i + 1)
  }

  /**
   * `get_named_attr`: nothing for the empty name (it would otherwise find a
   * positional attribute), else the first attribute with that name.
   */
  function NamedAttr(attrs: seq<Attr>, name: BasicName): (r: Option<Attr>)
    ensures IsEmptyName(name) ==> r == None
    ensures !IsEmptyName(name) ==> (r.Some? <==> exists j :: 0 <= j < |attrs| && attrs[j].name == name)
    ensures r.Some? ==> exists j :: 0 <= j < |attrs| && attrs[j].name == name && r.value == attrs[j]
                                    && forall m :: 0 <= m < j ==> attrs[m].name != name
  {
    if IsEmptyName(name) then None else NamedFrom(attrs, name, 0)
  }

  method GetNamedAttr(tag: Tag, name: BasicName) returns (r: Option<Attr>)
    ensures r == NamedAttr(tag.attrs, name)
  {
    if IsEmptyName(name) {
      return None;
    }
    var i := 0;
    while i < |tag.attrs|
      invariant i <= |tag.attrs|
      invariant NamedFrom(tag.attrs, name, i) == NamedAttr(tag.attrs, name)
    {
      var attr := tag.attrs[i];
      if !attr.IsNamed() {
        i := i + 1;
        continue;
      }
      if attr.name == name {
        return Some(attr);
      }
      i := i + 1;
    }
    return None;
  }

  // ---------------------------------------------------------------------
  // Text

  /**
   * `process_text`: a virtual tag with the special name "text" whose one
   * attribute, the special name "val", holds the parsed text.
   */
  function ProcessText(span: Span, raw: string, val: string): (t: Tag)
    ensures t.kind == Virtual && !t.kind.IsPointy() && !t.kind.IsCurly()
    ensures t.raw == raw && t.span == span && t.name == TextName
    ensures |t.attrs| == 1 && t.attrs[0].IsNamed() && t.attrs[0].val == StringValue(val)
  {
    Tag(TextName, Virtual, raw, [Attr(ValName, StringValue(val))], span)
  }

  /** The text of a text tag is found by name, and it has no positional attribute. */
  lemma TextValueLookup(span: Span, raw: string, val: string, pos: nat)
    ensures NamedAttr(ProcessText(span, raw, val).attrs, ValName) == Some(Attr(ValName, StringValue(val)))
    ensures PosAttr(ProcessText(span, raw, val).attrs, pos, false) == None
  {
    PosAttrCountsFromOne(ProcessText(span, raw, val).attrs, pos);
  }

  // ---------------------------------------------------------------------
  // The token stream

  datatype ParserError =
    | IllegalChar(pos: Position, c: char)
    | IllegalChar2(pos: Position, c: char, expected: seq<char>)
    | IllegalCharMsg(pos: Position, c: char, msg: string)
    | MissingTerminator(pos: Position, c: char)
    | MissingLocalName(pos: Position)
    | IllegalEscapeSequence(pos: Position, text: string)
    | IllegalNumber(span: Span, text: string)
    | EndOfInput
    | NotAttributeValue(span: Span, raw: string)
    | NotReadyYet

  /** The tokens the parser distinguishes; every other kind is an `OtherToken`. */
  datatype Token =
    | InlineText(span: Span, raw: string, parsed: string)
    | CurlyTagStart(span: Span, raw: string, name: BasicName)
    | AttributeName(span: Span, raw: string, name: BasicName)
    | AttributeValue(span: Span, raw: string, value: AttrValue)
    | Whitespace(span: Span, raw: string, parsed: string)
    | TextMarker(span: Span, marker: char)
    | CurlyTagEnd(span: Span, marker: char)
    | OtherToken(span: Span, raw: string)
  {
    /** `get_raw`: the text the token was read from. */
    function Raw(): string
    {
      match this
      case InlineText(_, raw, _) => raw
      case CurlyTagStart(_, raw, _) => raw
      case AttributeName(_, raw, _) => raw
      case AttributeValue(_, raw, _) => raw
      case Whitespace(_, raw, _) => raw
      case TextMarker(_, c) => [c]
      case CurlyTagEnd(_, c) => [c]
      case OtherToken(_, raw) => raw
    }
  }

  type Item = Result<Token, ParserError>

  /** The `k`-th result of the stream; `EndOfInput` past its end. */
  function ItemAt(tokens: seq<Item>, k: nat): Item
  {
    if k < |tokens| then tokens[k] else Err(EndOfInput)
  }

  /** The stream's read position, its pushback flag and its last output. */
  datatype StreamState = StreamState(at: nat, reout: bool, output: Item)

  const FreshStream := StreamState(0, false, Err(NotReadyYet))

  /** `next`: the last output again after `unnext`, otherwise the next result, kept as the last output. */
  function NextOf(tokens: seq<Item>, s: StreamState): (r: (Item, StreamState))
    ensures !r.1.reout && r.1.output == r.0
    ensures s.reout ==> r.0 == s.output && r.1.at == s.at
    ensures !s.reout ==> r.0 == ItemAt(tokens, s.at) && r.1.at == s.at + 1
  {
    if s.reout then (s.output, s.(reout := false))
    else (ItemAt(tokens, s.at), StreamState(s.at + 1, false, ItemAt(tokens, s.at)))
  }

  /** `unnext` then `next` gives the last result again without reading, and clears the flag. */
  lemma UnnextReplays(tokens: seq<Item>, s: StreamState)
    requires !s.reout
    ensures NextOf(tokens, NextOf(tokens, s).1.(reout := true)) == NextOf(tokens, s)
  {
  }

  /** A token stream with a one-slot pushback. */
  class TokenStream {
    const tokens: seq<Item>
    var at: nat
    var reout: bool
    var output: Item

    function State(): StreamState
      reads this
    {
      StreamState(at, reout, output)
    }

    constructor (tokens: seq<Item>)
      ensures this.tokens == tokens && State() == FreshStream
    {
      this.tokens := tokens;
      at := 0;
      reout := false;
      output := Err(NotReadyYet);
    }

    method Next() returns (r: Item)
      modifies this
      ensures (r, State()) == NextOf(tokens, old(State()))
    {
      if reout {
        reout := false;
        return output;
      }
      output := ItemAt(tokens, at);
      at := at + 1;
      return output;
    }

    method Unnext()
      modifies this`reout
      ensures reout
    {
      reout := true;
    }
  }

  // ---------------------------------------------------------------------
  // Curly tags

  /** Where `process_curly_tag` is: looking for an attribute name, for its value, or for the end. */
  datatype Phase = SeekName | SeekValue(attrName: BasicName) | SeekStop

  /** The loop state: `k` indexes the current token; the attributes, raw text and span end so far. */
  datatype CurlyScan = CurlyScan(k: nat, phase: Phase, attrs: seq<Attr>, raw: string, end: Position)

  /** The result, the index of the last token read, and whether it was pushed back. */
  datatype CurlyOutcome = CurlyOutcome(result: Result<Tag, ParserError>, last: nat, pushBack: bool)

  function PhaseRank(p: Phase): nat
  {
    if p.SeekStop? then 0 else 1
  }

  function CurlyBegin(k: nat, raw: string, span: Span): CurlyScan
  {
    CurlyScan(k, SeekName, [], raw, span.end)
  }

  /**
   * One step of `process_curly_tag` on the current token.  As written
   * (`valueEnd` false) an attribute value sets the span end to that of the
   * tag's opening token; corrected, to that of the value.
   */
  function CurlyStep(tokens: seq<Item>, start: Span, name: BasicName, valueEnd: bool, s: CurlyScan): (r: Step<CurlyScan, CurlyOutcome>)
    ensures r.Continue? ==> s.k < |tokens| && ItemAt(tokens, s.k).Ok?
    ensures r.Continue? ==> r.next.k == s.k + 1 || (r.next.k == s.k && PhaseRank(r.next.phase) < PhaseRank(s.phase))
    ensures r.Exit? ==> r.result.last == s.k
  {
    var t := ItemAt(tokens, s.k);
    match s.phase
    case SeekName =>
      (match t
       case Err(e) => Exit(CurlyOutcome(Err(e), s.k, false))
       case Ok(AttributeName(span, raw, n)) => Continue(CurlyScan(s.k + 1, SeekValue(n), s.attrs, s.raw + raw, span.end))
       case Ok(Whitespace(span, raw, _)) => Continue(s.(k := s.k + 1, raw := s.raw + raw, end := span.end))
       case Ok(_) => Continue(s.(phase := SeekStop)))
    case SeekValue(n) =>
      (match t
       case Ok(AttributeValue(span, raw, v)) =>
         Continue(CurlyScan(s.k + 1, SeekName, s.attrs + [Attr(n, v)], s.raw + raw, if valueEnd then span.end else start.end))
       case Ok(tok) => Exit(CurlyOutcome(Err(NotAttributeValue(tok.span, tok.Raw())), s.k, false))
       case Err(e) => Exit(CurlyOutcome(Err(e), s.k, false)))
    case SeekStop =>
      (match t
       case Ok(Whitespace(span, raw, _)) => Continue(s.(k := s.k + 1, raw := s.raw + raw, end := span.end))
       case Ok(TextMarker(span, c)) =>
         Exit(CurlyOutcome(Ok(Tag(name, CurlyStart, s.raw + [c], s.attrs, Span(start.start, span.end))), s.k, false))
       case Ok(CurlyTagEnd(span, c)) =>
         Exit(CurlyOutcome(Ok(Tag(name, CurlyFull, s.raw + [c], s.attrs, Span(start.start, span.end))), s.k, false))
       case _ => Exit(CurlyOutcome(Ok(Tag(name, CurlyStart, s.raw, s.attrs, Span(start.start, s.end))), s.k, true)))
  }

  function CurlyLoop(tokens: seq<Item>, start: Span, name: BasicName, valueEnd: bool, s: CurlyScan): CurlyOutcome
    decreases |tokens| - s.k, PhaseRank(s.phase)
  {
    match CurlyStep(tokens, start, name, valueEnd, s)
    case Exit(e) => e
    case Continue(s') => CurlyLoop(tokens, start, name, valueEnd, s')
  }

  lemma CurlyContinues(tokens: seq<Item>, start: Span, name: BasicName, valueEnd: bool, s: CurlyScan, s': CurlyScan)
    requires CurlyStep(tokens, start, name, valueEnd, s) == Continue(s')
    ensures CurlyLoop(tokens, start, name, valueEnd, s) == CurlyLoop(tokens, start, name, valueEnd, s')
  {
  }

  /** The stream after the tag: the last token read is the last output, and pending again if pushed back. */
  function AfterCurly(tokens: seq<Item>, e: CurlyOutcome): StreamState
  {
    StreamState(e.last + 1, e.pushBack, ItemAt(tokens, e.last))
  }

  /** The raw texts of tokens `from..to`, concatenated. */
  function RawFrom(tokens: seq<Item>, from: nat, to: nat): string
    decreases to
  {
    if to <= from then ""
    else RawFrom(tokens, from, to - 1) + (if ItemAt(tokens, to - 1).Ok? then ItemAt(tokens, to - 1).value.Raw() else "")
  }

  /** An attribute name at `i` followed by a value. */
  predicate PairAt(tokens: seq<Item>, i: nat)
  {
    && ItemAt(tokens, i).Ok? && ItemAt(tokens, i).value.AttributeName?
    && ItemAt(tokens, i + 1).Ok? && ItemAt(tokens, i + 1).value.AttributeValue?
  }

  /** The attributes that the name-value pairs among tokens `from..to` spell, in order. */
  function AttrsIn(tokens: seq<Item>, from: nat, to: nat): seq<Attr>
    decreases to
  {
    if to <= from then []
    else if from + 2 <= to && PairAt(tokens, to - 2) then
      AttrsIn(tokens, from, to - 2) + [Attr(ItemAt(tokens, to - 2).value.name, ItemAt(tokens, to - 1).value.value)]
    else AttrsIn(tokens, from, to - 1)
  }

  /**
   * The span end that tokens `from..to` leave: the end of the last one, or
   * of the opening token when there are none.  As written (`valueEnd`
   * false), a last token that is an attribute value leaves the opening
   * token's end.
   */
  function LastEnd(tokens: seq<Item>, from: nat, to: nat, start: Span, valueEnd: bool): Position
  {
    if to <= from || ItemAt(tokens, to - 1).Err? then start.end
    else if !valueEnd && ItemAt(tokens, to - 1).value.AttributeValue? then start.end
    else ItemAt(tokens, to - 1).value.span.end
  }

  /** What holds of the loop state after the tokens `k0..s.k`. */
  predicate CurlyInv(tokens: seq<Item>, start: Span, valueEnd: bool, k0: nat, raw0: string, s: CurlyScan)
  {
    && k0 <= s.k
    && s.raw == raw0 + RawFrom(tokens, k0, s.k)
    && s.attrs == AttrsIn(tokens, k0, s.k)
    && s.end == LastEnd(tokens, k0, s.k, start, valueEnd)
    && (k0 < s.k ==> ItemAt(tokens, s.k - 1).Ok? && !ItemAt(tokens, s.k - 1).value.CurlyTagEnd?)
    && (s.phase.SeekValue? ==>
          && k0 < s.k && ItemAt(tokens, s.k - 1).Ok? && ItemAt(tokens, s.k - 1).value.AttributeName?
          && ItemAt(tokens, s.k - 1).value.name == s.phase.attrName)
  }

  /**
   * What a curly tag is made of: its raw text is the opening token's
   * followed by the raw texts of the tokens consumed after it, its
   * attributes are the name-value pairs among those tokens in order, its
   * span runs from the opening token's start to the end `LastEnd` gives
   * (the last consumed token's end, corrected), and it is full exactly when
   * the last consumed token closes it.
   */
  predicate CurlyTagMadeOf(tokens: seq<Item>, start: Span, name: BasicName, valueEnd: bool, k0: nat, raw0: string, e: CurlyOutcome)
  {
    e.result.Ok? ==>
      var c := if e.pushBack then e.last else e.last + 1;
      var t := e.result.value;
      && k0 <= c
      && t.name == name
      && t.raw == raw0 + RawFrom(tokens, k0, c)
      && t.attrs == AttrsIn(tokens, k0, c)
      && t.span == Span(start.start, LastEnd(tokens, k0, c, start, valueEnd))
      && (t.kind == CurlyFull <==> k0 < c && ItemAt(tokens, c - 1).Ok? && ItemAt(tokens, c - 1).value.CurlyTagEnd?)
      && (t.kind != CurlyFull ==> t.kind == CurlyStart)
  }

  lemma RawFromStep(tokens: seq<Item>, k0: nat, k: nat, raw0: string, s: string)
    requires k0 <= k && s == raw0 + RawFrom(tokens, k0, k) && ItemAt(tokens, k).Ok?
    ensures s + ItemAt(tokens, k).value.Raw() == raw0 + RawFrom(tokens, k0, k + 1)
  {
  }

  lemma CurlyStepKeeps(tokens: seq<Item>, start: Span, name: BasicName, valueEnd: bool, k0: nat, raw0: string, s: CurlyScan, s': CurlyScan)
    requires CurlyInv(tokens, start, valueEnd, k0, raw0, s)
    requires CurlyStep(tokens, start, name, valueEnd, s) == Continue(s')
    ensures CurlyInv(tokens, start, valueEnd, k0, raw0, s')
  {
    var t := ItemAt(tokens, s.k).value;
    if s'.k == s.k + 1 {
      RawFromStep(tokens, k0, s.k, raw0, s.raw);
      if s.phase.SeekValue? {
        assert AttrsIn(tokens, k0, s.k) == AttrsIn(tokens, k0, s.k - 1);
        assert PairAt(tokens, s.k - 1);
      }
    }
  }

  lemma CurlyExitMadeOf(tokens: seq<Item>, start: Span, name: BasicName, valueEnd: bool, k0: nat, raw0: string, s: CurlyScan, e: CurlyOutcome)
    requires CurlyInv(tokens, start, valueEnd, k0, raw0, s)
    requires CurlyStep(tokens, start, name, valueEnd, s) == Exit(e)
    ensures CurlyTagMadeOf(tokens, start, name, valueEnd, k0, raw0, e)
  {
    if e.result.Ok? && !e.pushBack {
      RawFromStep(tokens, k0, s.k, raw0, s.raw);
    }
  }

  /** Every curly tag the loop builds, as written or corrected, is made of the tokens it consumed. */
  lemma {:induction false} CurlyMadeOfTokens(tokens: seq<Item>, start: Span, name: BasicName, valueEnd: bool, k0: nat, raw0: string, s: CurlyScan)
    requires CurlyInv(tokens, start, valueEnd, k0, raw0, s)
    ensures CurlyTagMadeOf(tokens, start, name, valueEnd, k0, raw0, CurlyLoop(tokens, start, name, valueEnd, s))
    decreases |tokens| - s.k, PhaseRank(s.phase)
  {
    match CurlyStep(tokens, start, name, valueEnd, s)
    case Exit(e) =>
      CurlyExitMadeOf(tokens, start, name, valueEnd, k0, raw0, s, e);
    case Continue(s') =>
      CurlyStepKeeps(tokens, start, name, valueEnd, k0, raw0, s, s');
      CurlyMadeOfTokens(tokens, start, name, valueEnd, k0, raw0, s');
  }

  /**
   * `process_curly_tag` from its first token on.  Corrected, the span ends
   * where the last consumed token ends; as written, at the opening token's
   * end when that token is an attribute value.
   */
  lemma ProcessCurlyMadeOf(tokens: seq<Item>, start: Span, name: BasicName, valueEnd: bool, k0: nat, raw0: string)
    ensures CurlyTagMadeOf(tokens, start, name, valueEnd, k0, raw0, CurlyLoop(tokens, start, name, valueEnd, CurlyBegin(k0, raw0, start)))
  {
    CurlyMadeOfTokens(tokens, start, name, valueEnd, k0, raw0, CurlyBegin(k0, raw0, start));
  }

  /** An attribute name followed by anything but a value is a `NotAttributeValue` error naming that token. */
  lemma NameWithoutValue(tokens: seq<Item>, start: Span, name: BasicName, valueEnd: bool, s: CurlyScan)
    requires s.phase == SeekName
    requires ItemAt(tokens, s.k).Ok? && ItemAt(tokens, s.k).value.AttributeName?
    requires ItemAt(tokens, s.k + 1).Ok? && !ItemAt(tokens, s.k + 1).value.AttributeValue?
    ensures var tok := ItemAt(tokens, s.k + 1).value;
      CurlyLoop(tokens, start, name, valueEnd, s).result == Err(NotAttributeValue(tok.span, tok.Raw()))
  {
    var s' := CurlyStep(tokens, start, name, valueEnd, s).next;
    CurlyContinues(tokens, start, name, valueEnd, s, s');
  }

  /**
   * "{a x=1{b": the first tag ends at the second one, which is pushed back.
   * As written the span of the first tag ends where "{a" ends although its
   * raw text holds the attribute; corrected it ends after "1".
   */
  lemma ValueSpanExample(tokens: seq<Item>, n: BasicName, v: AttrValue)
    requires tokens == [Ok(CurlyTagStart(Span(Position(0, 1, 0), Position(2, 1, 2)), "{a", n)),
                        Ok(Whitespace(Span(Position(2, 1, 2), Position(3, 1, 3)), " ", " ")),
                        Ok(AttributeName(Span(Position(3, 1, 3), Position(5, 1, 5)), "x=", n)),
                        Ok(AttributeValue(Span(Position(5, 1, 5), Position(6, 1, 6)), "1", v)),
                        Ok(CurlyTagStart(Span(Position(6, 1, 6), Position(8, 1, 8)), "{b", n))]
    ensures var start := tokens[0].value.span;
      && CurlyLoop(tokens, start, n, false, CurlyBegin(1, "{a", start)).result
           == Ok(Tag(n, CurlyStart, "{a x=1", [Attr(n, v)], Span(Position(0, 1, 0), Position(2, 1, 2))))
      && CurlyLoop(tokens, start, n, true, CurlyBegin(1, "{a", start)).result
           == Ok(Tag(n, CurlyStart, "{a x=1", [Attr(n, v)], Span(Position(0, 1, 0), Position(6, 1, 6))))
  {
    var start := tokens[0].value.span;
    var a := [Attr(n, v)];
    forall valueEnd: bool
      ensures CurlyLoop(tokens, start, n, valueEnd, CurlyBegin(1, "{a", start)).result
           == Ok(Tag(n, CurlyStart, "{a x=1", a, Span(Position(0, 1, 0), if valueEnd then Position(6, 1, 6) else Position(2, 1, 2))))
    {
      var e := if valueEnd then Position(6, 1, 6) else Position(2, 1, 2);
      var s0 := CurlyBegin(1, "{a", start);
      var s1 := CurlyScan(2, SeekName, [], "{a ", Position(3, 1, 3));
      var s2 := CurlyScan(3, SeekValue(n), [], "{a x=", Position(5, 1, 5));
      var s3 := CurlyScan(4, SeekName, a, "{a x=1", e);
      var s4 := s3.(phase := SeekStop);
      assert "{a" + " " == "{a " && "{a " + "x=" == "{a x=" && "{a x=" + "1" == "{a x=1";
      assert [] + [Attr(n, v)] == a;
      CurlyContinues(tokens, start, n, valueEnd, s0, s1);
      CurlyContinues(tokens, start, n, valueEnd, s1, s2);
      CurlyContinues(tokens, start, n, valueEnd, s2, s3);
      CurlyContinues(tokens, start, n, valueEnd, s3, s4);
    }
  }

  /**
   * `next`: text becomes a text tag, a curly opening a curly tag, any other
   * token is not implemented.  `valueEnd` false is the curly loop as written.
   */
  function ParseNext(tokens: seq<Item>, s: StreamState, valueEnd: bool): (Completion<Result<Tag, ParserError>>, StreamState)
  {
    var (t, s1) := NextOf(tokens, s);
    match t
    case Err(e) => (Returns(Err(e)), s1)
    case Ok(InlineText(span, raw, val)) => (Returns(Ok(ProcessText(span, raw, val))), s1)
    case Ok(CurlyTagStart(span, raw, name)) =>
      var e := CurlyLoop(tokens, span, name, valueEnd, CurlyBegin(s1.at, raw, span));
      (Returns(e.result), AfterCurly(tokens, e))
    case Ok(_) => (Panics(NotImplemented), s1)
  }

  /**
   * What `next` promises: errors pass through, a panic comes only from a
   * token that is neither text nor a curly opening, and every tag is a
   * virtual text tag or a curly tag made of the tokens consumed for it.
   */
  lemma ParseNextOutcome(tokens: seq<Item>, s: StreamState, valueEnd: bool)
    ensures var (t, _) := NextOf(tokens, s);
      var (r, _) := ParseNext(tokens, s, valueEnd);
      && (r.Panics? <==> t.Ok? && !t.value.InlineText? && !t.value.CurlyTagStart?)
      && (t.Err? ==> r == Returns(Err(t.error)))
      && (t.Ok? && t.value.InlineText? ==> r == Returns(Ok(ProcessText(t.value.span, t.value.raw, t.value.parsed))))
      && (t.Ok? && t.value.CurlyTagStart? ==>
            var k0 := NextOf(tokens, s).1.at;
            && r.Returns?
            && CurlyTagMadeOf(tokens, t.value.span, t.value.name, valueEnd, k0, t.value.raw,
                              CurlyLoop(tokens, t.value.span, t.value.name, valueEnd, CurlyBegin(k0, t.value.raw, t.value.span))))
  {
    var (t, s1) := NextOf(tokens, s);
    if t.Ok? && t.value.CurlyTagStart? {
      ProcessCurlyMadeOf(tokens, t.value.span, t.value.name, valueEnd, s1.at, t.value.raw);
    }
  }

  /** A text-only document: the text tag, then `EndOfInput`. */
  lemma TextExample(tokens: seq<Item>, valueEnd: bool)
    requires tokens == [Ok(InlineText(Span(Position(0, 1, 0), Position(13, 2, 4)), " \t hi!  \n   a", " \t hi!\na"))]
    ensures var (r1, s1) := ParseNext(tokens, FreshStream, valueEnd);
      && r1 == Returns(Ok(Tag(TextName, Virtual, " \t hi!  \n   a", [Attr(ValName, StringValue(" \t hi!\na"))],
                              Span(Position(0, 1, 0), Position(13, 2, 4)))))
      && ParseNext(tokens, s1, valueEnd).0 == Returns(Err(EndOfInput))
  {
  }

  /** "{icon \n }": one full curly tag without attributes, its raw text the whole input. */
  lemma CurlyExample(tokens: seq<Item>, icon: BasicName, valueEnd: bool)
    requires tokens == [Ok(CurlyTagStart(Span(Position(0, 1, 0), Position(5, 1, 5)), "{icon", icon)),
                        Ok(Whitespace(Span(Position(5, 1, 5), Position(8, 2, 1)), " \n ", " \n ")),
                        Ok(CurlyTagEnd(Span(Position(8, 2, 1), Position(9, 2, 2)), '}'))]
    ensures var (r1, s1) := ParseNext(tokens, FreshStream, valueEnd);
      && r1 == Returns(Ok(Tag(icon, CurlyFull, "{icon \n }", [], Span(Position(0, 1, 0), Position(9, 2, 2)))))
      && ParseNext(tokens, s1, valueEnd).0 == Returns(Err(EndOfInput))
  {
    var start := Span(Position(0, 1, 0), Position(5, 1, 5));
    var s0 := CurlyBegin(1, "{icon", start);
    var s1 := CurlyScan(2, SeekName, [], "{icon \n ", Position(8, 2, 1));
    var s2 := s1.(phase := SeekStop);
    assert "{icon" + " \n " == "{icon \n " && "{icon \n " + ['}'] == "{icon \n }";
    CurlyContinues(tokens, start, icon, valueEnd, s0, s1);
    CurlyContinues(tokens, start, icon, valueEnd, s1, s2);
  }

  // ---------------------------------------------------------------------
  // Views

  /** Views numbered 1, 2, ... without repeats; 0 stays the curly stack. */
  predicate Numbered(views: map<string, nat>)
  {
    && (forall p :: p in views ==> 1 <= views[p] <= |views|)
    && (forall p, q :: p in views && q in views && p != q ==> views[p] != views[q])
  }

  /** Adding a new view keeps the numbering and gives it the next number. */
  lemma AddNewView(views: map<string, nat>, prefix: string)
    requires Numbered(views) && prefix !in views
    ensures Numbered(views[prefix := |views| + 1])
  {
    var views' := views[prefix := |views| + 1];
    assert views'.Keys == views.Keys + {prefix};
    assert |views'| == |views| + 1;
  }

  /** Adding a view a second time renumbers it to a number a later new view also gets. */
  lemma ViewAddedTwice(a: string, b: string)
    requires a != b
    ensures var v := map[a := 1][a := |map[a := 1]| + 1];
      var w := v[b := |v| + 1];
      w[a] == w[b]
  {
    var v := map[a := 1][a := |map[a := 1]| + 1];
    assert v == map[a := 2];
    assert |v| == 1;
  }

  class BasicParser {
    var showFullPrefix: bool
    var views: map<string, nat>
    var stacks: seq<seq<BasicName>>
    const tokenizer: TokenStream

    /** `new`: no views, only the curly stack, a fresh tokenizer. */
    constructor (tokens: seq<Item>)
      ensures fresh(tokenizer) && tokenizer.tokens == tokens && tokenizer.State() == FreshStream
      ensures !showFullPrefix && views == map[] && stacks == [[]]
    {
      showFullPrefix := false;
      views := map[];
      stacks := [[]];
      tokenizer := new TokenStream(tokens);
    }

    /** `add_view`: the view gets the number of views before it plus one. */
    method AddView(prefix: string)
      modifies this`views
      ensures views == old(views)[prefix := |old(views)| + 1]
    {
      var n := |views| + 1;
      views := views[prefix := n];
    }

    /** `view_to_index`. */
    function ViewToIndex(prefix: string): (r: Option<nat>)
      reads this
      ensures r.Some? <==> prefix in views
      ensures r.Some? && Numbered(views) ==> 1 <= r.value <= |views|
    {
      if prefix in views then Some(views[prefix]) else None
    }

    /**
     * `process_curly_tag`; an attribute value sets the span end to that of
     * the opening token as written (`valueEnd` false), to that of the value
     * corrected.
     */
    method ProcessCurlyTag(span: Span, raw: string, name: BasicName, valueEnd: bool) returns (r: Result<Tag, ParserError>)
      requires !tokenizer.reout
      modifies tokenizer
      ensures var e := CurlyLoop(tokenizer.tokens, span, name, valueEnd, CurlyBegin(old(tokenizer.at), raw, span));
        r == e.result && tokenizer.State() == AfterCurly(tokenizer.tokens, e)
    {
      ghost var tokens := tokenizer.tokens;
      ghost var goal := CurlyLoop(tokens, span, name, valueEnd, CurlyBegin(tokenizer.at, raw, span));
      var attrs: seq<Attr> := [];
      var tagRaw := raw;
      var tagEnd := span.end;
      var token := tokenizer.Next();
      while true
        invariant !tokenizer.reout && 1 <= tokenizer.at && tokenizer.output == token
        invariant token == ItemAt(tokens, tokenizer.at - 1)
        invariant CurlyLoop(tokens, span, name, valueEnd, CurlyScan(tokenizer.at - 1, SeekName, attrs, tagRaw, tagEnd)) == goal
        decreases |tokens| - tokenizer.at
      {
        var attrName, found;
        token, attrName, tagRaw, tagEnd, found := SeekAttrName(span, name, valueEnd, token, attrs, tagRaw, tagEnd);
        if !found {
          if token.Err? {
            return Err(token.error);
          }
          break;
        }
        var err;
        attrs, tagRaw, tagEnd, err := TakeAttrValue(span, name, valueEnd, attrName, attrs, tagRaw, tagEnd);
        if err.Some? {
          return Err(err.value);
        }
        token := tokenizer.Next();
      }
      r := FinishCurlyTag(span, name, valueEnd, token, attrs, tagRaw, tagEnd);
    }

    /**
     * The inner loop of `process_curly_tag`: blanks are taken into the tag
     * until an attribute name (`found`), another token (the tag ends there)
     * or an error.
     */
    method SeekAttrName(ghost span: Span, ghost name: BasicName, ghost valueEnd: bool, token0: Item, attrs: seq<Attr>, raw0: string, end0: Position)
      returns (token: Item, attrName: BasicName, tagRaw: string, tagEnd: Position, found: bool)
      requires !tokenizer.reout && 1 <= tokenizer.at && tokenizer.output == token0
      requires token0 == ItemAt(tokenizer.tokens, tokenizer.at - 1)
      modifies tokenizer
      ensures !tokenizer.reout && old(tokenizer.at) <= tokenizer.at && tokenizer.output == token
      ensures token == ItemAt(tokenizer.tokens, tokenizer.at - 1)
      ensures var before := CurlyLoop(tokenizer.tokens, span, name, valueEnd, CurlyScan(old(tokenizer.at) - 1, SeekName, attrs, raw0, end0));
        && (found ==> before == CurlyLoop(tokenizer.tokens, span, name, valueEnd, CurlyScan(tokenizer.at, SeekValue(attrName), attrs, tagRaw, tagEnd)))
        && (!found && token.Ok? ==> before == CurlyLoop(tokenizer.tokens, span, name, valueEnd, CurlyScan(tokenizer.at - 1, SeekStop, attrs, tagRaw, tagEnd)))
        && (token.Err? ==> !found && before == CurlyOutcome(Err(token.error), tokenizer.at - 1, false))
    {
      ghost var tokens := tokenizer.tokens;
      ghost var goal := CurlyLoop(tokens, span, name, valueEnd, CurlyScan(tokenizer.at - 1, SeekName, attrs, raw0, end0));
      token, tagRaw, tagEnd := token0, raw0, end0;
      attrName := RawTokenizer.NewName;
      while true
        invariant !tokenizer.reout && old(tokenizer.at) <= tokenizer.at && tokenizer.output == token
        invariant token == ItemAt(tokens, tokenizer.at - 1)
        invariant CurlyLoop(tokens, span, name, valueEnd, CurlyScan(tokenizer.at - 1, SeekName, attrs, tagRaw, tagEnd)) == goal
        decreases |tokens| - tokenizer.at
      {
        ghost var s := CurlyScan(tokenizer.at - 1, SeekName, attrs, tagRaw, tagEnd);
        match token {
          case Ok(AttributeName(tspan, traw, n)) =>
            attrName, tagRaw, tagEnd := n, tagRaw + traw, tspan.end;
            CurlyContinues(tokens, span, name, valueEnd, s, CurlyScan(tokenizer.at, SeekValue(attrName), attrs, tagRaw, tagEnd));
            return token, attrName, tagRaw, tagEnd, true;
          case Ok(Whitespace(tspan, traw, _)) =>
            tagRaw, tagEnd := tagRaw + traw, tspan.end;
            CurlyContinues(tokens, span, name, valueEnd, s, CurlyScan(tokenizer.at, SeekName, attrs, tagRaw, tagEnd));
            token := tokenizer.Next();
          case Ok(_) =>
            CurlyContinues(tokens, span, name, valueEnd, s, s.(phase := SeekStop));
            return token, attrName, tagRaw, tagEnd, false;
          case Err(err) =>
            assert CurlyStep(tokens, span, name, valueEnd, s) == Exit(CurlyOutcome(Err(err), s.k, false));
            return token, attrName, tagRaw, tagEnd, false;
        }
      }
    }

    /** After an attribute name, the next token must be its value: the attribute is added, or the tag fails. */
    method TakeAttrValue(span: Span, ghost name: BasicName, valueEnd: bool, attrName: BasicName, attrs0: seq<Attr>, raw0: string, end0: Position)
      returns (attrs: seq<Attr>, tagRaw: string, tagEnd: Position, err: Option<ParserError>)
      requires !tokenizer.reout
      modifies tokenizer
      ensures !tokenizer.reout && tokenizer.at == old(tokenizer.at) + 1 && tokenizer.output == ItemAt(tokenizer.tokens, old(tokenizer.at))
      ensures var before := CurlyLoop(tokenizer.tokens, span, name, valueEnd, CurlyScan(old(tokenizer.at), SeekValue(attrName), attrs0, raw0, end0));
        && (err.None? ==> before == CurlyLoop(tokenizer.tokens, span, name, valueEnd, CurlyScan(tokenizer.at, SeekName, attrs, tagRaw, tagEnd)))
        && (err.Some? ==> before == CurlyOutcome(Err(err.value), old(tokenizer.at), false))
    {
      ghost var tokens := tokenizer.tokens;
      var token := tokenizer.Next();
      ghost var s := CurlyScan(tokenizer.at - 1, SeekValue(attrName), attrs0, raw0, end0);
      match token {
        case Ok(AttributeValue(vspan, traw, v)) =>
          attrs, tagRaw, tagEnd, err := attrs0 + [Attr(attrName, v)], raw0 + traw, if valueEnd then vspan.end else span.end, None;
          CurlyContinues(tokens, span, name, valueEnd, s, CurlyScan(tokenizer.at, SeekName, attrs, tagRaw, tagEnd));
        case Ok(tok) =>
          assert CurlyStep(tokens, span, name, valueEnd, s) == Exit(CurlyOutcome(Err(NotAttributeValue(tok.span, tok.Raw())), s.k, false));
          attrs, tagRaw, tagEnd, err := attrs0, raw0, end0, Some(NotAttributeValue(tok.span, tok.Raw()));
        case Err(e) =>
          assert CurlyStep(tokens, span, name, valueEnd, s) == Exit(CurlyOutcome(Err(e), s.k, false));
          attrs, tagRaw, tagEnd, err := attrs0, raw0, end0, Some(e);
      }
    }

    /**
     * The last loop of `process_curly_tag`: blanks are taken into the tag,
     * a marker or a closing brace ends it, any other token is pushed back.
     */
    method FinishCurlyTag(span: Span, name: BasicName, ghost valueEnd: bool, token0: Item, attrs: seq<Attr>, raw0: string, end0: Position)
      returns (r: Result<Tag, ParserError>)
      requires !tokenizer.reout && 1 <= tokenizer.at && tokenizer.output == token0
      requires token0 == ItemAt(tokenizer.tokens, tokenizer.at - 1)
      modifies tokenizer
      ensures var e := CurlyLoop(tokenizer.tokens, span, name, valueEnd, CurlyScan(old(tokenizer.at) - 1, SeekStop, attrs, raw0, end0));
        r == e.result && tokenizer.State() == AfterCurly(tokenizer.tokens, e)
    {
      ghost var tokens := tokenizer.tokens;
      ghost var goal := CurlyLoop(tokens, span, name, valueEnd, CurlyScan(tokenizer.at - 1, SeekStop, attrs, raw0, end0));
      var token, tagRaw, tagEnd := token0, raw0, end0;
      var kind := CurlyStart;
      while true
        invariant !tokenizer.reout && 1 <= tokenizer.at && tokenizer.output == token
        invariant token == ItemAt(tokens, tokenizer.at - 1)
        invariant CurlyLoop(tokens, span, name, valueEnd, CurlyScan(tokenizer.at - 1, SeekStop, attrs, tagRaw, tagEnd)) == goal
        decreases |tokens| - tokenizer.at
      {
        ghost var s := CurlyScan(tokenizer.at - 1, SeekStop, attrs, tagRaw, tagEnd);
        match token {
          case Ok(Whitespace(tspan, traw, _)) =>
            tagRaw, tagEnd := tagRaw + traw, tspan.end;
            CurlyContinues(tokens, span, name, valueEnd, s, CurlyScan(tokenizer.at, SeekStop, attrs, tagRaw, tagEnd));
          case Ok(TextMarker(tspan, c)) =>
            tagRaw, tagEnd := tagRaw + [c], tspan.end;
            assert CurlyStep(tokens, span, name, valueEnd, s)
              == Exit(CurlyOutcome(Ok(Tag(name, kind, tagRaw, attrs, Span(span.start, tagEnd))), s.k, false));
            break;
          case Ok(CurlyTagEnd(tspan, c)) =>
            tagRaw, tagEnd := tagRaw + [c], tspan.end;
            kind := CurlyFull;
            assert CurlyStep(tokens, span, name, valueEnd, s)
              == Exit(CurlyOutcome(Ok(Tag(name, kind, tagRaw, attrs, Span(span.start, tagEnd))), s.k, false));
            break;
          case _ =>
            assert CurlyStep(tokens, span, name, valueEnd, s)
              == Exit(CurlyOutcome(Ok(Tag(name, kind, tagRaw, attrs, Span(span.start, tagEnd))), s.k, true));
            tokenizer.Unnext();
            break;
        }
        token := tokenizer.Next();
      }
      return Ok(Tag(name, kind, tagRaw, attrs, Span(span.start, tagEnd)));
    }

    /** `next`, with the curly loop as written when `valueEnd` is false. */
    method Next(valueEnd: bool) returns (r: Completion<Result<Tag, ParserError>>)
      modifies tokenizer
      ensures (r, tokenizer.State()) == ParseNext(tokenizer.tokens, old(tokenizer.State()), valueEnd)
    {
      var token := tokenizer.Next();
      match token {
        case Err(err) =>
          return Returns(Err(err));
        case Ok(InlineText(span, raw, val)) =>
          return Returns(Ok(ProcessText(span, raw, val)));
        case Ok(CurlyTagStart(span, raw, name)) =>
          var t := ProcessCurlyTag(span, raw, name, valueEnd);
          return Returns(t);
        case Ok(_) =>
          return Panics(NotImplemented);
      }
    }
  }
}
