/**
 * The token loop of the Go SAX reader (go/sax.go `BasicTokenReader`): inline
 * text, `<name ...>` and `<name .../>` start tags, `</name>` and `</>` end
 * tags, matched through one stack of open elements per view.
 */
module SaxReader {
  import opened Wrappers
  import opened SaxText
  import Cursors

  /** `Name`: a namespace and a local name. */
  datatype Name = Name(space: string, local: string)

  /** `Name.String`, which end tags are compared by. */
  function NameString(n: Name): string
  {
    n.space + ":" + n.local
  }

  predicate IsZeroName(n: Name)
  {
    n.space == "" && n.local == ""
  }

  /** What `setNameAndView` extracts from the text of a tag with the `reTagName` pattern. */
  datatype TagName = TagName(view: string, name: Name)

  /** `StartElement` (its style is always `<`; its attribute map is never filled). */
  datatype StartElement = StartElement(view: string, name: Name, startPos: Pos, selfClosing: bool)

  /** `EndElement`; `abbrev` is `AbbrevEnding`, set for `</>`. */
  datatype EndElement = EndElement(view: string, name: Name, startPos: Pos, abbrev: bool)

  /** The tokens `ReadToken` returns; a text token is the finished `CharData`. */
  datatype Token =
    | Text(text: string, startPos: Pos)
    | Start(start: StartElement)
    | End(end: EndElement)
    | EndInput

  /** `this.cur`: the token being read. The text one lives in the reader's `CharData`. */
  datatype Cur = NoCur | CurText | CurStart(s: StartElement) | CurEnd(e: EndElement)

  /** `this.mode`: inline text, just after `<`, inside a start tag, inside an end tag. */
  datatype Mode = InText | Opened | InStart | InEnd

  /** `this.submode` of a start tag: its name, its attributes, after `/`. */
  datatype Sub = ReadingName | Attrs | Closing

  /** The errors `ReadToken` reports, named after their messages. */
  datatype ReadError =
    | UnexpectedOnFinish(r: char)              // "unexpected char on finish XML tag: r"
    | WrongClosure(expected: string, got: string) // "wrong element closure, expected ... but got ..."

  /**
   * How a `ReadToken` call ends: a token and maybe an error, an error and
   * no token, or a panic when an end tag finds the stack of its view empty.
   */
  datatype Outcome = Yield(token: Token, err: Option<ReadError>) | Fails(error: ReadError) | Aborts(view: string)

  type Stacks = map<string, seq<StartElement>>

  /** The stack of `view`; a view never pushed has the empty stack. */
  function StackOf(m: Stacks, view: string): seq<StartElement>
  {
    if view in m then m[view] else []
  }

  /** `push`: `e` on top of the stack of its view. */
  function PushStack(m: Stacks, e: StartElement): (m': Stacks)
    ensures StackOf(m', e.view) == StackOf(m, e.view) + [e]
  {
    m[e.view := StackOf(m, e.view) + [e]]
  }

  /** `pop`: the top of the stack of `view`, and the stacks without it. */
  function PopStack(m: Stacks, view: string): (r: (StartElement, Stacks))
    requires |StackOf(m, view)| > 0
    ensures StackOf(m, view) == StackOf(r.1, view) + [r.0]
  {
    var s := StackOf(m, view);
    (s[|s| - 1], m[view := s[..|s| - 1]])
  }

  /** A push leaves the stacks of the other views alone. */
  lemma PushElsewhere(m: Stacks, e: StartElement)
    ensures forall v | v != e.view :: StackOf(PushStack(m, e), v) == StackOf(m, v)
  {
  }

  /** A pop leaves the stacks of the other views alone. */
  lemma PopElsewhere(m: Stacks, view: string)
    requires |StackOf(m, view)| > 0
    ensures forall v | v != view :: StackOf(PopStack(m, view).1, v) == StackOf(m, v)
  {
  }

  /** Popping a view returns the last element pushed with it and restores every stack. */
  lemma PopAfterPush(m: Stacks, e: StartElement)
    ensures var r := PopStack(PushStack(m, e), e.view);
      r.0 == e && forall v :: StackOf(r.1, v) == StackOf(m, v)
  {
    var r := PopStack(PushStack(m, e), e.view);
    PushElsewhere(m, e);
    PopElsewhere(PushStack(m, e), e.view);
    assert StackOf(m, e.view) + [e] == StackOf(r.1, e.view) + [r.0];
    assert (StackOf(m, e.view) + [e])[..|StackOf(m, e.view)|] == StackOf(m, e.view);
  }

  /** Every element sits on the stack of its own view. */
  predicate ByView(m: Stacks)
  {
    forall v | v in m :: forall i | 0 <= i < |m[v]| :: m[v][i].view == v
  }

  /** Pushing keeps every element on the stack of its view. */
  lemma PushByView(m: Stacks, e: StartElement)
    requires ByView(m)
    ensures ByView(PushStack(m, e))
  {
    PushElsewhere(m, e);
  }

  /** Popping keeps every element on the stack of its view, and the popped one was on the stack of the view popped. */
  lemma PopByView(m: Stacks, view: string)
    requires |StackOf(m, view)| > 0
    ensures ByView(m) ==> ByView(PopStack(m, view).1) && PopStack(m, view).0.view == view
  {
    PopElsewhere(m, view);
  }

  /** The fields of a `BasicTokenReader` and of its current `CharData`. */
  datatype ReaderState = ReaderState(
    src: string,       // the runes not read yet
    mode: Mode,
    sub: Sub,
    cur: Cur,
    text: TextState,   // the current `CharData`
    textPos: Pos,      // its `StartPos`
    pos: Pos,
    eof: bool,
    stacks: Stacks,
    clean: bool)       // `cleanToken`

  /** A reader before its first call. */
  function Initial(input: string): ReaderState
  {
    ReaderState(input, InText, ReadingName, NoCur, Fresh, Pos(0, 0, 0), Pos(0, 0, 0), false, map[], false)
  }

  /** How the fields of a reader hang together between calls. */
  predicate Good(st: ReaderState)
  {
    && (st.mode == InText && st.clean ==> st.cur == CurText)
    && (st.clean && st.cur == CurText && !st.eof ==> st.text.last <= |st.text.val|)
    && (st.mode == Opened ==> !st.clean)
    && (st.mode == InStart ==> st.clean && st.cur.CurStart?)
    && (st.mode == InEnd ==> st.clean && st.cur.CurEnd?)
  }

  /** The local variables of `ReadToken` around the reader: `tmpStr`, `r` and `skipRead`. */
  datatype Scan = Scan(st: ReaderState, tmp: string, r: char, skip: bool)

  predicate ScanGood(sc: Scan)
  {
    Good(sc.st) && !sc.st.eof && (sc.skip ==> sc.st.mode == InStart && sc.st.sub == Attrs)
  }

  /** The runes that continue a tag name. */
  predicate IsTagChar(cls: Classes, r: char)
  {
    IsAlnum(cls, r) || r == '|' || r == ':'
  }

  /**
   * The stacks change as the returned token says: a push, a pop, or
   * nothing. A token returned at the end of the input changes nothing.
   */
  predicate Respects(before: Stacks, res: (ReaderState, Outcome))
  {
    if res.0.eof then res.0.stacks == before
    else match res.1
    case Yield(Start(s), err) =>
      err == None && res.0.stacks == if s.selfClosing then before else PushStack(before, s)
    case Yield(End(e), err) =>
      ByView(before) ==> (
        && |StackOf(before, e.view)| > 0
        && var (top, rest) := PopStack(before, e.view);
        && res.0.stacks == rest
        && (e.abbrev ==> e.name == top.name)
        && (err == None <==> e.abbrev || NameString(e.name) == NameString(top.name)))
    case Aborts(view) => StackOf(before, view) == [] && res.0.stacks == before
    case _ => res.0.stacks == before
  }

  /** Whether the current token is worth returning at the end of the input (`!cur.isZero()`). */
  predicate Pending(st: ReaderState)
  {
    match st.cur
    case NoCur => false
    case CurText => |st.text.val| != 0
    case _ => true
  }

  /** The end of the input: the pending token, else `EndInput`. */
  function AtEof(st: ReaderState): (res: (ReaderState, Outcome))
    requires Good(st) && !st.eof
    ensures Good(res.0) && res.0.eof && res.0.stacks == st.stacks
    ensures res.1.Yield? && res.1.err == None
    ensures res.1.token == EndInput <==> !(st.clean && Pending(st))
    ensures res.1.token.Text? ==> st.cur == CurText
    ensures st.clean && st.cur == CurText && |st.text.val| != 0 ==> res.1.token == Text(Final(st.text), st.textPos)
  {
    var st1 := st.(pos := Advance(st.pos, '\0', 0), eof := true);
    if st.clean && Pending(st) then
      match st.cur
      case CurText => (st1.(text := st.text.(val := "")), Yield(Text(Final(st.text), st.textPos), None))
      case CurStart(s) => (st1, Yield(Start(s), None))
      case CurEnd(e) => (st1, Yield(End(e), None))
    else
      (st1, Yield(EndInput, None))
  }

  type Res = (ReaderState, Outcome)

  /** Mode 0: one rune of inline text, or the `<` that ends it. */
  function TextRune(cls: Classes, ent: map<string, string>, st: ReaderState, tmp: string, r: char): (s: Cursors.Step<Scan, Res>)
    requires Good(st) && !st.eof && st.mode == InText
    ensures s.Continue? ==> ScanGood(s.next) && !s.next.skip && s.next.st.src == st.src && s.next.st.stacks == st.stacks
    ensures s.Exit? ==>
      && Good(s.result.0) && !s.result.0.eof && s.result.0.stacks == st.stacks
      && s.result.1.Yield? && s.result.1.token.Text? && s.result.1.err == None
  {
    var st1 := if !st.clean then st.(clean := true, text := Fresh, textPos := st.pos, cur := CurText) else st;
    if r == '<' && st1.text.mode == Plain then
      var st2 := st1.(mode := Opened, clean := false);
      if |st1.text.val| != 0 then
        Cursors.Exit((st2.(text := st1.text.(val := "")), Yield(Text(Final(st1.text), st1.textPos), None)))
      else
        Cursors.Continue(Scan(st2, "", r, false))
    else
      Cursors.Continue(Scan(st1.(text := NextText(cls, ent, st1.text, r).0), tmp, r, false))
  }

  /** Mode 1: the rune after `<` opens an end tag (`/`) or a start tag. */
  function OpenRune(st: ReaderState, r: char): (s: Cursors.Step<Scan, Res>)
    requires Good(st) && !st.eof && st.mode == Opened
    ensures s.Continue? && ScanGood(s.next) && !s.next.skip
    ensures s.next.st.src == st.src && s.next.st.stacks == st.stacks
  {
    var at := st.pos.(col := st.pos.col - 1);
    if r == '/' then
      Cursors.Continue(Scan(st.(mode := InEnd, sub := ReadingName,
                                cur := CurEnd(EndElement("", Name("", ""), at, false)), clean := true), "", r, false))
    else
      Cursors.Continue(Scan(st.(mode := InStart, sub := ReadingName,
                                cur := CurStart(StartElement("", Name("", ""), at, false)), clean := true), [r], r, false))
  }

  /** Leaving a start tag: push it unless it closes itself. */
  function YieldStart(st: ReaderState, s: StartElement): (res: Res)
    requires !st.eof
    ensures Good(res.0)
  {
    (st.(stacks := if s.selfClosing then st.stacks else PushStack(st.stacks, s), mode := InText, clean := false),
     Yield(Start(s), None))
  }

  /** Mode 2: a rune of a start tag. */
  function StartRune(cls: Classes, names: string -> TagName, st: ReaderState, tmp: string, r: char): (s: Cursors.Step<Scan, Res>)
    requires Good(st) && !st.eof && st.mode == InStart
    ensures s.Continue? ==>
      && ScanGood(s.next) && s.next.st.src == st.src && s.next.st.stacks == st.stacks
      && (s.next.skip ==> st.sub == ReadingName)
    ensures s.Exit? ==> Good(s.result.0)
  {
    var e := st.cur.s;
    match st.sub
    case ReadingName =>
      if IsTagChar(cls, r) then
        Cursors.Continue(Scan(st, tmp + [r], r, false))
      else
        var tn := names(tmp);
        Cursors.Continue(Scan(st.(cur := CurStart(e.(view := tn.view, name := tn.name)), sub := Attrs), tmp, r, true))
    case Attrs =>
      var e1 := if r == '/' then e.(selfClosing := true) else e;
      var st1 := if r == '/' then st.(cur := CurStart(e1), sub := Closing) else st;
      if r == '>' then Cursors.Exit(YieldStart(st1, e1)) else Cursors.Continue(Scan(st1, tmp, r, false))
    case Closing =>
      if r == '>' then Cursors.Exit(YieldStart(st, e)) else Cursors.Exit((st, Fails(UnexpectedOnFinish(r))))
  }

  /** Leaving an end tag: pop the stack of its view and compare the names. */
  function CloseEnd(st: ReaderState, e: EndElement): (res: Res)
    requires Good(st) && !st.eof && st.mode == InEnd
    ensures Good(res.0)
  {
    var abbrev := IsZeroName(e.name);
    if |StackOf(st.stacks, e.view)| == 0 then
      (st.(cur := CurEnd(e.(abbrev := abbrev))), Aborts(e.view))
    else
      var (top, rest) := PopStack(st.stacks, e.view);
      var e2 := if abbrev then e.(name := top.name, view := top.view, abbrev := true) else e.(abbrev := false);
      var err :=
        if !abbrev && NameString(e.name) != NameString(top.name)
        then Some(WrongClosure(NameString(top.name), NameString(e.name)))
        else None;
      (st.(stacks := rest, cur := CurEnd(e2), mode := InText, clean := false), Yield(End(e2), err))
  }

  /** Mode 3: a rune of an end tag. */
  function EndRune(cls: Classes, names: string -> TagName, st: ReaderState, tmp: string, r: char): (s: Cursors.Step<Scan, Res>)
    requires Good(st) && !st.eof && st.mode == InEnd
    ensures s.Continue? ==> ScanGood(s.next) && !s.next.skip && s.next.st.src == st.src && s.next.st.stacks == st.stacks
    ensures s.Exit? ==> Good(s.result.0)
  {
    var e := st.cur.e;
    var named := !IsTagChar(cls, r) && tmp != [];
    var e1 := if named then e.(view := names(tmp).view, name := names(tmp).name) else e;
    var st1 := st.(cur := CurEnd(e1));
    if r == '>' then Cursors.Exit(CloseEnd(st1, e1))
    else Cursors.Continue(Scan(st1, if IsTagChar(cls, r) then tmp + [r] else tmp, r, false))
  }

  /** One turn of the `for !this.eof` loop of `ReadToken`. */
  function ReadStep(cls: Classes, ent: map<string, string>, names: string -> TagName, sc: Scan): (s: Cursors.Step<Scan, Res>)
    requires ScanGood(sc)
    ensures s.Continue? ==>
      && ScanGood(s.next) && s.next.st.stacks == sc.st.stacks
      && (if sc.skip then s.next.st.src == sc.st.src && !s.next.skip else |s.next.st.src| < |sc.st.src|)
    ensures s.Exit? ==> Good(s.result.0)
  {
    if !sc.skip && sc.st.src == [] then
      Cursors.Exit(AtEof(sc.st))
    else
      var r := if sc.skip then sc.r else sc.st.src[0];
      var st := if sc.skip then sc.st else sc.st.(src := sc.st.src[1..], pos := Advance(sc.st.pos, r, Width(r)));
      match st.mode
      case InText => TextRune(cls, ent, st, sc.tmp, r)
      case Opened => OpenRune(st, r)
      case InStart => StartRune(cls, names, st, sc.tmp, r)
      case InEnd => EndRune(cls, names, st, sc.tmp, r)
  }

  /** The loop of `ReadToken` from `sc` on; the reader keeps its invariant. */
  function ReadLoop(cls: Classes, ent: map<string, string>, names: string -> TagName, sc: Scan): (res: Res)
    requires ScanGood(sc)
    ensures Good(res.0)
    decreases |sc.st.src|, if sc.skip then 1 else 0
  {
    match ReadStep(cls, ent, names, sc)
    case Exit(res) => res
    case Continue(next) => ReadLoop(cls, ent, names, next)
  }

  /** `BasicTokenReader.ReadToken`, on the fields of the reader. */
  function Read(cls: Classes, ent: map<string, string>, names: string -> TagName, st: ReaderState): (res: Res)
    requires Good(st)
    ensures Good(res.0)
  {
    if st.eof then (st, Yield(EndInput, None)) else ReadLoop(cls, ent, names, Scan(st, "", '\0', false))
  }

  lemma YieldStartRespects(st: ReaderState, s: StartElement)
    requires !st.eof
    ensures Respects(st.stacks, YieldStart(st, s))
  {
  }

  lemma CloseEndRespects(st: ReaderState, e: EndElement)
    requires Good(st) && !st.eof && st.mode == InEnd
    ensures Respects(st.stacks, CloseEnd(st, e))
  {
    if |StackOf(st.stacks, e.view)| > 0 {
      PopByView(st.stacks, e.view);
    }
  }

  /** A turn of the loop that returns changes the stacks as its outcome says. */
  lemma StepRespects(cls: Classes, ent: map<string, string>, names: string -> TagName, sc: Scan)
    requires ScanGood(sc)
    ensures ReadStep(cls, ent, names, sc).Exit? ==> Respects(sc.st.stacks, ReadStep(cls, ent, names, sc).result)
  {
    if sc.skip || sc.st.src != [] {
      var r := if sc.skip then sc.r else sc.st.src[0];
      var st := if sc.skip then sc.st else sc.st.(src := sc.st.src[1..], pos := Advance(sc.st.pos, r, Width(r)));
      if st.mode == InStart && st.sub != ReadingName {
        YieldStartRespects(st, st.cur.s);
      } else if st.mode == InEnd {
        var e := st.cur.e;
        var e1 := if !IsTagChar(cls, r) && sc.tmp != [] then e.(view := names(sc.tmp).view, name := names(sc.tmp).name) else e;
        CloseEndRespects(st.(cur := CurEnd(e1)), e1);
      }
    }
  }

  /** The loop changes the stacks only as the returned token says. */
  lemma {:induction false} LoopRespects(cls: Classes, ent: map<string, string>, names: string -> TagName, sc: Scan)
    requires ScanGood(sc)
    ensures Respects(sc.st.stacks, ReadLoop(cls, ent, names, sc))
    decreases |sc.st.src|, if sc.skip then 1 else 0
  {
    StepRespects(cls, ent, names, sc);
    match ReadStep(cls, ent, names, sc)
    case Exit(_) =>
    case Continue(next) => LoopRespects(cls, ent, names, next);
  }

  /**
   * A call changes the stacks only as the returned token says: a start
   * element that does not close itself is pushed, an end element pops the
   * stack of its view, a panic finds that stack empty, and nothing else
   * (nor a token returned at the end of the input) touches them.
   */
  lemma ReadRespects(cls: Classes, ent: map<string, string>, names: string -> TagName, st: ReaderState)
    requires Good(st)
    ensures Respects(st.stacks, Read(cls, ent, names, st))
  {
    if !st.eof {
      LoopRespects(cls, ent, names, Scan(st, "", '\0', false));
    }
  }

  /** Every call keeps each element on the stack of its own view. */
  lemma ReadKeepsByView(cls: Classes, ent: map<string, string>, names: string -> TagName, st: ReaderState)
    requires Good(st) && ByView(st.stacks)
    ensures ByView(Read(cls, ent, names, st).0.stacks)
  {
    ReadRespects(cls, ent, names, st);
    var res := Read(cls, ent, names, st);
    if !res.0.eof {
      match res.1
      case Yield(Start(s), _) =>
        PushByView(st.stacks, s);
      case Yield(End(e), _) =>
        PopByView(st.stacks, e.view);
      case _ =>
    }
  }

  /** `BasicTokenReader`: the fields `ReadToken` updates in place. */
  class TokenReader {
    var src: string
    var mode: Mode
    var sub: Sub
    var cur: Cur
    var text: CharData
    var pos: Pos
    var eof: bool
    var stacks: Stacks
    var cleanToken: bool

    function State(): ReaderState
      reads this, text
    {
      ReaderState(src, mode, sub, cur, text.State(), text.startPos, pos, eof, stacks, cleanToken)
    }

    /** `NewTokenReader`: a reader at the start of `input`. */
    constructor (input: string)
      ensures State() == Initial(input)
    {
      src, mode, sub, cur := input, InText, ReadingName, NoCur;
      text := new CharData(Pos(0, 0, 0));
      pos, eof, stacks, cleanToken := Pos(0, 0, 0), false, map[], false;
    }

    /** `push`. */
    method Push(e: StartElement)
      modifies this
      ensures text == old(text)
      ensures State() == old(State()).(stacks := PushStack(old(stacks), e))
    {
      stacks := PushStack(stacks, e);
    }

    /** `pop`: the top of the stack of `view`; `None` where the source indexes an empty slice and panics. */
    method Pop(view: string) returns (top: Option<StartElement>)
      modifies this
      ensures text == old(text)
      ensures |StackOf(old(stacks), view)| == 0 ==> top == None && State() == old(State())
      ensures |StackOf(old(stacks), view)| > 0 ==>
        && top == Some(PopStack(old(stacks), view).0)
        && State() == old(State()).(stacks := PopStack(old(stacks), view).1)
    {
      var s := StackOf(stacks, view);
      if |s| == 0 {
        return None;
      }
      top := Some(s[|s| - 1]);
      stacks := stacks[view := s[..|s| - 1]];
    }

    /** The end of the input. */
    method Finish() returns (out: Outcome)
      requires Good(State()) && !eof
      modifies this, text
      ensures text == old(text)
      ensures (State(), out) == AtEof(old(State()))
    {
      pos, eof := Advance(pos, '\0', 0), true;
      if cleanToken && cur == CurText && !text.IsZero() {
        text.Finish();
        out := Yield(Text(text.final, text.startPos), None);
      } else if cleanToken && cur.CurStart? {
        out := Yield(Start(cur.s), None);
      } else if cleanToken && cur.CurEnd? {
        out := Yield(End(cur.e), None);
      } else {
        out := Yield(EndInput, None);
      }
    }

    /** Mode 0. */
    method TextStep(cls: Classes, ent: map<string, string>, tmp: string, r: char)
      returns (done: bool, out: Outcome, tmp': string, skip': bool)
      requires Good(State()) && !eof && mode == InText
      modifies this, text
      ensures text == old(text) || fresh(text)
      ensures var s := TextRune(cls, ent, old(State()), tmp, r);
        if s.Exit? then done && (State(), out) == s.result
        else !done && Scan(State(), tmp', r, skip') == s.next
    {
      if !cleanToken {
        cleanToken := true;
        text := new CharData(pos);
        cur := CurText;
      }
      done, out, tmp', skip' := false, Yield(EndInput, None), tmp, false;
      if r == '<' && text.mode == Plain {
        tmp' := "";
        mode := Opened;
        cleanToken := false;
        if !text.IsZero() {
          text.Finish();
          done, out := true, Yield(Text(text.final, text.startPos), None);
        }
      } else {
        // the source drops the error `writeRune` reports
        var dropped := text.WriteRune(cls, ent, r);
      }
    }

    /** Mode 1. */
    method OpenStep(r: char) returns (tmp': string)
      requires Good(State()) && !eof && mode == Opened
      modifies this
      ensures text == old(text)
      ensures Scan(State(), tmp', r, false) == OpenRune(old(State()), r).next
    {
      var at := pos.(col := pos.col - 1);
      sub, cleanToken := ReadingName, true;
      if r == '/' {
        mode, cur, tmp' := InEnd, CurEnd(EndElement("", Name("", ""), at, false)), "";
      } else {
        mode, cur, tmp' := InStart, CurStart(StartElement("", Name("", ""), at, false)), [r];
      }
    }

    /** Yielding a start tag. */
    method EmitStart(e: StartElement) returns (out: Outcome)
      requires !eof
      modifies this
      ensures text == old(text)
      ensures (State(), out) == YieldStart(old(State()), e)
    {
      if !e.selfClosing {
        Push(e);
      }
      mode, cleanToken := InText, false;
      out := Yield(Start(e), None);
    }

    /** Mode 2. */
    method StartStep(cls: Classes, names: string -> TagName, tmp: string, r: char)
      returns (done: bool, out: Outcome, tmp': string, skip': bool)
      requires Good(State()) && !eof && mode == InStart
      modifies this
      ensures text == old(text)
      ensures var s := StartRune(cls, names, old(State()), tmp, r);
        if s.Exit? then done && (State(), out) == s.result
        else !done && Scan(State(), tmp', r, skip') == s.next
    {
      var e := cur.s;
      done, out, tmp', skip' := false, Yield(EndInput, None), tmp, false;
      match sub {
        case ReadingName =>
          if IsTagChar(cls, r) {
            tmp' := tmp + [r];
          } else {
            var tn := names(tmp);
            cur, sub, skip' := CurStart(e.(view := tn.view, name := tn.name)), Attrs, true;
          }
        case Attrs =>
          if r == '/' {
            e := e.(selfClosing := true);
            cur, sub := CurStart(e), Closing;
          }
          if r == '>' {
            done := true;
            out := EmitStart(e);
          }
        case Closing =>
          done := true;
          if r == '>' {
            out := EmitStart(e);
          } else {
            out := Fails(UnexpectedOnFinish(r));
          }
      }
    }

    /** Leaving an end tag. */
    method EmitEnd(e: EndElement) returns (out: Outcome)
      requires Good(State()) && !eof && mode == InEnd
      modifies this
      ensures text == old(text)
      ensures (State(), out) == CloseEnd(old(State()), e)
    {
      var abbrev := IsZeroName(e.name);
      cur := CurEnd(e.(abbrev := abbrev));
      var top := Pop(e.view);
      if top.None? {
        return Aborts(e.view);
      }
      var start := top.value;
      var e2 := if abbrev then e.(name := start.name, view := start.view, abbrev := true) else e.(abbrev := false);
      var err: Option<ReadError> := None;
      if !abbrev && NameString(e.name) != NameString(start.name) {
        err := Some(WrongClosure(NameString(start.name), NameString(e.name)));
      }
      cur, mode, cleanToken := CurEnd(e2), InText, false;
      out := Yield(End(e2), err);
    }

    /** Mode 3. */
    method EndStep(cls: Classes, names: string -> TagName, tmp: string, r: char)
      returns (done: bool, out: Outcome, tmp': string)
      requires Good(State()) && !eof && mode == InEnd
      modifies this
      ensures text == old(text)
      ensures var s := EndRune(cls, names, old(State()), tmp, r);
        if s.Exit? then done && (State(), out) == s.result
        else !done && Scan(State(), tmp', r, false) == s.next
    {
      var e := cur.e;
      tmp' := tmp;
      if IsTagChar(cls, r) {
        tmp' := tmp + [r];
      } else if tmp != [] {
        e := e.(view := names(tmp).view, name := names(tmp).name);
      }
      cur := CurEnd(e);
      done, out := false, Yield(EndInput, None);
      if r == '>' {
        done := true;
        out := EmitEnd(e);
      }
    }

    /** One turn of the loop: read a rune unless it is to be read again, and dispatch on the mode. */
    method Step(cls: Classes, ent: map<string, string>, names: string -> TagName, tmp: string, r: char, skip: bool)
      returns (done: bool, out: Outcome, tmp': string, r': char, skip': bool)
      requires ScanGood(Scan(State(), tmp, r, skip))
      modifies this, text
      ensures text == old(text) || fresh(text)
      ensures var s := ReadStep(cls, ent, names, Scan(old(State()), tmp, r, skip));
        if s.Exit? then done && (State(), out) == s.result
        else !done && Scan(State(), tmp', r', skip') == s.next
    {
      r', skip', tmp' := r, false, tmp;
      if !skip {
        if src == [] {
          done := true;
          out := Finish();
          return;
        }
        r' := src[0];
        src, pos := src[1..], Advance(pos, r', Width(r'));
      }
      match mode {
        case InText =>
          done, out, tmp', skip' := TextStep(cls, ent, tmp, r');
        case Opened =>
          done, out := false, Yield(EndInput, None);
          tmp' := OpenStep(r');
        case InStart =>
          done, out, tmp', skip' := StartStep(cls, names, tmp, r');
        case InEnd =>
          done, out, tmp' := EndStep(cls, names, tmp, r');
      }
    }

    /** `ReadToken`: runs the loop until a token, an error or the end of the input. */
    method ReadToken(cls: Classes, ent: map<string, string>, names: string -> TagName) returns (out: Outcome)
      requires Good(State())
      modifies this, text
      ensures text == old(text) || fresh(text)
      ensures (State(), out) == Read(cls, ent, names, old(State()))
    {
      if eof {
        return Yield(EndInput, None);
      }
      var tmp, r, skip := "", '\0', false;
      ghost var goal := ReadLoop(cls, ent, names, Scan(State(), tmp, r, skip));
      while true
        invariant ScanGood(Scan(State(), tmp, r, skip))
        invariant ReadLoop(cls, ent, names, Scan(State(), tmp, r, skip)) == goal
        invariant text == old(text) || fresh(text)
        decreases |src|, if skip then 1 else 0
      {
        var done, o;
        done, o, tmp, r, skip := Step(cls, ent, names, tmp, r, skip);
        if done {
          return o;
        }
      }
    }
  }
}
