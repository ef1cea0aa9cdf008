/**
 * `parse_code_block` of rust/src/old2/token_parser_code_block.rs: a run of
 * backticks opens the block, an optional language name follows up to the
 * first blank, and a run of as many backticks closes it.  Shorter runs inside
 * are content; a block with no content reports its language name as the
 * content.
 *
 * Each iteration of the source's loop looks at the next char and either pops
 * it or, when `cycle` is set, looks at it again in the new mode.  The loop is
 * specified by `CodeLoop`; `closePops` selects the code as written (the char
 * after a closing run is popped) or as corrected (it is left in place).
 */
module CodeBlock {
  import opened Wrappers
  import opened Positions
  import opened Utf8Source
  import opened Cursors
  import Tokens
  import Prelude

  datatype CodeMode = Counting | ReadingLang | ReadingContent | Stop

  /** The loop's locals: chars popped, mode, opening and current run lengths, and what was collected. */
  datatype CodeScan = CodeScan(at: nat, mode: CodeMode, ticksStart: nat, ticks: nat, raw: string, lang: string, content: string)

  /** `n` backticks. */
  function Ticks(n: nat): (r: string)
    ensures |r| == n && forall i :: 0 <= i < n ==> r[i] == '`'
  {
    seq(n, _ => '`')
  }

  lemma TicksAdd(m: nat, n: nat)
    ensures Ticks(m) + Ticks(n) == Ticks(m + n)
  {
  }

  /** The scan with the next char popped onto `raw`. */
  function Popped(input: seq<char>, s: CodeScan): (r: CodeScan)
    ensures r.at == s.at + 1 && r.raw == s.raw + Slice(input, s.at, s.at + 1)
    ensures r.mode == s.mode && r.ticksStart == s.ticksStart && r.ticks == s.ticks && r.lang == s.lang && r.content == s.content
  {
    s.(at := s.at + 1, raw := s.raw + [StreamAt(input, s.at)])
  }

  /**
   * The rank of a scan within one position: a run count pops, a read mode
   * hands a backtick to the counter without popping, and a count ended by any
   * other char hands it to a read mode or stops.
   */
  function Rank(input: seq<char>, s: CodeScan): nat
  {
    match s.mode
    case Stop => 0
    case Counting => if StreamAt(input, s.at) == '`' then 0 else 2
    case ReadingLang => 1
    case ReadingContent => 1
  }

  function Remaining(input: seq<char>, s: CodeScan): nat
  {
    if s.at <= |input| then |input| - s.at else 0
  }

  /** The closing run and what follows it: popped (as written) or left (corrected), and what the state becomes. */
  function CloseStep(s: CodeScan, closePops: bool): (r: (CodeScan, bool))
    requires s.mode == Counting && s.ticksStart != 0 && s.ticks >= s.ticksStart
    ensures r.0.at == s.at && r.0.raw == s.raw && r.0.lang == s.lang && r.0.ticksStart == s.ticksStart
    ensures r.0.content == s.content + Ticks(s.ticks - s.ticksStart)
    ensures !closePops ==> r.0.mode == Stop && r.1
    ensures closePops ==> !r.1 && (r.0.mode == Stop <==> s.ticks == s.ticksStart)
  {
    if s.ticks == s.ticksStart then
      assert s.content + Ticks(0) == s.content;
      (s.(mode := Stop), !closePops)
    else (s.(content := s.content + Ticks(s.ticks - s.ticksStart), mode := if closePops then Counting else Stop), !closePops)
  }

  /** One iteration of `parse_code_block`'s loop: the next scan, or the scan it ends with. */
  function CodeStep(input: seq<char>, s: CodeScan, closePops: bool): (r: Step<CodeScan, CodeScan>)
    ensures r.Continue? ==>
      && s.at <= r.next.at <= s.at + 1
      && r.next.raw == s.raw + Slice(input, s.at, r.next.at)
      && (s.at < r.next.at ==> s.at < |input|)
      && (s.at < r.next.at || Rank(input, r.next) < Rank(input, s))
    ensures r.Exit? ==> r.result.raw == s.raw && r.result.at == s.at
    ensures r.Exit? ==> s.mode == Stop || StreamAt(input, s.at) == '\0'
  {
    var c1 := StreamAt(input, s.at);
    assert Slice(input, s.at, s.at) == [];
    match s.mode
    case Stop => Exit(s)
    case Counting =>
      if c1 == '`' then Continue(Popped(input, s.(ticks := s.ticks + 1)))
      else
        var (s', cycle) :=
          if s.ticksStart == 0 then (s.(ticksStart := s.ticks, mode := ReadingLang), true)
          else if s.ticks < s.ticksStart then (s.(mode := ReadingContent, content := s.content + Ticks(s.ticks)), true)
          else CloseStep(s, closePops);
        if c1 == '\0' then Exit(s')
        else if cycle then Continue(s')
        else Continue(Popped(input, s'))
    case ReadingLang =>
      if c1 == '\0' then Continue(s.(mode := Stop))
      else if c1 == ' ' || c1 == '\n' || c1 == '\t' then Continue(Popped(input, s.(mode := ReadingContent)))
      else if c1 == '`' then Continue(s.(mode := Counting, ticks := 0))
      else Continue(Popped(input, s.(lang := s.lang + [c1])))
    case ReadingContent =>
      if c1 == '\0' then Continue(s.(mode := Stop))
      else if c1 == '`' then Continue(s.(mode := Counting, ticks := 0))
      else Continue(Popped(input, s.(content := s.content + [c1])))
  }

  function CodeLoop(input: seq<char>, s: CodeScan, closePops: bool): CodeScan
    decreases Remaining(input, s), Rank(input, s)
  {
    match CodeStep(input, s, closePops)
    case Continue(s') => CodeLoop(input, s', closePops)
    case Exit(r) => r
  }

  /** The loop starts counting, with nothing collected. */
  function CodeStart(at: nat): CodeScan
  {
    CodeScan(at, Counting, 0, 0, "", "", "")
  }

  /**
   * The token `parse_code_block` returns (it never fails): the span of the
   * chars popped, those chars, and the language name and content, swapped
   * when there is no content.  A language name is only reported beside some
   * content.
   */
  function CodeBlockToken(input: seq<char>, at: nat, closePops: bool): (r: Tokens.Token)
    ensures r.val.CodeBlock? && (r.val.lang != "" ==> r.val.content != "")
  {
    var f := CodeLoop(input, CodeStart(at), closePops);
    var (lang, content) := if |f.content| == 0 then (f.content, f.lang) else (f.lang, f.content);
    Tokens.Token(Span(StreamPos(input, at), StreamPos(input, f.at)), f.raw, Tokens.CodeBlock(lang, content))
  }

  /** The loop goes on from where a step continues. */
  lemma CodeContinues(input: seq<char>, s: CodeScan, closePops: bool, s': CodeScan)
    requires CodeStep(input, s, closePops) == Continue(s')
    ensures CodeLoop(input, s, closePops) == CodeLoop(input, s', closePops)
  {
  }

  /**
   * `raw` is exactly the chars popped, and the loop ends in `Stop` or before
   * a NUL, at the end of input or not.
   */
  lemma {:induction false} CodeLoopResult(input: seq<char>, s: CodeScan, closePops: bool)
    ensures var f := CodeLoop(input, s, closePops);
      && s.at <= f.at && f.raw == s.raw + Slice(input, s.at, f.at)
      && (f.mode == Stop || StreamAt(input, f.at) == '\0')
    decreases Remaining(input, s), Rank(input, s)
  {
    var st := CodeStep(input, s, closePops);
    if st.Continue? {
      CodeContinues(input, s, closePops, st.next);
      CodeLoopResult(input, st.next, closePops);
      SliceAppend(input, s.at, st.next.at, CodeLoop(input, st.next, closePops).at);
    } else {
      assert Slice(input, s.at, s.at) == [];
    }
  }

  /** The token's span covers exactly the bytes of its raw text. */
  lemma CodeSpanCoversRaw(input: seq<char>, at: nat, closePops: bool)
    ensures var t := CodeBlockToken(input, at, closePops);
      t.span.start == StreamPos(input, at) && t.span.Len() == ByteLen(t.raw)
  {
    CodeLoopResult(input, CodeStart(at), closePops);
    var f := CodeLoop(input, CodeStart(at), closePops);
    assert "" + Slice(input, at, f.at) == Slice(input, at, f.at);
    SpanOfSlice(input, at, f.at);
  }

  /** A backtick while counting: counted and popped. */
  lemma TickChar(input: seq<char>, s: CodeScan, closePops: bool)
    requires s.mode == Counting && StreamAt(input, s.at) == '`'
    ensures CodeLoop(input, s, closePops) == CodeLoop(input, Popped(input, s.(ticks := s.ticks + 1)), closePops)
  {
    CodeContinues(input, s, closePops, Popped(input, s.(ticks := s.ticks + 1)));
  }

  /** A slice of backticks: each char in it is a backtick. */
  lemma TicksAt(input: seq<char>, p: nat, n: nat)
    requires Slice(input, p, p + n) == Ticks(n)
    ensures forall i :: p <= i < p + n ==> StreamAt(input, i) == '`'
  {
    forall i | p <= i < p + n
      ensures StreamAt(input, i) == '`'
    {
      assert StreamAt(input, i) == Slice(input, p, p + n)[i - p];
    }
  }

  /** `k` backticks from `at` on. */
  predicate TicksFrom(input: seq<char>, at: nat, k: nat)
    decreases k
  {
    k == 0 || (StreamAt(input, at) == '`' && TicksFrom(input, at + 1, k - 1))
  }

  lemma {:induction false} TicksFromAll(input: seq<char>, at: nat, k: nat)
    requires forall i :: at <= i < at + k ==> StreamAt(input, i) == '`'
    ensures TicksFrom(input, at, k)
    decreases k
  {
    if k > 0 {
      TicksFromAll(input, at + 1, k - 1);
    }
  }

  /** The scan after `k` more backticks are counted and popped. */
  function TicksDone(s: CodeScan, k: nat): CodeScan
  {
    s.(at := s.at + k, ticks := s.ticks + k, raw := s.raw + Ticks(k))
  }

  /** One backtick popped, then `k - 1` more: `k` backticks. */
  lemma TicksDoneStep(input: seq<char>, s: CodeScan, k: nat)
    requires k > 0 && StreamAt(input, s.at) == '`'
    ensures TicksDone(Popped(input, s.(ticks := s.ticks + 1)), k - 1) == TicksDone(s, k)
  {
    assert Slice(input, s.at, s.at + 1) + Ticks(k - 1) == Ticks(k);
    assert s.raw + Slice(input, s.at, s.at + 1) + Ticks(k - 1) == s.raw + Ticks(k);
  }

  /** A run of `k` backticks while counting: all popped and counted. */
  lemma {:induction false} TickRun(input: seq<char>, s: CodeScan, closePops: bool, k: nat)
    requires s.mode == Counting
    requires TicksFrom(input, s.at, k)
    ensures CodeLoop(input, s, closePops) == CodeLoop(input, TicksDone(s, k), closePops)
    decreases k
  {
    if k > 0 {
      var s1 := Popped(input, s.(ticks := s.ticks + 1));
      TickChar(input, s, closePops);
      TickRun(input, s1, closePops, k - 1);
      TicksDoneStep(input, s, k);
    } else {
      assert s.raw + Ticks(0) == s.raw;
      assert TicksDone(s, 0) == s;
    }
  }

  /** A name char: appended to `lang` and popped. */
  lemma LangChar(input: seq<char>, s: CodeScan, closePops: bool)
    requires s.mode == ReadingLang && StreamAt(input, s.at) !in " \n\t`\0"
    ensures CodeLoop(input, s, closePops) == CodeLoop(input, Popped(input, s.(lang := s.lang + [StreamAt(input, s.at)])), closePops)
  {
    CodeContinues(input, s, closePops, Popped(input, s.(lang := s.lang + [StreamAt(input, s.at)])));
  }

  /** A content char: appended to `content` and popped. */
  lemma ContentChar(input: seq<char>, s: CodeScan, closePops: bool)
    requires s.mode == ReadingContent && StreamAt(input, s.at) !in "`\0"
    ensures CodeLoop(input, s, closePops) == CodeLoop(input, Popped(input, s.(content := s.content + [StreamAt(input, s.at)])), closePops)
  {
    CodeContinues(input, s, closePops, Popped(input, s.(content := s.content + [StreamAt(input, s.at)])));
  }

  /** A char then the slice after it is the slice from that char. */
  lemma ConsSlice(input: seq<char>, x: string, i: nat, j: nat)
    requires i < j
    ensures x + [StreamAt(input, i)] + Slice(input, i + 1, j) == x + Slice(input, i, j)
  {
    SliceAppend(input, i, i + 1, j);
    assert Slice(input, i, i + 1) == [StreamAt(input, i)];
  }

  /** An empty slice. */
  lemma EmptySlice(input: seq<char>, x: string, i: nat)
    ensures x + Slice(input, i, i) == x
  {
    assert Slice(input, i, i) == [];
  }

  /** A language name of `k` chars, none blank, a backtick or NUL: appended to `lang`. */
  lemma {:induction false} LangRun(input: seq<char>, s: CodeScan, closePops: bool, k: nat)
    requires s.mode == ReadingLang
    requires forall i :: s.at <= i < s.at + k ==> StreamAt(input, i) !in " \n\t`\0"
    ensures CodeLoop(input, s, closePops)
         == CodeLoop(input, s.(at := s.at + k, lang := s.lang + Slice(input, s.at, s.at + k), raw := s.raw + Slice(input, s.at, s.at + k)), closePops)
    decreases k
  {
    if k > 0 {
      var c := StreamAt(input, s.at);
      var s1 := Popped(input, s.(lang := s.lang + [c]));
      LangChar(input, s, closePops);
      LangRun(input, s1, closePops, k - 1);
      ConsSlice(input, s.lang, s.at, s.at + k);
      ConsSlice(input, s.raw, s.at, s.at + k);
    } else {
      EmptySlice(input, s.lang, s.at);
      EmptySlice(input, s.raw, s.at);
    }
  }

  /** Content of `k` chars, none a backtick or NUL: appended to `content`. */
  lemma {:induction false} ContentRun(input: seq<char>, s: CodeScan, closePops: bool, k: nat)
    requires s.mode == ReadingContent
    requires forall i :: s.at <= i < s.at + k ==> StreamAt(input, i) !in "`\0"
    ensures CodeLoop(input, s, closePops)
         == CodeLoop(input, s.(at := s.at + k, content := s.content + Slice(input, s.at, s.at + k), raw := s.raw + Slice(input, s.at, s.at + k)), closePops)
    decreases k
  {
    if k > 0 {
      var c := StreamAt(input, s.at);
      var s1 := Popped(input, s.(content := s.content + [c]));
      ContentChar(input, s, closePops);
      ContentRun(input, s1, closePops, k - 1);
      ConsSlice(input, s.content, s.at, s.at + k);
      ConsSlice(input, s.raw, s.at, s.at + k);
    } else {
      EmptySlice(input, s.content, s.at);
      EmptySlice(input, s.raw, s.at);
    }
  }

  /**
   * A run of `k` backticks inside content, shorter than the opening run and
   * followed by a char that is neither a backtick nor NUL: the ticks are
   * content, and reading goes on at that char.
   */
  lemma ShortRunKept(input: seq<char>, s: CodeScan, closePops: bool, k: nat)
    requires s.mode == ReadingContent && 0 < k < s.ticksStart
    requires forall i :: s.at <= i < s.at + k ==> StreamAt(input, i) == '`'
    requires StreamAt(input, s.at + k) !in "`\0"
    ensures CodeLoop(input, s, closePops)
         == CodeLoop(input, s.(at := s.at + k, ticks := k, content := s.content + Ticks(k), raw := s.raw + Ticks(k)), closePops)
  {
    var s1 := s.(mode := Counting, ticks := 0);
    CodeContinues(input, s, closePops, s1);
    TicksFromAll(input, s.at, k);
    TickRun(input, s1, closePops, k);
    var s2 := s1.(at := s.at + k, ticks := k, raw := s.raw + Ticks(k));
    CodeContinues(input, s2, closePops, s2.(mode := ReadingContent, content := s.content + Ticks(k)));
  }

  /** The parts of a block: opening run, language name, a space, content, closing run. */
  function BlockText(n: nat, lang: string, body: string): string
  {
    Ticks(n) + lang + " " + body + Ticks(n)
  }

  /** A language name: no blank, backtick or NUL. */
  predicate IsLangName(lang: string)
  {
    forall i :: 0 <= i < |lang| ==> lang[i] !in " \n\t`\0"
  }

  /** Content: no backtick or NUL. */
  predicate IsPlainContent(body: string)
  {
    forall i :: 0 <= i < |body| ==> body[i] !in "`\0"
  }

  /** The first char after the opening run: its length is kept and the name starts, at that char. */
  lemma OpeningEnds(input: seq<char>, s: CodeScan, closePops: bool)
    requires s.mode == Counting && s.ticksStart == 0 && StreamAt(input, s.at) !in "`\0"
    ensures CodeLoop(input, s, closePops) == CodeLoop(input, s.(ticksStart := s.ticks, mode := ReadingLang), closePops)
  {
    CodeContinues(input, s, closePops, s.(ticksStart := s.ticks, mode := ReadingLang));
  }

  /** A blank after the name: popped, and content starts. */
  lemma NameEnds(input: seq<char>, s: CodeScan, closePops: bool)
    requires s.mode == ReadingLang && StreamAt(input, s.at) in " \n\t"
    ensures CodeLoop(input, s, closePops) == CodeLoop(input, Popped(input, s.(mode := ReadingContent)), closePops)
  {
    CodeContinues(input, s, closePops, Popped(input, s.(mode := ReadingContent)));
  }

  /** The opening run: counted, and its length kept as the opening length once a name char follows. */
  lemma OpeningRun(input: seq<char>, at: nat, n: nat, closePops: bool)
    requires n > 0
    requires forall i :: at <= i < at + n ==> StreamAt(input, i) == '`'
    requires StreamAt(input, at + n) !in "`\0"
    ensures CodeLoop(input, CodeStart(at), closePops) == CodeLoop(input, CodeScan(at + n, ReadingLang, n, n, Ticks(n), "", ""), closePops)
  {
    var s1 := CodeScan(at + n, Counting, 0, n, Ticks(n), "", "");
    TicksFromAll(input, at, n);
    TickRun(input, CodeStart(at), closePops, n);
    assert "" + Ticks(n) == Ticks(n);
    assert CodeStart(at).(at := at + n, ticks := 0 + n, raw := "" + Ticks(n)) == s1;
    OpeningEnds(input, s1, closePops);
  }

  /** A language name then a blank: the name is read, and content starts after the blank. */
  lemma NameRun(input: seq<char>, s: CodeScan, lang: string, closePops: bool)
    requires s.mode == ReadingLang && IsLangName(lang)
    requires Slice(input, s.at, s.at + |lang|) == lang
    requires StreamAt(input, s.at + |lang|) in " \n\t"
    ensures var p := s.at + |lang| + 1;
      CodeLoop(input, s, closePops)
      == CodeLoop(input, s.(at := p, mode := ReadingContent, lang := s.lang + lang, raw := s.raw + Slice(input, s.at, p)), closePops)
  {
    var p3 := s.at + |lang|;
    forall i | s.at <= i < p3
      ensures StreamAt(input, i) !in " \n\t`\0"
    {
      assert StreamAt(input, i) == Slice(input, s.at, p3)[i - s.at] == lang[i - s.at];
    }
    LangRun(input, s, closePops, |lang|);
    var s3 := s.(at := p3, lang := s.lang + lang, raw := s.raw + lang);
    NameEnds(input, s3, closePops);
    SliceAppend(input, s.at, p3, p3 + 1);
    assert s3.raw + Slice(input, p3, p3 + 1) == s.raw + Slice(input, s.at, p3 + 1);
  }

  /**
   * A closing run as long as the opening one, in content, and not followed
   * by a backtick: the loop ends there, or, as written, one char further
   * when that char is not NUL; the name and the content are kept.
   */
  lemma ClosingRun(input: seq<char>, s: CodeScan, closePops: bool)
    requires s.mode == ReadingContent && s.ticksStart > 0
    requires forall i :: s.at <= i < s.at + s.ticksStart ==> StreamAt(input, i) == '`'
    requires StreamAt(input, s.at + s.ticksStart) != '`'
    ensures var f := CodeLoop(input, s, closePops);
      var p := s.at + s.ticksStart;
      && f.lang == s.lang && f.content == s.content
      && f.at == p + (if closePops && StreamAt(input, p) != '\0' then 1 else 0)
  {
    var n := s.ticksStart;
    var p := s.at + n;
    var s6 := s.(mode := Counting, ticks := 0);
    CodeContinues(input, s, closePops, s6);
    TicksFromAll(input, s.at, n);
    TickRun(input, s6, closePops, n);
    var s7 := s6.(at := p, ticks := n, raw := s6.raw + Ticks(n));
    assert s.content + Ticks(0) == s.content;
    var s8 := s7.(mode := Stop);
    if StreamAt(input, p) == '\0' {
      assert CodeStep(input, s7, closePops) == Exit(s8);
    } else if closePops {
      CodeContinues(input, s7, closePops, Popped(input, s8));
    } else {
      CodeContinues(input, s7, closePops, s8);
    }
  }

  /** A slice inside a window of the input that holds `w` is the matching slice of `w`. */
  lemma SliceOfWindow(input: seq<char>, at: nat, w: string, i: nat, j: nat)
    requires at + |w| <= |input| && input[at..at + |w|] == w && i <= j <= |w|
    ensures Slice(input, at + i, at + j) == w[i..j]
  {
    var r := Slice(input, at + i, at + j);
    forall k | 0 <= k < j - i
      ensures r[k] == w[i..j][k]
    {
      assert w[i + k] == input[at..at + |w|][i + k] == input[at + i + k];
    }
  }

  /** The parts of a block, as slices of the input. */
  lemma BlockParts(input: seq<char>, at: nat, n: nat, lang: string, body: string)
    requires var w := BlockText(n, lang, body); at + |w| <= |input| && input[at..at + |w|] == w
    ensures var p1 := at + n; var p4 := p1 + |lang| + 1; var p5 := p4 + |body|;
      && Slice(input, at, p1) == Ticks(n) && Slice(input, p1, p1 + |lang|) == lang
      && StreamAt(input, p1 + |lang|) == ' ' && Slice(input, p4, p5) == body && Slice(input, p5, p5 + n) == Ticks(n)
  {
    var w := BlockText(n, lang, body);
    var a, b, c, d := n, n + |lang|, n + |lang| + 1, n + |lang| + 1 + |body|;
    assert w[..a] == Ticks(n) && w[a..b] == lang && w[b] == ' ' && w[c..d] == body && w[d..] == Ticks(n);
    SliceOfWindow(input, at, w, 0, a);
    SliceOfWindow(input, at, w, a, b);
    SliceOfWindow(input, at, w, c, d);
    SliceOfWindow(input, at, w, d, |w|);
    assert StreamAt(input, at + b) == input[at..at + |w|][b];
  }

  /** The opening run, a language name and a blank of a block: content starts after the blank. */
  lemma BlockName(input: seq<char>, at: nat, n: nat, lang: string, closePops: bool)
    requires n > 0 && IsLangName(lang)
    requires Slice(input, at, at + n) == Ticks(n) && Slice(input, at + n, at + n + |lang|) == lang
    requires StreamAt(input, at + n + |lang|) == ' '
    ensures var p4 := at + n + |lang| + 1;
      CodeLoop(input, CodeStart(at), closePops)
      == CodeLoop(input, CodeScan(p4, ReadingContent, n, n, Ticks(n) + Slice(input, at + n, p4), lang, ""), closePops)
  {
    var p1 := at + n;
    TicksAt(input, at, n);
    assert StreamAt(input, p1) !in "`\0" by {
      if |lang| > 0 {
        assert StreamAt(input, p1) == Slice(input, p1, p1 + |lang|)[0];
      }
    }
    OpeningRun(input, at, n, closePops);
    NameRun(input, CodeScan(p1, ReadingLang, n, n, Ticks(n), "", ""), lang, closePops);
    assert "" + lang == lang;
  }

  /** Up to the closing run of a well-formed block: the name and the content are read. */
  lemma BlockHead(input: seq<char>, at: nat, n: nat, lang: string, body: string, closePops: bool)
    requires n > 0 && IsLangName(lang) && IsPlainContent(body)
    requires Slice(input, at, at + n) == Ticks(n) && Slice(input, at + n, at + n + |lang|) == lang
    requires StreamAt(input, at + n + |lang|) == ' ' && Slice(input, at + n + |lang| + 1, at + n + |lang| + 1 + |body|) == body
    ensures var p4 := at + n + |lang| + 1;
      CodeLoop(input, CodeStart(at), closePops)
      == CodeLoop(input, CodeScan(p4 + |body|, ReadingContent, n, n, Ticks(n) + Slice(input, at + n, p4) + body, lang, body), closePops)
  {
    var p4 := at + n + |lang| + 1;
    var p5 := p4 + |body|;
    BlockName(input, at, n, lang, closePops);
    forall i | p4 <= i < p5
      ensures StreamAt(input, i) !in "`\0"
    {
      assert StreamAt(input, i) == Slice(input, p4, p5)[i - p4];
    }
    ContentRun(input, CodeScan(p4, ReadingContent, n, n, Ticks(n) + Slice(input, at + n, p4), lang, ""), closePops, |body|);
    assert "" + body == body;
  }

  /**
   * A well-formed block: the language name and the content are read back,
   * and the loop ends right after the closing run, or, as written, one char
   * further when that char is not NUL.
   */
  lemma WellFormedBlock(input: seq<char>, at: nat, n: nat, lang: string, body: string, closePops: bool)
    requires n > 0 && IsLangName(lang) && IsPlainContent(body)
    requires var w := BlockText(n, lang, body);
      at + |w| <= |input| && input[at..at + |w|] == w && StreamAt(input, at + |w|) != '`'
    ensures var w := BlockText(n, lang, body);
      var f := CodeLoop(input, CodeStart(at), closePops);
      && f.lang == lang && f.content == body
      && f.at == at + |w| + (if closePops && StreamAt(input, at + |w|) != '\0' then 1 else 0)
  {
    var p4 := at + n + |lang| + 1;
    var p5 := p4 + |body|;
    BlockParts(input, at, n, lang, body);
    BlockHead(input, at, n, lang, body, closePops);
    TicksAt(input, p5, n);
    ClosingRun(input, CodeScan(p5, ReadingContent, n, n, Ticks(n) + Slice(input, at + n, p4) + body, lang, body), closePops);
  }

  /**
   * `````` a````}`: a closing run one tick too long, then a tag.  As written
   * the excess tick is appended twice and the `}` is swallowed; corrected,
   * the excess tick is content once and the `}` is left.
   */
  lemma ExcessRunExample(input: string)
    requires input == "``` a````}"
    ensures CodeBlockToken(input, 0, true).raw == input
    ensures CodeBlockToken(input, 0, true).val == Tokens.CodeBlock("", "a``")
    ensures CodeBlockToken(input, 0, false).raw == input[..9]
    ensures CodeBlockToken(input, 0, false).val == Tokens.CodeBlock("", "a`")
  {
    ExcessRunAsWritten(input);
    ExcessRunCorrected(input);
  }

  /** The parts of `ExcessRunExample`'s input. */
  lemma ExcessRunParts(input: string)
    requires input == "``` a````}"
    ensures Slice(input, 0, 3) == Ticks(3) && Slice(input, 3, 3) == "" && Slice(input, 4, 5) == "a"
    ensures StreamAt(input, 3) == ' ' && StreamAt(input, 5) == '`' && StreamAt(input, 9) == '}' && StreamAt(input, 10) == '\0'
    ensures forall i :: 5 <= i < 9 ==> StreamAt(input, i) == '`'
    ensures Ticks(3) + Slice(input, 3, 4) + "a" + Ticks(4) == input[..9]
    ensures input[..9] + [StreamAt(input, 9)] == input
  {
    assert Ticks(3) == "```" && Ticks(4) == "````";
    assert Slice(input, 3, 4) == " ";
  }

  /** The shared head of `ExcessRunExample`: up to the `}`, four ticks counted. */
  lemma ExcessRunHead(input: string, closePops: bool)
    requires input == "``` a````}"
    ensures CodeLoop(input, CodeStart(0), closePops) == CodeLoop(input, CodeScan(9, Counting, 3, 4, input[..9], "", "a"), closePops)
  {
    ExcessRunParts(input);
    BlockHead(input, 0, 3, "", "a", closePops);
    var s5 := CodeScan(5, ReadingContent, 3, 3, Ticks(3) + Slice(input, 3, 4) + "a", "", "a");
    var s6 := s5.(mode := Counting, ticks := 0);
    CodeContinues(input, s5, closePops, s6);
    TicksFromAll(input, 5, 4);
    TickRun(input, s6, closePops, 4);
  }

  lemma ExcessRunAsWritten(input: string)
    requires input == "``` a````}"
    ensures CodeLoop(input, CodeStart(0), true) == CodeScan(10, Counting, 3, 4, input, "", "a``")
  {
    ExcessRunHead(input, true);
    ExcessRunParts(input);
    var s9 := CodeScan(9, Counting, 3, 4, input[..9], "", "a");
    assert Ticks(1) == "`" && "a" + Ticks(1) == "a`" && "a`" + Ticks(1) == "a``";
    var s10 := CodeScan(10, Counting, 3, 4, input, "", "a`");
    assert CodeStep(input, s9, true) == Continue(s10);
    CodeContinues(input, s9, true, s10);
    assert CodeStep(input, s10, true) == Exit(s10.(content := "a``"));
  }

  lemma ExcessRunCorrected(input: string)
    requires input == "``` a````}"
    ensures CodeLoop(input, CodeStart(0), false) == CodeScan(9, Stop, 3, 4, input[..9], "", "a`")
  {
    ExcessRunHead(input, false);
    ExcessRunParts(input);
    var s9 := CodeScan(9, Counting, 3, 4, input[..9], "", "a");
    assert Ticks(1) == "`" && "a" + Ticks(1) == "a`";
    var s10 := s9.(mode := Stop, content := "a`");
    assert CodeStep(input, s9, false) == Continue(s10);
    CodeContinues(input, s9, false, s10);
    assert CodeStep(input, s10, false) == Exit(s10);
  }

  /** The `for` loop that appends `n` backticks to the content. */
  method PushTicks(content: string, n: nat) returns (r: string)
    ensures r == content + Ticks(n)
  {
    r := content;
    for i := 0 to n
      invariant r == content + Ticks(i)
    {
      r := r + ['`'];
      assert Ticks(i) + ['`'] == Ticks(i + 1);
    }
  }

  /**
   * `parse_code_block`.  With `closePops` it is the code as written: the
   * char after a closing run of exactly N ticks is popped too, and a longer
   * run leaves the scan counting.  Without it, the corrected loop: the char
   * after the closing run is left in place, and a longer closing run ends
   * the block with its excess ticks as content.  The token is the one
   * `CodeBlockToken` describes; it never fails.
   */
  method ParseCodeBlock(src: Cursor, closePops: bool) returns (r: Result<Tokens.Token, Prelude.AnyError>)
    requires src.Valid()
    modifies src
    ensures src.Valid()
    ensures r == Ok(CodeBlockToken(src.input, old(src.at), closePops))
    ensures src.at == CodeLoop(src.input, CodeStart(old(src.at)), closePops).at
  {
    var raw, lang, content := "", "", "";
    var mode := Counting;
    var ticksStart, ticksCounter := 0, 0;
    var cycle := false;
    var start := src.pos;
    ghost var at0 := src.at;
    while true
      invariant src.Valid() && !cycle
      invariant CodeLoop(src.input, CodeScan(src.at, mode, ticksStart, ticksCounter, raw, lang, content), closePops)
             == CodeLoop(src.input, CodeStart(at0), closePops)
      decreases Remaining(src.input, CodeScan(src.at, mode, ticksStart, ticksCounter, raw, lang, content)),
                Rank(src.input, CodeScan(src.at, mode, ticksStart, ticksCounter, raw, lang, content))
    {
      ghost var s := CodeScan(src.at, mode, ticksStart, ticksCounter, raw, lang, content);
      var c1 := src.Peek(1);
      match mode {
        case Stop =>
          break;
        case Counting =>
          if c1 == '`' {
            ticksCounter := ticksCounter + 1;
          } else {
            if ticksStart == 0 {
              ticksStart, mode, cycle := ticksCounter, ReadingLang, true;
            } else if ticksCounter == ticksStart {
              mode, cycle := Stop, !closePops;
            } else if ticksCounter < ticksStart {
              mode, cycle := ReadingContent, true;
              content := PushTicks(content, ticksCounter);
            } else {
              content := PushTicks(content, ticksCounter - ticksStart);
              if !closePops {
                mode, cycle := Stop, true;
              }
            }
            if c1 == '\0' {
              assert CodeStep(src.input, s, closePops) == Exit(CodeScan(src.at, mode, ticksStart, ticksCounter, raw, lang, content));
              break;
            }
          }
        case ReadingLang =>
          if c1 == '\0' {
            mode, cycle := Stop, true;
          } else if c1 == ' ' || c1 == '\n' || c1 == '\t' {
            mode := ReadingContent;
          } else if c1 == '`' {
            mode, ticksCounter, cycle := Counting, 0, true;
          } else {
            lang := lang + [c1];
          }
        case ReadingContent =>
          if c1 == '\0' {
            mode, cycle := Stop, true;
          } else if c1 == '`' {
            mode, ticksCounter, cycle := Counting, 0, true;
          } else {
            content := content + [c1];
          }
      }
      if cycle {
        cycle := false;
      } else {
        var c := src.Pop();
        raw := raw + [c];
      }
      assert CodeStep(src.input, s, closePops) == Continue(CodeScan(src.at, mode, ticksStart, ticksCounter, raw, lang, content));
    }
    var span := Span(start, src.pos);
    if |content| == 0 {
      lang, content := content, lang;
    }
    return Ok(Tokens.Token(span, raw, Tokens.CodeBlock(lang, content)));
  }
}
