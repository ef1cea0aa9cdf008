/**
 * The heads of curly and pointy tags as rust/src/ast.rs parses them with nom,
 * and `PointyTagStart::encode_cptml`, which writes a pointy head back.
 *
 * The names in these heads are read by the parsers of module Names with
 * dashes allowed.  nom's `tag`, `char`, `multispace0`, `hex_digit1`, `i64`,
 * `opt`, `alt` and `many0` are written out below with their plain meaning.
 * `integer_hex` aborts (`expect`) on a literal above `i64::MAX`; every parser
 * that may reach it returns a `Completion`.
 */
module Ast {
  import opened Wrappers
  import opened Names

  const I64Min: int := -0x8000_0000_0000_0000
  const I64Max: int := 0x7fff_ffff_ffff_ffff

  /** The message of the `expect` in `integer_hex`. */
  const HexMessage := "valid hexadecimal integer"

  datatype TagAttrValue = Integer(i: int) | Boolean(b: bool)

  /** One argument of a tag head: the whitespace before it, its name and its value. */
  datatype Arg = Arg(whitespace: string, name: IdFullName, value: TagAttrValue)

  datatype CurlyTagStart = CurlyTagStart(element: IdFullName, args: seq<Arg>, whitespace: string)

  datatype PointyTagStart = PointyTagStart(element: IdFullName, view: string, args: seq<Arg>, whitespace: string)

  // Characters

  predicate IsSpace(c: char) { c == ' ' || c == '\t' || c == '\r' || c == '\n' }

  predicate IsDigit(c: char) { '0' <= c <= '9' }

  predicate IsHexDigit(c: char) { IsDigit(c) || 'a' <= c <= 'f' || 'A' <= c <= 'F' }

  predicate All(p: char -> bool, s: string)
  {
    forall i :: 0 <= i < |s| ==> p(s[i])
  }

  /** Where the run of chars with property `p` that starts at `i` ends. */
  function RunEnd(p: char -> bool, input: string, i: nat): (e: nat)
    requires i <= |input|
    ensures i <= e <= |input|
    ensures forall j :: i <= j < e ==> p(input[j])
    ensures e < |input| ==> !p(input[e])
    decreases |input| - i
  {
    if i == |input| || !p(input[i]) then i else RunEnd(p, input, i + 1)
  }

  lemma {:induction false} RunEndOf(p: char -> bool, run: string, rest: string)
    requires All(p, run)
    requires rest == [] || !p(rest[0])
    ensures RunEnd(p, run + rest, 0) == |run|
  {
    var input := run + rest;
    var i := |run|;
    assert RunEnd(p, input, i) == i;
    while i > 0
      invariant 0 <= i <= |run|
      invariant RunEnd(p, input, i) == |run|
    {
      i := i - 1;
      assert input[i] == run[i];
    }
  }

  function DigitValue(c: char): nat
    requires IsHexDigit(c)
  {
    if IsDigit(c) then c as int - '0' as int
    else if 'a' <= c <= 'f' then c as int - 'a' as int + 10
    else c as int - 'A' as int + 10
  }

  /** The number that the digits `s` write in base `radix`. */
  function Value(s: string, radix: nat): nat
    requires All(IsHexDigit, s)
    decreases |s|
  {
    if |s| == 0 then 0
    else Value(s[..|s| - 1], radix) * radix + DigitValue(s[|s| - 1])
  }

  // Writing values back: `TagAttrValue::encode_cptml`

  function DigitChar(d: nat): (c: char)
    requires d < 10
    ensures IsDigit(c) && DigitValue(c) == d
  {
    ('0' as int + d) as char
  }

  /** The decimal digits of `n`, without leading zeros. */
  function NatString(n: nat): (s: string)
    ensures |s| > 0 && All(IsDigit, s) && All(IsHexDigit, s)
    ensures Value(s, 10) == n
    ensures s[0] == '0' ==> n == 0 && |s| == 1
  {
    if n < 10 then [DigitChar(n)]
    else
      var s := NatString(n / 10) + [DigitChar(n % 10)];
      assert s[..|s| - 1] == NatString(n / 10);
      s
  }

  /** `i64::to_string`. */
  function IntString(i: int): string
  {
    if i < 0 then "-" + NatString(-i) else NatString(i)
  }

  /** `TagAttrValue::encode_cptml`. */
  function EncodeValue(v: TagAttrValue): string
  {
    match v
    case Integer(i) => IntString(i)
    case Boolean(b) => if b then "true" else "false"
  }

  // nom primitives

  /** `tag(lit)`. */
  function TagP(lit: string, input: string): (r: PResult<string>)
    ensures r.Ok? <==> lit <= input
    ensures r.Ok? ==> r.value == Parsed(input[|lit|..], lit)
    ensures r.Err? ==> r.error == NomError(input, Tag)
  {
    if lit <= input then Ok(Parsed(input[|lit|..], lit)) else Err(NomError(input, Tag))
  }

  /** `char(c)`. */
  function CharP(c: char, input: string): (r: PResult<char>)
    ensures r.Ok? <==> |input| > 0 && input[0] == c
    ensures r.Ok? ==> r.value == Parsed(input[1..], c)
    ensures r.Err? ==> r.error == NomError(input, Char)
  {
    if |input| > 0 && input[0] == c then Ok(Parsed(input[1..], c)) else Err(NomError(input, Char))
  }

  /** `multispace0`: the blanks that start the input, and the rest. */
  function Multispace0(input: string): (r: Parsed<string>)
    ensures r.value + r.rest == input
    ensures All(IsSpace, r.value)
    ensures r.rest == [] || !IsSpace(r.rest[0])
  {
    var e := RunEnd(IsSpace, input, 0);
    assert input[..e] + input[e..] == input;
    Parsed(input[e..], input[..e])
  }

  /** `hex_digit1`: at least one hexadecimal digit. */
  function HexDigit1(input: string): (r: PResult<string>)
    ensures r.Ok? <==> |input| > 0 && IsHexDigit(input[0])
    ensures r.Ok? ==> |r.value.value| > 0 && All(IsHexDigit, r.value.value) && r.value.value + r.value.rest == input
    ensures r.Ok? ==> r.value.rest == [] || !IsHexDigit(r.value.rest[0])
    ensures r.Err? ==> r.error == NomError(input, HexDigit)
  {
    var e := RunEnd(IsHexDigit, input, 0);
    if e == 0 then Err(NomError(input, HexDigit))
    else
      assert input[..e] + input[e..] == input;
      Ok(Parsed(input[e..], input[..e]))
  }

  /**
   * nom's `i64`: an optional `-` or `+`, then decimal digits up to the first
   * other char.  No digit, or a value outside the 64-bit range, fails with
   * `Digit` on the whole input.
   */
  function I64(input: string): (r: PResult<int>)
    ensures r.Ok? ==> I64Min <= r.value.value <= I64Max && |r.value.rest| < |input|
    ensures r.Err? ==> r.error == NomError(input, Digit)
  {
    var signLen := if |input| > 0 && (input[0] == '-' || input[0] == '+') then 1 else 0;
    var digits := input[signLen..];
    var e := RunEnd(IsDigit, digits, 0);
    if e == 0 then Err(NomError(input, Digit))
    else
      var magnitude := Value(digits[..e], 10);
      var v: int := if signLen == 1 && input[0] == '-' then -(magnitude as int) else magnitude;
      if v < I64Min || I64Max < v then Err(NomError(input, Digit))
      else Ok(Parsed(digits[e..], v))
  }

  // Argument values

  /** `tag_args_bool`: `true` or `false`. */
  function TagArgsBool(input: string): (r: PResult<TagAttrValue>)
    ensures r.Ok? <==> "true" <= input || "false" <= input
    ensures r.Ok? ==>
      && r.value.value == Boolean("true" <= input)
      && EncodeValue(r.value.value) + r.value.rest == input
    ensures r.Err? ==> r.error == NomError(input, Tag)
  {
    match TagP("true", input)
    case Ok(Parsed(rest, _)) =>
      assert input == "true" + rest;
      Ok(Parsed(rest, Boolean(true)))
    case Err(_) =>
      match TagP("false", input)
      case Ok(Parsed(rest, _)) =>
        assert input == "false" + rest;
        Ok(Parsed(rest, Boolean(false)))
      case Err(e) => Err(e)
  }

  /**
   * `integer_hex`: `0x` and hexadecimal digits.  A literal above `i64::MAX`
   * aborts the program.
   */
  function IntegerHex(input: string): (r: Completion<PResult<int>>)
    ensures r.Panics? <==>
      "0x" <= input && HexDigit1(input[2..]).Ok? && Value(HexDigit1(input[2..]).value.value, 16) > I64Max
    ensures r.Returns? && r.value.Ok? ==>
      && "0x" <= input && HexDigit1(input[2..]).Ok?
      && r.value.value == Parsed(HexDigit1(input[2..]).value.rest, Value(HexDigit1(input[2..]).value.value, 16))
    ensures r.Returns? && r.value.Err? ==> !("0x" <= input) || HexDigit1(input[2..]).Err?
  {
    match TagP("0x", input)
    case Err(e) => Returns(Err(e))
    case Ok(Parsed(afterPrefix, _)) =>
      match HexDigit1(afterPrefix)
      case Err(e) => Returns(Err(e))
      case Ok(Parsed(rest, digits)) =>
        var v := Value(digits, 16);
        if v > I64Max then Panics(HexMessage) else Returns(Ok(Parsed(rest, v)))
  }

  /** `tag_args_integer`: hexadecimal first, then signed decimal. */
  function TagArgsInteger(input: string): (r: Completion<PResult<TagAttrValue>>)
    ensures r.Returns? && r.value.Ok? ==>
      && r.value.value.value.Integer?
      && I64Min <= r.value.value.value.i <= I64Max
      && |r.value.value.rest| < |input|
    ensures r.Returns? && r.value.Err? ==> r.value.error == NomError(input, Digit)
  {
    var hex :- IntegerHex(input);
    if hex.Ok? then Returns(Ok(Parsed(hex.value.rest, Integer(hex.value.value))))
    else
      match I64(input)
      case Ok(Parsed(rest, v)) => Returns(Ok(Parsed(rest, Integer(v))))
      case Err(e) => Returns(Err(e))
  }

  /** `alt((tag_args_bool, tag_args_integer))`. */
  function TagArgsValue(input: string): (r: Completion<PResult<TagAttrValue>>)
    ensures r.Returns? && r.value.Ok? ==> |r.value.value.rest| < |input|
  {
    var b := TagArgsBool(input);
    if b.Ok? then Returns(b) else TagArgsInteger(input)
  }

  // Tag heads

  /** `tag_args_pair`: blanks, a name, `=` and a value. */
  function TagArgsPair(xid: Xid, input: string): (r: Completion<PResult<Arg>>)
    ensures r.Returns? && r.value.Ok? ==>
      && |r.value.value.rest| < |input|
      && All(IsSpace, r.value.value.value.whitespace)
  {
    var ws := Multispace0(input);
    var name := ParseIdFullName(xid, true, ws.rest);
    if name.Err? then Returns(Err(name.error))
    else
      var eq := CharP('=', name.value.rest);
      if eq.Err? then Returns(Err(eq.error))
      else
        var v :- TagArgsValue(eq.value.rest);
        if v.Err? then Returns(Err(v.error))
        else Returns(Ok(Parsed(v.value.rest, Arg(ws.value, name.value.value, v.value.value))))
  }

  /**
   * `many0(tag_args_pair)`: pairs until one fails, which is not an error; a
   * pair that consumes nothing is.
   */
  function Many0Pairs(xid: Xid, input: string): (r: Completion<PResult<seq<Arg>>>)
    ensures r.Returns? && r.value.Ok? ==> |r.value.value.rest| <= |input|
    decreases |input|
  {
    var p :- TagArgsPair(xid, input);
    if p.Err? then Returns(Ok(Parsed(input, [])))
    else if |p.value.rest| == |input| then Returns(Err(NomError(input, Many0)))
    else
      var more :- Many0Pairs(xid, p.value.rest);
      if more.Err? then Returns(more)
      else Returns(Ok(Parsed(more.value.rest, [p.value.value] + more.value.value)))
  }

  /** `curly_tag_start`: `{`, a name, arguments, blanks and `;`. */
  function ParseCurlyTagStart(xid: Xid, input: string): (r: Completion<PResult<CurlyTagStart>>)
    ensures r.Returns? && r.value.Ok? ==> |input| > 0 && input[0] == '{' && |r.value.value.rest| < |input|
  {
    var open := CharP('{', input);
    if open.Err? then Returns(Err(open.error))
    else
      var element := ParseIdFullName(xid, true, open.value.rest);
      if element.Err? then Returns(Err(element.error))
      else
        var args :- Many0Pairs(xid, element.value.rest);
        if args.Err? then Returns(Err(args.error))
        else
          var ws := Multispace0(args.value.rest);
          var close := CharP(';', ws.rest);
          if close.Err? then Returns(Err(close.error))
          else Returns(Ok(Parsed(close.value.rest, CurlyTagStart(element.value.value, args.value.value, ws.value))))
  }

  /** `view_name`: a name in parentheses. */
  function ViewName(xid: Xid, input: string): (r: PResult<string>)
    ensures r.Ok? ==> IsName(xid, true, r.value.value) && "(" + r.value.value + ")" + r.value.rest == input
  {
    var open := CharP('(', input);
    if open.Err? then Err(open.error)
    else
      match XidName(xid, true, open.value.rest)
      case Err(e) => Err(e)
      case Ok(Parsed(afterName, view)) =>
        var close := CharP(')', afterName);
        if close.Err? then Err(close.error)
        else
          ViewNameText(input, view, afterName, close.value.rest);
          Ok(Parsed(close.value.rest, view))
  }

  lemma ViewNameText(input: string, view: string, afterName: string, rest: string)
    requires |input| > 0 && input[0] == '('
    requires view + afterName == input[1..]
    requires |afterName| > 0 && afterName[0] == ')' && afterName[1..] == rest
    ensures "(" + view + ")" + rest == input
  {
    assert afterName == ")" + rest;
    assert input == "(" + (view + (")" + rest));
    Regroup4("(", view, ")", rest, "");
    assert rest + "" == rest;
  }

  /** `pointy_tag_start`: `<`, an optional view, a name, arguments, blanks and `|`. */
  function ParsePointyTagStart(xid: Xid, input: string): (r: Completion<PResult<PointyTagStart>>)
    ensures r.Returns? && r.value.Ok? ==> |input| > 0 && input[0] == '<' && |r.value.value.rest| < |input|
  {
    var open := CharP('<', input);
    if open.Err? then Returns(Err(open.error))
    else
      var view := ViewName(xid, open.value.rest);
      var afterView := if view.Ok? then view.value.rest else open.value.rest;
      var element := ParseIdFullName(xid, true, afterView);
      if element.Err? then Returns(Err(element.error))
      else
        var args :- Many0Pairs(xid, element.value.rest);
        if args.Err? then Returns(Err(args.error))
        else
          var ws := Multispace0(args.value.rest);
          var close := CharP('|', ws.rest);
          if close.Err? then Returns(Err(close.error))
          else
            var viewName := if view.Ok? then view.value.value else "";
            Returns(Ok(Parsed(close.value.rest, PointyTagStart(element.value.value, viewName, args.value.value, ws.value))))
  }

  // The text of a head

  function ArgText(a: Arg): string
  {
    a.whitespace + Encode(a.name) + "=" + EncodeValue(a.value)
  }

  function ArgsText(args: seq<Arg>): string
  {
    if |args| == 0 then "" else ArgsText(args[..|args| - 1]) + ArgText(args[|args| - 1])
  }

  /** The text of the arguments, read from the front. */
  lemma {:induction false} ArgsTextCons(args: seq<Arg>)
    requires |args| > 0
    ensures ArgsText(args) == ArgText(args[0]) + ArgsText(args[1..])
    decreases |args|
  {
    if |args| > 1 {
      var init := args[..|args| - 1];
      ArgsTextCons(init);
      assert init[1..] == args[1..][..|args[1..]| - 1];
      Assoc(ArgText(args[0]), ArgsText(init[1..]), ArgText(args[|args| - 1]));
    } else {
      assert args[..0] == [];
    }
  }

  function ViewText(view: string): string
  {
    if |view| > 0 then "(" + view + ")" else ""
  }

  /** The text `PointyTagStart::encode_cptml` writes. */
  function PointyText(p: PointyTagStart): string
  {
    "<" + ViewText(p.view) + Encode(p.element) + ArgsText(p.args) + p.whitespace + "|"
  }

  /** The same layout for a curly head, closed by `;`. */
  function CurlyText(c: CurlyTagStart): string
  {
    "{" + Encode(c.element) + ArgsText(c.args) + c.whitespace + ";"
  }

  /** `PointyTagStart::encode_cptml`, which appends the parts in turn. */
  method EncodePointy(p: PointyTagStart) returns (ans: string)
    ensures ans == PointyText(p)
  {
    ans := "<";
    if |p.view| > 0 {
      ans := ans + "(";
      ans := ans + p.view;
      ans := ans + ")";
      Assoc("<" + "(", p.view, ")");
      Assoc("<", "(", p.view + ")");
    }
    assert ans == "<" + ViewText(p.view);
    ans := ans + Encode(p.element);
    ans := AppendArgs(ans, p.args);
    ans := ans + p.whitespace;
    ans := ans + "|";
  }

  /** The loop of `encode_cptml` over the arguments. */
  method AppendArgs(ans0: string, args: seq<Arg>) returns (ans: string)
    ensures ans == ans0 + ArgsText(args)
  {
    ans := ans0;
    var i := 0;
    while i < |args|
      invariant 0 <= i <= |args|
      invariant ans == ans0 + ArgsText(args[..i])
    {
      ans := AppendArg(ans, args[i]);
      assert args[..i + 1][..i] == args[..i];
      Assoc(ans0, ArgsText(args[..i]), ArgText(args[i]));
      i := i + 1;
    }
    assert args[..i] == args;
  }

  /** One turn of the loop of `encode_cptml` over the arguments. */
  method AppendArg(ans0: string, arg: Arg) returns (ans: string)
    ensures ans == ans0 + ArgText(arg)
  {
    ans := ans0 + arg.whitespace;
    ans := ans + Encode(arg.name);
    ans := ans + "=";
    ans := ans + EncodeValue(arg.value);
  }

  lemma Assoc(a: string, b: string, c: string)
    ensures a + b + c == a + (b + c)
  {
  }

  // Well-formed heads, and parsing what is written

  predicate ValidValue(v: TagAttrValue)
  {
    v.Integer? ==> I64Min <= v.i <= I64Max
  }

  /** An argument as the parsers read it when it follows another part: blanks first. */
  predicate ValidArg(xid: Xid, a: Arg)
  {
    && |a.whitespace| > 0 && All(IsSpace, a.whitespace)
    && ValidName(xid, true, a.name)
    && ValidValue(a.value)
  }

  predicate ValidArgs(xid: Xid, args: seq<Arg>)
  {
    forall i :: 0 <= i < |args| ==> ValidArg(xid, args[i])
  }

  predicate ValidPointy(xid: Xid, p: PointyTagStart)
  {
    && (p.view == "" || IsName(xid, true, p.view))
    && ValidName(xid, true, p.element)
    && ValidArgs(xid, p.args)
    && All(IsSpace, p.whitespace)
  }

  predicate ValidCurly(xid: Xid, c: CurlyTagStart)
  {
    && ValidName(xid, true, c.element)
    && ValidArgs(xid, c.args)
    && All(IsSpace, c.whitespace)
  }

  /** What may follow a value: blanks, the end of a head, or nothing. */
  predicate Closes(rest: string)
  {
    rest == [] || IsSpace(rest[0]) || rest[0] == '|' || rest[0] == ';'
  }

  lemma Multispace0Of(ws: string, rest: string)
    requires All(IsSpace, ws)
    requires rest == [] || !IsSpace(rest[0])
    ensures Multispace0(ws + rest) == Parsed(rest, ws)
  {
    RunEndOf(IsSpace, ws, rest);
    assert (ws + rest)[..|ws|] == ws;
    assert (ws + rest)[|ws|..] == rest;
  }

  lemma NatStringRead(n: nat, rest: string)
    requires rest == [] || !IsDigit(rest[0])
    ensures RunEnd(IsDigit, NatString(n) + rest, 0) == |NatString(n)|
    ensures (NatString(n) + rest)[..|NatString(n)|] == NatString(n)
    ensures (NatString(n) + rest)[|NatString(n)|..] == rest
  {
    RunEndOf(IsDigit, NatString(n), rest);
  }

  /** nom's `i64` reads back what `i64::to_string` writes. */
  lemma I64Of(i: int, rest: string)
    requires I64Min <= i <= I64Max
    requires rest == [] || !IsDigit(rest[0])
    ensures I64(IntString(i) + rest) == Ok(Parsed(rest, i))
  {
    if i < 0 {
      NegativeOf(-i, rest);
    } else {
      NaturalOf(i, rest);
    }
  }

  lemma NegativeOf(m: nat, rest: string)
    requires 0 < m <= -I64Min
    requires rest == [] || !IsDigit(rest[0])
    ensures I64("-" + NatString(m) + rest) == Ok(Parsed(rest, -(m as int)))
  {
    var n := NatString(m);
    var input := "-" + n + rest;
    assert input[1..] == n + rest;
    NatStringRead(m, rest);
    I64Digits(input, 1, n, rest);
  }

  lemma NaturalOf(m: nat, rest: string)
    requires m <= I64Max
    requires rest == [] || !IsDigit(rest[0])
    ensures I64(NatString(m) + rest) == Ok(Parsed(rest, m))
  {
    var n := NatString(m);
    var input := n + rest;
    assert input[0..] == n + rest;
    assert input[0] == n[0];
    NatStringRead(m, rest);
    I64Digits(input, 0, n, rest);
  }

  /** nom's `i64` on a sign of length `signLen`, the digits `n` and a `rest` that is not a digit. */
  lemma I64Digits(input: string, signLen: nat, n: string, rest: string)
    requires signLen <= 1 && signLen <= |input|
    requires input[signLen..] == n + rest
    requires |n| > 0 && All(IsDigit, n) && All(IsHexDigit, n)
    requires signLen == 1 <==> input[0] == '-' || input[0] == '+'
    requires RunEnd(IsDigit, n + rest, 0) == |n|
    requires (n + rest)[..|n|] == n && (n + rest)[|n|..] == rest
    ensures var v: int := if signLen == 1 && input[0] == '-' then -(Value(n, 10) as int) else Value(n, 10);
      I64(input) == if v < I64Min || I64Max < v then Err(NomError(input, Digit)) else Ok(Parsed(rest, v))
  {
    var digits := input[signLen..];
    assert RunEnd(IsDigit, digits, 0) == |n|;
    assert digits[..|n|] == n;
    assert digits[|n|..] == rest;
    assert Value(digits[..|n|], 10) == Value(n, 10);
  }

  /** A written value is read back, whatever closes it. */
  lemma ValueOf(v: TagAttrValue, rest: string)
    requires ValidValue(v)
    requires Closes(rest)
    ensures TagArgsValue(EncodeValue(v) + rest) == Returns(Ok(Parsed(rest, v)))
  {
    var input := EncodeValue(v) + rest;
    match v
    case Boolean(b) =>
      if b {
        assert "true" <= input;
        assert input[4..] == rest;
      } else {
        assert input[0] == 'f';
        assert "false" <= input;
        assert input[5..] == rest;
      }
    case Integer(i) =>
      var s := IntString(i);
      assert s[0] == '-' || IsDigit(s[0]);
      assert input[0] == s[0];
      assert !("0x" <= input) by {
        if s[0] == '0' {
          assert s == NatString(i) && |s| == 1;
          if |rest| > 0 {
            assert input[1] == rest[0];
          }
        }
      }
      I64Of(i, rest);
  }

  /** A written argument is read back. */
  lemma PairOf(xid: Xid, a: Arg, rest: string)
    requires Sane(xid)
    requires ValidArg(xid, a)
    requires Closes(rest)
    ensures TagArgsPair(xid, ArgText(a) + rest) == Returns(Ok(Parsed(rest, a)))
  {
    var value := EncodeValue(a.value) + rest;
    var afterName := "=" + value;
    var afterWs := Encode(a.name) + afterName;
    var input := ArgText(a) + rest;
    Regroup4(a.whitespace, Encode(a.name), "=", EncodeValue(a.value), rest);
    EncodeStarts(xid, a.name, afterName);
    Multispace0Of(a.whitespace, afterWs);
    ParseEncoded(xid, true, a.name, afterName);
    assert afterName[1..] == value;
    ValueOf(a.value, rest);
  }

  /** Blanks and then the char that ends a head. */
  predicate HeadEnd(rest: string)
  {
    var ws := Multispace0(rest);
    ws.rest == [] || ws.rest[0] == '|' || ws.rest[0] == ';'
  }

  lemma NoPairAtEnd(xid: Xid, rest: string)
    requires Sane(xid)
    requires HeadEnd(rest)
    ensures TagArgsPair(xid, rest).Returns? && TagArgsPair(xid, rest).value.Err?
  {
    var ws := Multispace0(rest);
    assert Special(xid, true, ws.rest).Err?;
    assert XidName(xid, true, ws.rest).Err?;
  }

  /** `many0(tag_args_pair)` reads back the written arguments and stops at the end of the head. */
  lemma {:induction false} Many0Of(xid: Xid, args: seq<Arg>, rest: string)
    requires Sane(xid)
    requires ValidArgs(xid, args)
    requires HeadEnd(rest)
    ensures Many0Pairs(xid, ArgsText(args) + rest) == Returns(Ok(Parsed(rest, args)))
    decreases |args|
  {
    if |args| == 0 {
      NoPairAtEnd(xid, rest);
      Many0Stop(xid, rest);
      assert ArgsText(args) + rest == rest;
    } else {
      Many0Of(xid, args[1..], rest);
      Many0Cons(xid, args, rest);
    }
  }

  lemma Many0Cons(xid: Xid, args: seq<Arg>, rest: string)
    requires Sane(xid)
    requires |args| > 0 && ValidArgs(xid, args)
    requires HeadEnd(rest)
    requires Many0Pairs(xid, ArgsText(args[1..]) + rest) == Returns(Ok(Parsed(rest, args[1..])))
    ensures Many0Pairs(xid, ArgsText(args) + rest) == Returns(Ok(Parsed(rest, args)))
  {
    var tail := ArgsText(args[1..]) + rest;
    ConsText(args, rest);
    assert ValidArg(xid, args[0]);
    ValidArgsTail(xid, args);
    ArgsClose(xid, args[1..], rest);
    ConsStep(xid, args[0], args[1..], tail, rest);
    assert [args[0]] + args[1..] == args;
  }

  lemma ConsStep(xid: Xid, a: Arg, more: seq<Arg>, tail: string, rest: string)
    requires Sane(xid) && ValidArg(xid, a) && Closes(tail)
    requires Many0Pairs(xid, tail) == Returns(Ok(Parsed(rest, more)))
    ensures Many0Pairs(xid, ArgText(a) + tail) == Returns(Ok(Parsed(rest, [a] + more)))
  {
    PairOf(xid, a, tail);
    Many0Step(xid, ArgText(a) + tail, a, tail, rest, more);
  }

  lemma ConsText(args: seq<Arg>, rest: string)
    requires |args| > 0
    ensures ArgsText(args) + rest == ArgText(args[0]) + (ArgsText(args[1..]) + rest)
  {
    ArgsTextCons(args);
    Assoc(ArgText(args[0]), ArgsText(args[1..]), rest);
  }

  lemma ValidArgsTail(xid: Xid, args: seq<Arg>)
    requires |args| > 0 && ValidArgs(xid, args)
    ensures ValidArgs(xid, args[1..])
  {
    forall i | 0 <= i < |args| - 1
      ensures ValidArg(xid, args[1..][i])
    {
      assert args[1..][i] == args[i + 1];
    }
  }

  /** `many0` stops without error at the first pair that fails. */
  lemma Many0Stop(xid: Xid, input: string)
    requires TagArgsPair(xid, input).Returns? && TagArgsPair(xid, input).value.Err?
    ensures Many0Pairs(xid, input) == Returns(Ok(Parsed(input, [])))
  {
  }

  /** One turn of `many0`: a pair that consumes input, then the pairs after it. */
  lemma Many0Step(xid: Xid, input: string, a: Arg, mid: string, rest: string, more: seq<Arg>)
    requires TagArgsPair(xid, input) == Returns(Ok(Parsed(mid, a)))
    requires Many0Pairs(xid, mid) == Returns(Ok(Parsed(rest, more)))
    ensures Many0Pairs(xid, input) == Returns(Ok(Parsed(rest, [a] + more)))
  {
  }

  /** Written arguments, then the end of the head, close a value. */
  lemma ArgsClose(xid: Xid, args: seq<Arg>, rest: string)
    requires ValidArgs(xid, args)
    requires HeadEnd(rest)
    ensures Closes(ArgsText(args) + rest)
  {
    if |args| > 0 {
      ArgsTextCons(args);
      assert ValidArg(xid, args[0]);
      ArgStartsBlank(args[0], ArgsText(args[1..]) + rest);
      Assoc(ArgText(args[0]), ArgsText(args[1..]), rest);
    } else {
      HeadEndCloses(rest);
    }
  }

  lemma ArgStartsBlank(a: Arg, rest: string)
    requires |a.whitespace| > 0 && All(IsSpace, a.whitespace)
    ensures IsSpace((ArgText(a) + rest)[0])
  {
    assert (ArgText(a) + rest)[0] == a.whitespace[0];
  }

  lemma HeadEndCloses(rest: string)
    requires HeadEnd(rest)
    ensures Closes(rest)
  {
    var ws := Multispace0(rest);
    if |ws.value| > 0 {
      assert rest[0] == ws.value[0];
    } else {
      assert rest == ws.rest;
    }
  }

  lemma HeadEndOf(ws: string, close: char, rest: string)
    requires All(IsSpace, ws)
    requires close == '|' || close == ';'
    ensures HeadEnd(ws + [close] + rest)
    ensures Multispace0(ws + [close] + rest) == Parsed([close] + rest, ws)
  {
    assert ws + [close] + rest == ws + ([close] + rest);
    Multispace0Of(ws, [close] + rest);
  }

  /** What follows a name: the arguments and the end of the head. */
  lemma FollowsName(xid: Xid, args: seq<Arg>, tail: string)
    requires Sane(xid)
    requires ValidArgs(xid, args)
    requires HeadEnd(tail)
    ensures Follows(xid, true, ArgsText(args) + tail)
    ensures Many0Pairs(xid, ArgsText(args) + tail) == Returns(Ok(Parsed(tail, args)))
  {
    Many0Of(xid, args, tail);
    ArgsClose(xid, args, tail);
  }

  /** The name of a head, its arguments and what closes it are read back. */
  lemma AfterElement(xid: Xid, element: IdFullName, args: seq<Arg>, tail: string)
    requires Sane(xid)
    requires ValidName(xid, true, element)
    requires ValidArgs(xid, args)
    requires HeadEnd(tail)
    ensures ParseIdFullName(xid, true, Encode(element) + (ArgsText(args) + tail))
      == Ok(Parsed(ArgsText(args) + tail, element))
    ensures Many0Pairs(xid, ArgsText(args) + tail) == Returns(Ok(Parsed(tail, args)))
  {
    FollowsName(xid, args, tail);
    ParseEncoded(xid, true, element, ArgsText(args) + tail);
  }

  lemma Regroup4(a: string, b: string, c: string, d: string, e: string)
    ensures a + b + c + d + e == a + (b + (c + (d + e)))
  {
    Assoc(a + b + c, d, e);
    Assoc(a + b, c, d + e);
    Assoc(a, b, c + (d + e));
  }

  lemma Regroup(a: string, b: string, c: string, d: string, e: string, f: string)
    ensures a + b + c + d + e + f == a + (b + (c + (d + e + f)))
  {
    Assoc(a + b + c, d + e, f);
    Assoc(a + b, c, d + e + f);
    Assoc(a, b, c + (d + e + f));
  }

  /** The first char of a written name starts a name or is `!`. */
  lemma EncodeStarts(xid: Xid, n: IdFullName, rest: string)
    requires ValidName(xid, true, n)
    ensures var s := Encode(n) + rest; s[0] == '!' || xid.start(s[0])
  {
  }

  /** The optional view of a pointy head is read back. */
  lemma ViewOf(xid: Xid, view: string, afterView: string)
    requires Sane(xid)
    requires view == "" || IsName(xid, true, view)
    requires |afterView| > 0 && (afterView[0] == '!' || xid.start(afterView[0]))
    ensures var r := ViewName(xid, ViewText(view) + afterView);
      && (r.Ok? <==> view != "")
      && (r.Ok? ==> r.value == Parsed(afterView, view))
      && (r.Err? ==> ViewText(view) + afterView == afterView)
  {
    if |view| > 0 {
      var input := ViewText(view) + afterView;
      assert input == "(" + (view + (")" + afterView));
      assert input[1..] == view + (")" + afterView);
      XidNameOf(xid, true, view, ")" + afterView);
    } else {
      assert ViewText(view) + afterView == afterView;
    }
  }

  /** Parsing what `encode_cptml` writes gives the head back. */
  lemma PointyRoundTrip(xid: Xid, p: PointyTagStart, rest: string)
    requires Sane(xid)
    requires ValidPointy(xid, p)
    ensures ParsePointyTagStart(xid, PointyText(p) + rest) == Returns(Ok(Parsed(rest, p)))
  {
    var tail := p.whitespace + "|" + rest;
    var afterElement := ArgsText(p.args) + tail;
    var afterView := Encode(p.element) + afterElement;
    var afterOpen := ViewText(p.view) + afterView;
    Regroup("<" + ViewText(p.view), Encode(p.element), ArgsText(p.args), p.whitespace, "|", rest);
    Assoc("<", ViewText(p.view), afterView);
    HeadEndOf(p.whitespace, '|', rest);
    AfterElement(xid, p.element, p.args, tail);
    EncodeStarts(xid, p.element, afterElement);
    ViewOf(xid, p.view, afterView);
    PointySteps(xid, PointyText(p) + rest, afterOpen, afterView, afterElement, tail, p, rest);
  }

  /** `pointy_tag_start` stage by stage. */
  lemma PointySteps(xid: Xid, input: string, afterOpen: string, afterView: string, afterElement: string,
                    tail: string, p: PointyTagStart, rest: string)
    requires input == "<" + afterOpen
    requires ViewName(xid, afterOpen).Ok? <==> p.view != ""
    requires ViewName(xid, afterOpen).Ok? ==> ViewName(xid, afterOpen).value == Parsed(afterView, p.view)
    requires ViewName(xid, afterOpen).Err? ==> afterOpen == afterView
    requires ParseIdFullName(xid, true, afterView) == Ok(Parsed(afterElement, p.element))
    requires Many0Pairs(xid, afterElement) == Returns(Ok(Parsed(tail, p.args)))
    requires Multispace0(tail) == Parsed("|" + rest, p.whitespace)
    ensures ParsePointyTagStart(xid, input) == Returns(Ok(Parsed(rest, p)))
  {
    assert input[1..] == afterOpen;
    assert ("|" + rest)[1..] == rest;
  }

  /** The curly parser reads the same layout, closed by `;`. */
  lemma CurlyRoundTrip(xid: Xid, c: CurlyTagStart, rest: string)
    requires Sane(xid)
    requires ValidCurly(xid, c)
    ensures ParseCurlyTagStart(xid, CurlyText(c) + rest) == Returns(Ok(Parsed(rest, c)))
  {
    var tail := c.whitespace + ";" + rest;
    Regroup("{", Encode(c.element), ArgsText(c.args), c.whitespace, ";", rest);
    assert (CurlyText(c) + rest)[1..] == Encode(c.element) + (ArgsText(c.args) + tail);
    HeadEndOf(c.whitespace, ';', rest);
    AfterElement(xid, c.element, c.args, tail);
  }

  /** Without its `;` a curly head fails at the end of the input. */
  lemma CurlyNeedsSemicolon(xid: Xid, c: CurlyTagStart)
    requires Sane(xid)
    requires ValidCurly(xid, c)
    ensures ParseCurlyTagStart(xid, "{" + Encode(c.element) + ArgsText(c.args) + c.whitespace)
      == Returns(Err(NomError("", Char)))
  {
    var input := "{" + Encode(c.element) + ArgsText(c.args) + c.whitespace;
    Assoc("{" + Encode(c.element), ArgsText(c.args), c.whitespace);
    Assoc("{", Encode(c.element), ArgsText(c.args) + c.whitespace);
    assert input[1..] == Encode(c.element) + (ArgsText(c.args) + c.whitespace);
    assert c.whitespace + "" == c.whitespace;
    Multispace0Of(c.whitespace, "");
    AfterElement(xid, c.element, c.args, c.whitespace);
  }

  /** An empty input lacks the `{`; a lone `{` lacks a name. */
  lemma CurlyTooShort(xid: Xid)
    ensures ParseCurlyTagStart(xid, "") == Returns(Err(NomError("", Char)))
    ensures ParseCurlyTagStart(xid, "{") == Returns(Err(NomError("", Eof)))
  {
    assert "{"[1..] == "";
  }

  /** `tag_args_bool` on the inputs of its tests. */
  lemma BoolExamples()
    ensures TagArgsBool("") == Err(NomError("", Tag))
    ensures TagArgsBool("t") == Err(NomError("t", Tag))
    ensures TagArgsBool("f") == Err(NomError("f", Tag))
    ensures TagArgsBool("true") == Ok(Parsed("", Boolean(true)))
    ensures TagArgsBool("false") == Ok(Parsed("", Boolean(false)))
  {
    assert "true"[4..] == "";
    assert "false"[0] != "true"[0];
    assert "false"[5..] == "";
  }

  /** `tag_args_integer` tries hexadecimal before decimal. */
  lemma IntegerExamples(hex: string)
    requires hex == "0xA"
    ensures TagArgsInteger(hex) == Returns(Ok(Parsed("", Integer(10))))
    ensures TagArgsInteger("") == Returns(Err(NomError("", Digit)))
  {
    assert hex[2..] == "A";
    assert HexDigit1("A") == Ok(Parsed("", "A")) by {
      assert RunEnd(IsHexDigit, "A", 0) == 1;
      assert "A"[..1] == "A" && "A"[1..] == "";
    }
    assert Value("A", 16) == Value("", 16) * 16 + 10;
    assert IntegerHex(hex) == Returns(Ok(Parsed("", 10)));
  }

  /** A hexadecimal literal above `i64::MAX` aborts where a decimal one fails. */
  lemma HexOverflowAborts(digits: string, rest: string)
    requires |digits| > 0 && All(IsHexDigit, digits) && Value(digits, 16) > I64Max
    requires rest == [] || !IsHexDigit(rest[0])
    ensures TagArgsInteger("0x" + digits + rest) == Panics(HexMessage)
  {
    var input := "0x" + digits + rest;
    assert input == "0x" + (digits + rest);
    HexDigitsOf(digits, rest);
    HexPanics(input, digits + rest, digits, rest);
  }

  lemma HexPanics(input: string, afterPrefix: string, digits: string, rest: string)
    requires input == "0x" + afterPrefix
    requires HexDigit1(afterPrefix) == Ok(Parsed(rest, digits))
    requires Value(digits, 16) > I64Max
    ensures IntegerHex(input) == Panics(HexMessage)
    ensures TagArgsInteger(input) == Panics(HexMessage)
  {
    assert "0x" <= input;
    assert input[2..] == afterPrefix;
  }

  lemma HexDigitsOf(digits: string, rest: string)
    requires |digits| > 0 && All(IsHexDigit, digits)
    requires rest == [] || !IsHexDigit(rest[0])
    ensures HexDigit1(digits + rest) == Ok(Parsed(rest, digits))
  {
    RunEndOf(IsHexDigit, digits, rest);
    assert (digits + rest)[..|digits|] == digits;
    assert (digits + rest)[|digits|..] == rest;
  }

  /** `encode_cptml` gives back `<sentence|` from its parse. */
  lemma PointyExampleBare(xid: Xid, a: string)
    requires Sane(xid)
    requires IsName(xid, true, "sentence")
    requires a == "<sentence|"
    ensures var r := ParsePointyTagStart(xid, a); r.Returns? && r.value.Ok? && PointyText(r.value.value.value) == a
  {
    var pa := PointyTagStart(IdFullName("", "sentence"), "", [], "");
    assert PointyText(pa) == a;
    PointyRoundTrip(xid, pa, "");
    assert a + "" == a;
  }

  /** `encode_cptml` gives back `<sentence  |` from its parse. */
  lemma PointyExampleBlank(xid: Xid, b: string)
    requires Sane(xid)
    requires IsName(xid, true, "sentence")
    requires b == "<sentence  |"
    ensures var r := ParsePointyTagStart(xid, b); r.Returns? && r.value.Ok? && PointyText(r.value.value.value) == b
  {
    var pb := PointyTagStart(IdFullName("", "sentence"), "", [], "  ");
    assert All(IsSpace, "  ");
    assert PointyText(pb) == b;
    PointyRoundTrip(xid, pb, "");
    assert b + "" == b;
  }

  /** `encode_cptml` gives back `<(文法)tei:sentence html:n=3 |` from its parse. */
  lemma PointyExampleFull(xid: Xid, c: string)
    requires Sane(xid)
    requires IsName(xid, true, "sentence") && IsName(xid, true, "tei") && IsName(xid, true, "文法")
    requires IsName(xid, true, "html") && IsName(xid, true, "n")
    requires c == "<(文法)tei:sentence html:n=3 |"
    ensures var r := ParsePointyTagStart(xid, c); r.Returns? && r.value.Ok? && PointyText(r.value.value.value) == c
  {
    var pc := FullExampleHead();
    FullExampleText(c);
    assert ValidArg(xid, pc.args[0]);
    assert ValidPointy(xid, pc);
    PointyRoundTrip(xid, pc, "");
    assert c + "" == c;
  }

  function FullExampleHead(): PointyTagStart
  {
    PointyTagStart(IdFullName("tei", "sentence"), "文法", [Arg(" ", IdFullName("html", "n"), Integer(3))], " ")
  }

  lemma FullExampleText(c: string)
    requires c == "<(文法)tei:sentence html:n=3 |"
    ensures PointyText(FullExampleHead()) == c
  {
    var p := FullExampleHead();
    ArgsOne(p.args);
    assert ViewText(p.view) == "(文法)";
    assert Encode(p.element) == "tei:sentence";
    Lit(c);
  }

  lemma ArgsOne(args: seq<Arg>)
    requires args == [Arg(" ", IdFullName("html", "n"), Integer(3))]
    ensures ArgsText(args) == " html:n=3"
  {
    assert args[..0] == [];
    assert EncodeValue(Integer(3)) == "3";
    assert Encode(IdFullName("html", "n")) == "html:n";
  }

  lemma Lit(c: string)
    requires c == "<(文法)tei:sentence html:n=3 |"
    ensures "<" + "(文法)" + "tei:sentence" + " html:n=3" + " " + "|" == c
  {
  }
}
