/**
 * The name parsers that rust/src/lexer.rs and rust/src/ast.rs both write
 * with nom: `xid_name`, `idfullname_special`, `idfullname_regular`,
 * `idfullname_local`, `idfullname`, and `IdFullName::encode_cptml`.
 *
 * The two files differ in one point only: in ast.rs a `-` continues a name,
 * in lexer.rs it does not.  The flag `dashes` selects the file.
 *
 * A nom parser either returns the rest of its input together with a value, or
 * fails with an error that names the input it failed on and an error kind.
 * The Unicode XID tables are a parameter.
 */
module Names {
  import opened Wrappers

  /** The nom error kinds these parsers produce. */
  datatype ErrorKind = Eof | Alpha | Char | Tag | Digit | HexDigit | Many0

  datatype NomError = NomError(input: string, code: ErrorKind)

  datatype Parsed<+T> = Parsed(rest: string, value: T)

  type PResult<T> = Result<Parsed<T>, NomError>

  /** The XID_Start and XID_Continue tables of Unicode. */
  datatype Xid = Xid(start: char -> bool, cont: char -> bool)

  /** The punctuation of the markup is neither XID_Start nor XID_Continue. */
  predicate Sane(xid: Xid)
  {
    && !xid.start('!') && !xid.start('|') && !xid.start(';') && !xid.start('(')
    && !xid.start(' ') && !xid.start('\t') && !xid.start('\r') && !xid.start('\n')
    && !xid.cont(':') && !xid.cont('=') && !xid.cont(')') && !xid.cont('|') && !xid.cont(';')
    && !xid.cont(' ') && !xid.cont('\t') && !xid.cont('\r') && !xid.cont('\n')
  }

  /** `valid_xid_continue` of ast.rs (with dashes) and `is_xid_continue` of lexer.rs. */
  predicate Continues(xid: Xid, dashes: bool, c: char)
  {
    (dashes && c == '-') || xid.cont(c)
  }

  /** `<XID_START> <XID_CONTINUE>*` */
  predicate IsName(xid: Xid, dashes: bool, s: string)
  {
    && |s| > 0
    && xid.start(s[0])
    && forall i :: 1 <= i < |s| ==> Continues(xid, dashes, s[i])
  }

  /** What may follow a name without extending it. */
  predicate EndsName(xid: Xid, dashes: bool, rest: string)
  {
    rest == [] || !Continues(xid, dashes, rest[0])
  }

  /** Where the run of continuing chars that starts at `i` ends. */
  function NameEnd(xid: Xid, dashes: bool, input: string, i: nat): (e: nat)
    requires i <= |input|
    ensures i <= e <= |input|
    ensures forall j :: i <= j < e ==> Continues(xid, dashes, input[j])
    ensures EndsName(xid, dashes, input[e..])
    decreases |input| - i
  {
    if i == |input| || !Continues(xid, dashes, input[i]) then i
    else NameEnd(xid, dashes, input, i + 1)
  }

  /** Any end with the two properties of `NameEnd` is `NameEnd`. */
  lemma {:induction false} NameEndUnique(xid: Xid, dashes: bool, input: string, i: nat, e: nat)
    requires i <= e <= |input|
    requires forall j :: i <= j < e ==> Continues(xid, dashes, input[j])
    requires EndsName(xid, dashes, input[e..])
    ensures NameEnd(xid, dashes, input, i) == e
    decreases e - i
  {
    if i < e {
      NameEndUnique(xid, dashes, input, i + 1, e);
    }
  }

  /**
   * `xid_name`: empty input fails with `Eof`, a first char that is not
   * XID_Start fails with `Alpha`; otherwise the longest name that starts the
   * input, and the rest.
   */
  function XidName(xid: Xid, dashes: bool, input: string): (r: PResult<string>)
    ensures r.Err? <==> |input| == 0 || !xid.start(input[0])
    ensures r.Err? ==> r.error == NomError(input, if |input| == 0 then Eof else Alpha)
    ensures r.Ok? ==>
      && IsName(xid, dashes, r.value.value)
      && r.value.value + r.value.rest == input
      && EndsName(xid, dashes, r.value.rest)
  {
    if |input| == 0 then Err(NomError(input, Eof))
    else if !xid.start(input[0]) then Err(NomError(input, Alpha))
    else
      var e := NameEnd(xid, dashes, input, 1);
      assert input[..e] + input[e..] == input;
      Ok(Parsed(input[e..], input[..e]))
  }

  /** The loop of `xid_name` over the chars of its input. */
  method ScanXidName(xid: Xid, dashes: bool, input: string) returns (r: PResult<string>)
    ensures r == XidName(xid, dashes, input)
  {
    if |input| == 0 {
      return Err(NomError(input, Eof));
    }
    if !xid.start(input[0]) {
      return Err(NomError(input, Alpha));
    }
    var lastPos := |input|;
    var i := 1;
    while i < |input|
      invariant 1 <= i <= |input|
      invariant NameEnd(xid, dashes, input, i) == NameEnd(xid, dashes, input, 1)
    {
      if !Continues(xid, dashes, input[i]) {
        lastPos := i;
        break;
      }
      i := i + 1;
    }
    return Ok(Parsed(input[lastPos..], input[..lastPos]));
  }

  /** A name followed by anything that does not continue it is read back whole. */
  lemma XidNameOf(xid: Xid, dashes: bool, name: string, rest: string)
    requires IsName(xid, dashes, name)
    requires EndsName(xid, dashes, rest)
    ensures XidName(xid, dashes, name + rest) == Ok(Parsed(rest, name))
  {
    var input := name + rest;
    assert input[|name|..] == rest;
    NameEndUnique(xid, dashes, input, 1, |name|);
    assert input[..|name|] == name;
  }

  datatype IdFullName = IdFullName(namespace: string, localname: string)

  /** `IdFullName::encode_cptml` */
  function Encode(n: IdFullName): (s: string)
    ensures n.namespace == "" ==> s == n.localname
    ensures n.namespace == "!" ==> s == "!" + n.localname
    ensures n.namespace != "" && n.namespace != "!" ==> s == n.namespace + ":" + n.localname
  {
    match n.namespace
    case "" => n.localname
    case "!" => "!" + n.localname
    case _ => n.namespace + ":" + n.localname
  }

  /** `idfullname_special`: `!` and a name. */
  function Special(xid: Xid, dashes: bool, input: string): (r: PResult<(string, string)>)
    ensures r.Ok? <==> |input| > 0 && input[0] == '!' && XidName(xid, dashes, input[1..]).Ok?
    ensures r.Ok? ==>
      && r.value.value == ("!", XidName(xid, dashes, input[1..]).value.value)
      && r.value.rest == XidName(xid, dashes, input[1..]).value.rest
  {
    if |input| == 0 || input[0] != '!' then Err(NomError(input, Char))
    else
      match XidName(xid, dashes, input[1..])
      case Err(e) => Err(e)
      case Ok(Parsed(rest, name)) => Ok(Parsed(rest, ("!", name)))
  }

  /** `idfullname_regular`: a name, `:` and a name. */
  function Regular(xid: Xid, dashes: bool, input: string): (r: PResult<(string, string)>)
    ensures r.Ok? ==>
      && IsName(xid, dashes, r.value.value.0) && IsName(xid, dashes, r.value.value.1)
      && r.value.value.0 + ":" + r.value.value.1 + r.value.rest == input
  {
    var first := XidName(xid, dashes, input);
    if first.Err? then Err(first.error)
    else
      var afterNs := first.value.rest;
      if |afterNs| == 0 || afterNs[0] != ':' then Err(NomError(afterNs, Char))
      else
        var second := XidName(xid, dashes, afterNs[1..]);
        if second.Err? then Err(second.error)
        else
          RegularText(first.value.value, afterNs, second.value.value, second.value.rest);
          Ok(Parsed(second.value.rest, (first.value.value, second.value.value)))
  }

  lemma RegularText(ns: string, afterNs: string, local: string, rest: string)
    requires |afterNs| > 0 && afterNs[0] == ':'
    requires local + rest == afterNs[1..]
    ensures ns + ":" + local + rest == ns + afterNs
  {
    assert afterNs == ":" + (local + rest);
  }

  /** `idfullname_local`: a name in no namespace. */
  function Local(xid: Xid, dashes: bool, input: string): (r: PResult<(string, string)>)
    ensures r.Ok? <==> XidName(xid, dashes, input).Ok?
    ensures r.Ok? ==> r.value == Parsed(XidName(xid, dashes, input).value.rest, ("", XidName(xid, dashes, input).value.value))
    ensures r.Err? ==> r.error == XidName(xid, dashes, input).error
  {
    match XidName(xid, dashes, input)
    case Err(e) => Err(e)
    case Ok(Parsed(rest, name)) => Ok(Parsed(rest, ("", name)))
  }

  /**
   * `idfullname`: the first of special, regular and local that succeeds; when
   * all three fail, the error of the last.
   */
  function ParseIdFullName(xid: Xid, dashes: bool, input: string): (r: PResult<IdFullName>)
    ensures r.Ok? ==> |r.value.rest| < |input|
    ensures r.Err? ==>
      && Special(xid, dashes, input).Err? && Regular(xid, dashes, input).Err?
      && Local(xid, dashes, input) == Err(r.error)
  {
    match Special(xid, dashes, input)
    case Ok(Parsed(rest, (ns, local))) => Ok(Parsed(rest, IdFullName(ns, local)))
    case Err(_) =>
      match Regular(xid, dashes, input)
      case Ok(Parsed(rest, (ns, local))) => Ok(Parsed(rest, IdFullName(ns, local)))
      case Err(_) =>
        match Local(xid, dashes, input)
        case Ok(Parsed(rest, (ns, local))) => Ok(Parsed(rest, IdFullName(ns, local)))
        case Err(e) => Err(e)
  }

  /** The names `idfullname` can produce. */
  predicate ValidName(xid: Xid, dashes: bool, n: IdFullName)
  {
    && (n.namespace == "" || n.namespace == "!" || IsName(xid, dashes, n.namespace))
    && IsName(xid, dashes, n.localname)
  }

  /** The three forms of name, in the order `idfullname` tries them. */
  lemma ParseIdFullNameForms(xid: Xid, dashes: bool, input: string)
    requires !xid.start('!')
    ensures var r := ParseIdFullName(xid, dashes, input);
      r.Ok? ==>
        && ValidName(xid, dashes, r.value.value)
        && (r.value.value.namespace == "!" <==> input[0] == '!')
        && (r.value.value.namespace == "" ==> Regular(xid, dashes, input).Err?)
  {
  }

  /** Encoding a parsed name gives back the text it was parsed from. */
  lemma EncodeParsed(xid: Xid, dashes: bool, input: string)
    requires !xid.start('!')
    ensures var r := ParseIdFullName(xid, dashes, input);
      r.Ok? ==> Encode(r.value.value) + r.value.rest == input
  {
    if Special(xid, dashes, input).Ok? {
      EncodeParsedSpecial(xid, dashes, input);
    } else if Regular(xid, dashes, input).Ok? {
      EncodeParsedRegular(xid, dashes, input);
    }
  }

  lemma EncodeParsedSpecial(xid: Xid, dashes: bool, input: string)
    requires Special(xid, dashes, input).Ok?
    ensures var r := ParseIdFullName(xid, dashes, input);
      r.Ok? && Encode(r.value.value) + r.value.rest == input
  {
    var x := XidName(xid, dashes, input[1..]).value;
    SpecialFirst(xid, dashes, input, x.rest, x.value);
    BangText(input, x.value, x.rest);
  }

  /** `idfullname` keeps the result of its first alternative. */
  lemma SpecialFirst(xid: Xid, dashes: bool, input: string, rest: string, name: string)
    requires Special(xid, dashes, input) == Ok(Parsed(rest, ("!", name)))
    ensures ParseIdFullName(xid, dashes, input) == Ok(Parsed(rest, IdFullName("!", name)))
  {
  }

  lemma BangText(input: string, name: string, rest: string)
    requires |input| > 0 && input[0] == '!' && input[1..] == name + rest
    ensures Encode(IdFullName("!", name)) + rest == input
  {
    assert input == [input[0]] + input[1..];
  }

  lemma EncodeParsedRegular(xid: Xid, dashes: bool, input: string)
    requires !xid.start('!')
    requires Special(xid, dashes, input).Err? && Regular(xid, dashes, input).Ok?
    ensures var r := ParseIdFullName(xid, dashes, input);
      r.Ok? && Encode(r.value.value) + r.value.rest == input
  {
    var g := Regular(xid, dashes, input).value;
    assert g.value.0[0] != '!';
    assert ParseIdFullName(xid, dashes, input) == Ok(Parsed(g.rest, IdFullName(g.value.0, g.value.1)));
  }

  /** What may follow a name in the markup without being read as part of it. */
  predicate Follows(xid: Xid, dashes: bool, rest: string)
  {
    EndsName(xid, dashes, rest) && (rest == [] || rest[0] != ':')
  }

  /** Parsing an encoded name gives the name back. */
  lemma ParseEncoded(xid: Xid, dashes: bool, n: IdFullName, rest: string)
    requires Sane(xid)
    requires ValidName(xid, dashes, n)
    requires Follows(xid, dashes, rest)
    ensures ParseIdFullName(xid, dashes, Encode(n) + rest) == Ok(Parsed(rest, n))
  {
    if n.namespace == "" {
      ParseEncodedLocal(xid, dashes, n.localname, rest);
    } else if n.namespace == "!" {
      ParseEncodedSpecial(xid, dashes, n.localname, rest);
    } else {
      ParseEncodedRegular(xid, dashes, n.namespace, n.localname, rest);
    }
  }

  lemma ParseEncodedLocal(xid: Xid, dashes: bool, local: string, rest: string)
    requires Sane(xid)
    requires IsName(xid, dashes, local)
    requires Follows(xid, dashes, rest)
    ensures ParseIdFullName(xid, dashes, local + rest) == Ok(Parsed(rest, IdFullName("", local)))
  {
    XidNameOf(xid, dashes, local, rest);
    assert Special(xid, dashes, local + rest).Err?;
    assert Regular(xid, dashes, local + rest).Err?;
  }

  lemma ParseEncodedSpecial(xid: Xid, dashes: bool, local: string, rest: string)
    requires IsName(xid, dashes, local)
    requires EndsName(xid, dashes, rest)
    ensures ParseIdFullName(xid, dashes, "!" + local + rest) == Ok(Parsed(rest, IdFullName("!", local)))
  {
    XidNameOf(xid, dashes, local, rest);
    assert ("!" + local + rest)[1..] == local + rest;
  }

  lemma ParseEncodedRegular(xid: Xid, dashes: bool, ns: string, local: string, rest: string)
    requires Sane(xid)
    requires IsName(xid, dashes, ns) && IsName(xid, dashes, local)
    requires EndsName(xid, dashes, rest)
    ensures ParseIdFullName(xid, dashes, ns + ":" + local + rest) == Ok(Parsed(rest, IdFullName(ns, local)))
  {
    var input := ns + ":" + local + rest;
    var afterNs := ":" + (local + rest);
    assert input == ns + afterNs;
    RegularOf(xid, dashes, ns, afterNs, local, rest);
    assert input[0] == ns[0];
  }

  lemma RegularOf(xid: Xid, dashes: bool, ns: string, afterNs: string, local: string, rest: string)
    requires Sane(xid)
    requires IsName(xid, dashes, ns) && IsName(xid, dashes, local)
    requires EndsName(xid, dashes, rest)
    requires afterNs == ":" + (local + rest)
    ensures Regular(xid, dashes, ns + afterNs) == Ok(Parsed(rest, (ns, local)))
  {
    assert !Continues(xid, dashes, ':');
    XidNameOf(xid, dashes, ns, afterNs);
    assert afterNs[1..] == local + rest;
    XidNameOf(xid, dashes, local, rest);
  }

  /** `idfullname_local` stops at the `:` of a namespaced name. */
  lemma LocalStopsAtColon(xid: Xid, dashes: bool, ns: string, local: string)
    requires IsName(xid, dashes, ns)
    requires !Continues(xid, dashes, ':')
    ensures Local(xid, dashes, ns + ":" + local) == Ok(Parsed(":" + local, ("", ns)))
  {
    assert ns + ":" + local == ns + (":" + local);
    XidNameOf(xid, dashes, ns, ":" + local);
  }

  /** `-` continues a name in ast.rs but ends it in lexer.rs. */
  lemma DashesDiffer(xid: Xid, head: char, tail: string)
    requires xid.start(head) && !xid.cont('-')
    ensures XidName(xid, true, [head, '-'] + tail).value.value[..2] == [head, '-']
    ensures XidName(xid, false, [head, '-'] + tail) == Ok(Parsed(['-'] + tail, [head]))
  {
    var input := [head, '-'] + tail;
    assert XidName(xid, true, input).value.value + XidName(xid, true, input).value.rest == input;
    assert NameEnd(xid, true, input, 1) >= 2;
    XidNameOf(xid, false, [head], ['-'] + tail);
    assert [head] + (['-'] + tail) == input;
  }
}
