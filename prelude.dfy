/**
 * The shared error and value types of the second draft (rust/src/old2/prelude.rs):
 * `AnyError`, attribute values and their conversions, and `BasicName`.
 *
 * Rust's `trim` strips the chars with the Unicode White_Space property; that
 * set is written out in `IsWhiteSpace`.
 */
module Prelude {
  import opened Wrappers
  import Chars
  import opened Positions

  /** The `i64` range. */
  predicate IsI64(n: int) { -0x8000_0000_0000_0000 <= n < 0x8000_0000_0000_0000 }

  datatype AttrValue =
    | NumVal(num: int, places: nat)
    | StringVal(parsed: string)

  datatype WrongAttrType = NotANumber(value: AttrValue) | NotAString(value: AttrValue)

  /**
   * `AnyError`.  Its two `From` impls (rust/src/old2/prelude.rs:30-40) are the
   * constructors `CharError` and `WrongAttrType`.
   */
  datatype AnyError =
    | CharError(charError: Chars.CharError)
    | IllegalEscapeSequence(pos: Position, text: string)
    | OutOfRange(value: int, low: int, high: int)
    | WrongAttrType(wrongType: WrongAttrType)
    | EndOfInput
    | FauxPanic(message: string)
    | NotReadyYet

  /** The Unicode White_Space property. */
  predicate IsWhiteSpace(c: char)
  {
    || ('\t' <= c <= '\r') || c == ' ' || c == '\U{0085}' || c == '\U{00A0}' || c == '\U{1680}'
    || ('\U{2000}' <= c <= '\U{200A}') || c == '\U{2028}' || c == '\U{2029}' || c == '\U{202F}'
    || c == '\U{205F}' || c == '\U{3000}'
  }

  predicate IsBlank(s: string)
  {
    forall i :: 0 <= i < |s| ==> IsWhiteSpace(s[i])
  }

  /** `str::trim_start`. */
  function TrimStart(s: string): (r: string)
    ensures |r| <= |s| && r == s[|s| - |r|..]
    ensures IsBlank(s[..|s| - |r|])
    ensures |r| > 0 ==> !IsWhiteSpace(r[0])
  {
    if |s| > 0 && IsWhiteSpace(s[0]) then TrimStart(s[1..]) else s
  }

  /** `str::trim_end`. */
  function TrimEnd(s: string): (r: string)
    ensures |r| <= |s| && r == s[..|r|]
    ensures IsBlank(s[|r|..])
    ensures |r| > 0 ==> !IsWhiteSpace(r[|r| - 1])
  {
    if |s| > 0 && IsWhiteSpace(s[|s| - 1]) then TrimEnd(s[..|s| - 1]) else s
  }

  /** `str::trim`. */
  function Trim(s: string): string
  {
    TrimEnd(TrimStart(s))
  }

  /**
   * `trim` cuts `s` to the part between its first and last non-blank chars:
   * what it removes is blank, and what it keeps neither starts nor ends blank.
   */
  lemma TrimIsSubstring(s: string)
    ensures exists i, j :: 0 <= i <= j <= |s| && Trim(s) == s[i..j] && IsBlank(s[..i]) && IsBlank(s[j..])
    ensures |Trim(s)| > 0 ==> !IsWhiteSpace(Trim(s)[0]) && !IsWhiteSpace(Trim(s)[|Trim(s)| - 1])
  {
    var t := TrimStart(s);
    var i := |s| - |t|;
    var j := i + |TrimEnd(t)|;
    assert Trim(s) == s[i..j];
    assert s[j..] == t[|TrimEnd(t)|..];
  }

  /** A string trims to nothing exactly when it is blank. */
  lemma TrimEmptyIffBlank(s: string)
    ensures |Trim(s)| == 0 <==> IsBlank(s)
  {
    var t := TrimStart(s);
    if |Trim(s)| == 0 {
      assert t[|TrimEnd(t)|..] == t;
      assert |t| == 0;
      assert s[..|s| - |t|] == s;
    }
  }

  /**
   * `non_empty_or_none`: `None` for a missing or blank string, otherwise the
   * string itself, untrimmed.
   */
  function NonEmptyOrNone(val: Option<string>): (r: Option<string>)
    ensures r.None? <==> val.None? || IsBlank(val.value)
    ensures r.Some? ==> r.value == val.value
  {
    match val
    case Some(s) =>
      TrimEmptyIffBlank(s);
      if |Trim(s)| == 0 then None else Some(s)
    case None => None
  }

  datatype BasicName = BasicName(view: Option<string>, prefix: Option<string>, local: string, raw: Option<string>)
  {
    /** `is_empty`. */
    predicate IsEmpty()
    {
      view.None? && prefix.None? && |local| == 0 && raw.None?
    }
  }

  /** `BasicName::new`: trim the local part, drop blank views and prefixes, keep `raw`. */
  function NewBasicName(view: Option<string>, prefix: Option<string>, local: string, raw: Option<string>): (n: BasicName)
    ensures n.view == NonEmptyOrNone(view) && n.prefix == NonEmptyOrNone(prefix)
    ensures n.local == Trim(local) && n.raw == raw
    ensures n.IsEmpty() <==>
      (view.None? || IsBlank(view.value)) && (prefix.None? || IsBlank(prefix.value)) && IsBlank(local) && raw.None?
  {
    TrimEmptyIffBlank(local);
    BasicName(NonEmptyOrNone(view), NonEmptyOrNone(prefix), Trim(local), raw)
  }

  /** `BasicName::new_empty`. */
  function NewEmptyBasicName(): (n: BasicName)
    ensures n.IsEmpty()
  {
    BasicName(None, None, "", None)
  }

  /** `TryFrom<AttrValue> for bool`: a number is true when it is non-zero. */
  function TryBool(v: AttrValue): (r: Result<bool, WrongAttrType>)
    ensures r.Ok? <==> v.NumVal?
    ensures r.Ok? ==> (r.value <==> v.num != 0)
    ensures r.Err? ==> r.error == NotANumber(v)
  {
    if v.NumVal? then Ok(v.num != 0) else Err(NotANumber(v))
  }

  /** `TryFrom<AttrValue> for String`. */
  function TryString(v: AttrValue): (r: Result<string, WrongAttrType>)
    ensures r.Ok? <==> v.StringVal?
    ensures r.Ok? ==> r.value == v.parsed
    ensures r.Err? ==> r.error == NotAString(v)
  {
    if v.StringVal? then Ok(v.parsed) else Err(NotAString(v))
  }

  function Pow10(k: nat): (p: nat)
    ensures p >= 1
  {
    if k == 0 then 1 else 10 * Pow10(k - 1)
  }

  /** Rust's integer `/`, which rounds toward zero. */
  function Quot(a: int, b: int): (q: int)
    requires b > 0
    ensures a >= 0 ==> 0 <= q && q * b <= a < q * b + b
    ensures a < 0 ==> q <= 0 && q * b - b < a <= q * b
  {
    if a >= 0 then a / b else -((-a) / b)
  }

  lemma DivUnique(a: nat, d: nat, q: nat, r: nat)
    requires d > 0 && a == d * q + r && r < d
    ensures a / d == q
  {
    var q', r' := a / d, a % d;
    assert d * q + r == d * q' + r';
    if q > q' {
      assert d * q == d * (q - q') + d * q';
      MulAtLeast(d, q - q');
    } else if q < q' {
      assert d * q' == d * (q' - q) + d * q;
      MulAtLeast(d, q' - q);
    }
  }

  lemma MulAtLeast(d: nat, k: nat)
    requires k >= 1
    ensures d * k >= d
  {
    assert d * k == d * (k - 1) + d;
  }

  lemma MulSplit(b: nat, c: nat, q: nat, r: nat)
    ensures b * (c * q + r) == b * c * q + b * r
  {
  }

  lemma MulBelow(b: nat, r: nat, c: nat)
    requires r < c
    ensures b * r + b <= b * c
  {
    assert b * c == b * r + b * (c - r);
    MulAtLeast(b, c - r);
  }

  /** Dividing by `b` then by `c` is dividing by `b * c`. */
  lemma NatDivDiv(a: nat, b: nat, c: nat)
    requires b > 0 && c > 0
    ensures a / b / c == a / (b * c)
  {
    var q1, r1 := a / b, a % b;
    var q2, r2 := q1 / c, q1 % c;
    assert a == b * q1 + r1;
    assert q1 == c * q2 + r2;
    MulSplit(b, c, q2, r2);
    MulBelow(b, r2, c);
    DivUnique(a, b * c, q2, b * r2 + r1);
  }

  /** Truncating division composes the same way. */
  lemma QuotQuot(a: int, b: nat, c: nat)
    requires b > 0 && c > 0
    ensures Quot(Quot(a, b), c) == Quot(a, b * c)
  {
    if a >= 0 {
      NatDivDiv(a, b, c);
    } else {
      NatDivDiv(-a, b, c);
    }
  }

  /**
   * `TryFrom<AttrValue> for i64`: the number divided by ten `places` times,
   * each time rounding toward zero; which is the number divided by
   * `10^places`, rounded toward zero.
   */
  method TryI64(v: AttrValue) returns (r: Result<int, WrongAttrType>)
    ensures r.Ok? <==> v.NumVal?
    ensures r.Ok? ==> r.value == Quot(v.num, Pow10(v.places))
    ensures r.Err? ==> r.error == NotANumber(v)
  {
    if !v.NumVal? {
      return Err(NotANumber(v));
    }
    var ans := v.num;
    for i := 0 to v.places
      invariant ans == Quot(v.num, Pow10(i))
    {
      QuotQuot(v.num, Pow10(i), 10);
      ans := Quot(ans, 10);
    }
    return Ok(ans);
  }

  lemma DivBounds(m: nat, p: nat)
    requires p >= 1
    ensures m / p <= m
    ensures m / p == 0 <==> m < p
  {
    MulAtLeast(m / p, p);
    if m < p {
      DivUnique(m, p, 0, m);
    }
  }

  /** The conversion to `i64` never leaves the `i64` range. */
  lemma QuotStaysI64(n: int, places: nat)
    requires IsI64(n)
    ensures IsI64(Quot(n, Pow10(places)))
    ensures Quot(n, Pow10(places)) >= 0 <==> n + Pow10(places) > 0
  {
    if n >= 0 {
      DivBounds(n, Pow10(places));
    } else {
      DivBounds(-n, Pow10(places));
    }
  }
}
