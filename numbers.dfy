/**
 * The numeric conversions of the annotation codec: Python's `float(token)` on a
 * string, `int(x)` on a float, and `str(n)` / f-string formatting of an `int`.
 *
 * A float is kept as its exact mathematical value: the decimal literal
 * "0.1" denotes the real 1/10 here, not the nearest binary double.
 */
module Numbers {
  import opened Wrappers
  import opened Text

  /** A Python float: a finite value, a signed infinity, or NaN. */
  datatype Float = Finite(value: real) | Infinity(negative: bool) | NaN

  // ---------------------------------------------------------------------------
  // Digits

  predicate IsDigit(c: char) {
    '0' <= c <= '9'
  }

  predicate AllDigits(s: string) {
    forall i :: 0 <= i < |s| ==> IsDigit(s[i])
  }

  function DigitChar(d: nat): (c: char)
    requires d < 10
    ensures IsDigit(c)
  {
    ('0' as int + d) as char
  }

  /** The value of a string of decimal digits, most significant first. */
  function DigitsValue(s: string): nat
    requires AllDigits(s)
  {
    if s == [] then 0
    else DigitsValue(s[..|s| - 1]) * 10 + (s[|s| - 1] as int - '0' as int)
  }

  /** `m * 10^e` for a possibly negative exponent, as an exact real. */
  function Scale(m: nat, e: int): real
    decreases if e < 0 then -e else e
  {
    if e == 0 then m as real
    else if e > 0 then 10.0 * Scale(m, e - 1)
    else Scale(m, e + 1) / 10.0
  }

  // ---------------------------------------------------------------------------
  // str(n) for an int

  /** Decimal digits of `n`, no leading zeros. */
  function NatToString(n: nat): (s: string)
    ensures |s| > 0 && AllDigits(s)
    ensures DigitsValue(s) == n
    ensures |s| > 1 ==> s[0] != '0'
  {
    if n < 10 then [DigitChar(n)]
    else
      var s := NatToString(n / 10) + [DigitChar(n % 10)];
      assert s[..|s| - 1] == NatToString(n / 10);
      s
  }

  /** `str(n)` for a Python `int`: a minus sign before the digits of a negative number. */
  function IntToString(n: int): (s: string)
    ensures |s| > 0
  {
    if n < 0 then "-" + NatToString(-n) else NatToString(n)
  }

  // ---------------------------------------------------------------------------
  // float(token)

  /**
   * An underscore is accepted only between two digits ("1_000"); CPython
   * checks this before anything else is parsed.
   */
  predicate ValidUnderscores(s: string)
    decreases |s|
  {
    if s == [] then true
    else if s[0] == '_' then false
    else if |s| >= 3 && IsDigit(s[0]) && s[1] == '_' then IsDigit(s[2]) && ValidUnderscores(s[2..])
    else ValidUnderscores(s[1..])
  }

  lemma {:induction false} NoUnderscoreIsValid(s: string)
    requires '_' !in s
    ensures ValidUnderscores(s)
    decreases |s|
  {
    if s != [] {
      NoUnderscoreIsValid(s[1..]);
    }
  }

  function RemoveUnderscores(s: string): (r: string)
    ensures '_' !in s ==> r == s
  {
    if s == [] then []
    else (if s[0] == '_' then [] else [s[0]]) + RemoveUnderscores(s[1..])
  }

  /** ASCII lower case, as CPython compares "inf", "infinity" and "nan". */
  function LowerChar(c: char): char {
    if 'A' <= c <= 'Z' then (c as int + 32) as char else c
  }

  function Lower(s: string): (r: string)
    ensures |r| == |s|
    ensures AllDigits(s) ==> r == s
  {
    seq(|s|, i requires 0 <= i < |s| => LowerChar(s[i]))
  }

  /** Index of the first occurrence of a character from `cs` in `s`, or `|s|`. */
  function IndexOfAny(s: string, cs: set<char>): (i: nat)
    ensures i <= |s|
    ensures forall k :: 0 <= k < i ==> s[k] !in cs
    ensures i < |s| ==> s[i] in cs
  {
    if s == [] || s[0] in cs then 0 else 1 + IndexOfAny(s[1..], cs)
  }

  /** The digits after an exponent marker: an optional sign, then at least one digit. */
  function ParseExponent(s: string): (r: Option<int>)
    ensures s == [] ==> r.None?
  {
    var neg := |s| > 0 && s[0] == '-';
    var digits := if |s| > 0 && (s[0] == '+' || s[0] == '-') then s[1..] else s;
    if digits == [] || !AllDigits(digits) then None
    else Some(if neg then -(DigitsValue(digits) as int) else DigitsValue(digits))
  }

  /**
   * An unsigned decimal literal: digits with at most one `'.'`, at least one
   * digit in all, then optionally `e`/`E`, an optional sign and digits.
   */
  function ParseDecimal(s: string): Option<real> {
    var e := IndexOfAny(s, {'e', 'E'});
    var mantissa := s[..e];
    var exponent := if e < |s| then ParseExponent(s[e + 1..]) else Some(0);
    var dot := IndexOfAny(mantissa, {'.'});
    var intPart := mantissa[..dot];
    var fracPart := if dot < |mantissa| then mantissa[dot + 1..] else "";
    if exponent.None? || !AllDigits(intPart) || !AllDigits(fracPart) || |intPart| + |fracPart| == 0 then None
    else Some(Scale(DigitsValue(intPart + fracPart), exponent.value - |fracPart|))
  }

  /** A literal without its sign: the words "inf", "infinity" and "nan" in any case, or a decimal. */
  function ParseUnsigned(body: string): Option<Float> {
    var word := Lower(body);
    if word == "inf" || word == "infinity" then Some(Infinity(false))
    else if word == "nan" then Some(NaN)
    else match ParseDecimal(body)
      case None => None
      case Some(v) => Some(Finite(v))
  }

  /** The value of `-x`, which leaves NaN as it is. */
  function Negate(f: Float): Float {
    match f
    case Finite(v) => Finite(-v)
    case Infinity(negative) => Infinity(!negative)
    case NaN => NaN
  }

  /** A literal after whitespace and underscores are gone: an optional sign, then a word or a decimal. */
  function ParseLiteral(t: string): Option<Float> {
    if |t| > 0 && (t[0] == '+' || t[0] == '-') then
      match ParseUnsigned(t[1..])
      case None => None
      case Some(f) => Some(if t[0] == '-' then Negate(f) else f)
    else ParseUnsigned(t)
  }

  /**
   * The whitespace `float()` ignores around a literal: every character
   * `str.isspace` accepts except the ASCII separators U+001C to U+001F, which
   * CPython keeps (only non-ASCII whitespace is turned into a space before
   * `" \t\n\v\f\r"` is stripped).
   */
  predicate IsFloatSpace(c: char) {
    IsSpace(c) && !('\U{1C}' <= c <= '\U{1F}')
  }

  /** Drops the leading `float()` whitespace. */
  function FloatTrimStart(s: string): (r: string)
    ensures |r| <= |s| && r == s[|s| - |r|..]
    ensures forall k :: 0 <= k < |s| - |r| ==> IsFloatSpace(s[k])
    ensures r == [] || !IsFloatSpace(r[0])
  {
    if |s| > 0 && IsFloatSpace(s[0]) then FloatTrimStart(s[1..]) else s
  }

  /** Drops the trailing `float()` whitespace. */
  function FloatTrimEnd(s: string): (r: string)
    ensures |r| <= |s| && r == s[..|r|]
    ensures forall k :: |r| <= k < |s| ==> IsFloatSpace(s[k])
    ensures r == [] || !IsFloatSpace(r[|r| - 1])
  {
    if |s| > 0 && IsFloatSpace(s[|s| - 1]) then FloatTrimEnd(s[..|s| - 1]) else s
  }

  /** The token `float()` parses once its own whitespace is gone from both ends. */
  function FloatStrip(s: string): (r: string)
    ensures |r| <= |s|
    ensures r == [] || (!IsFloatSpace(r[0]) && !IsFloatSpace(r[|r| - 1]))
    ensures Trimmed(s) ==> r == s
  {
    FloatTrimEnd(FloatTrimStart(s))
  }

  /**
   * What `float()` strips is its own whitespace at the two ends, and only
   * that: the separators U+001C to U+001F are never removed.
   */
  lemma FloatStripIsSlice(s: string)
    ensures var i, r := |s| - |FloatTrimStart(s)|, FloatStrip(s);
      && i + |r| <= |s| && r == s[i..][..|r|]
      && (forall k :: 0 <= k < i ==> IsFloatSpace(s[k]))
      && (forall k :: i + |r| <= k < |s| ==> IsFloatSpace(s[k]))
  {
    var t := FloatTrimStart(s);
    var r := FloatTrimEnd(t);
    assert FloatStrip(s) == r;
    FloatSpacesOfSuffix(s, |s| - |t|, |r|);
  }

  lemma FloatSpacesOfSuffix(s: string, i: nat, n: nat)
    requires i + n <= |s|
    requires forall k :: n <= k < |s[i..]| ==> IsFloatSpace(s[i..][k])
    ensures forall k :: i + n <= k < |s| ==> IsFloatSpace(s[k])
  {
    forall k | i + n <= k < |s| ensures IsFloatSpace(s[k]) {
      assert s[k] == s[i..][k - i];
    }
  }

  /**
   * Python's `float(token)`: surrounding whitespace is ignored, underscores
   * between digits are dropped, and anything else that is not a literal is
   * a `ValueError` (here `None`).
   */
  function ParseFloat(token: string): Option<Float> {
    var t := FloatStrip(token);
    if !ValidUnderscores(t) then None else ParseLiteral(RemoveUnderscores(t))
  }

  /** The empty token, which `split(' ')` yields for doubled spaces, is not a number. */
  lemma EmptyTokenIsNotAFloat()
    ensures ParseFloat("") == None
  {
    assert FloatStrip("") == "";
    assert Lower("") == "";
  }

  /** A token of whitespace only is not a number, whether `float()` strips that whitespace or not. */
  lemma BlankTokenIsNotAFloat(token: string)
    requires forall i :: 0 <= i < |token| ==> IsSpace(token[i])
    ensures ParseFloat(token) == None
  {
    var u := FloatTrimStart(token);
    var t := FloatTrimEnd(u);
    assert forall k :: 0 <= k < |t| ==> IsSpace(t[k]) by {
      forall k | 0 <= k < |t| ensures IsSpace(t[k]) {
        assert t[k] == u[k] == token[|token| - |u| + k];
      }
    }
    SpacesAreNoLiteral(t);
    StrippedLiteral(token);
  }

  /** Once stripped, a token without underscores is parsed as it stands. */
  lemma StrippedLiteral(token: string)
    requires '_' !in FloatStrip(token)
    ensures ParseFloat(token) == ParseLiteral(FloatStrip(token))
  {
    NoUnderscoreIsValid(FloatStrip(token));
  }

  /** A run of whitespace, stripped or not, is no literal. */
  lemma SpacesAreNoLiteral(t: string)
    requires forall k :: 0 <= k < |t| ==> IsSpace(t[k])
    ensures '_' !in t && ParseLiteral(t) == None
  {
    assert forall k :: 0 <= k < |t| ==> t[k] != '_' && t[k] !in {'e', 'E'} && t[k] !in {'.'};
    if t == [] {
      assert Lower(t) == "";
    } else {
      assert !IsDigit(t[0]);
      NotAWordChar(t);
    }
    NotADecimal(t);
    UnsignedNone(t);
  }

  /** Text without an exponent or point marker that is not a run of digits is no decimal. */
  lemma NotADecimal(t: string)
    requires forall k :: 0 <= k < |t| ==> t[k] !in {'e', 'E'} && t[k] !in {'.'}
    requires t == [] || !AllDigits(t)
    ensures ParseDecimal(t) == None
  {
    IndexOfAbsent(t, {'e', 'E'});
    assert t[..|t|] == t;
    IndexOfAbsent(t, {'.'});
  }

  /** Text whose first character is neither `i` nor `n` in any case is not one of the words. */
  lemma NotAWordChar(t: string)
    requires |t| > 0 && LowerChar(t[0]) != 'i' && LowerChar(t[0]) != 'n'
    ensures Lower(t) != "inf" && Lower(t) != "infinity" && Lower(t) != "nan"
  {
    assert Lower(t)[0] == LowerChar(t[0]);
    assert "inf"[0] == 'i' && "infinity"[0] == 'i' && "nan"[0] == 'n';
  }

  lemma UnsignedNone(t: string)
    requires Lower(t) != "inf" && Lower(t) != "infinity" && Lower(t) != "nan"
    requires ParseDecimal(t) == None
    ensures ParseUnsigned(t) == None
  {
  }

  /**
   * `float("1\x1c")` is a `ValueError`, and so is any digit followed by one
   * of the separators U+001C to U+001F: they count as whitespace for
   * `str.strip()` but not for `float()`.
   */
  lemma SeparatorIsNotStripped(d: char, sep: char)
    requires IsDigit(d) && '\U{1C}' <= sep <= '\U{1F}'
    ensures IsSpace(sep) && ParseFloat([d, sep]) == None
  {
    var t := [d, sep];
    SeparatorKept(t);
    SeparatorLiteral(t);
    StrippedLiteral(t);
  }

  lemma SeparatorKept(t: string)
    requires |t| == 2 && IsDigit(t[0]) && '\U{1C}' <= t[1] <= '\U{1F}'
    ensures FloatStrip(t) == t
  {
    assert !IsFloatSpace(t[0]) && !IsFloatSpace(t[1]);
    assert FloatTrimStart(t) == t;
    assert FloatTrimEnd(t) == t;
  }

  lemma SeparatorLiteral(t: string)
    requires |t| == 2 && IsDigit(t[0]) && '\U{1C}' <= t[1] <= '\U{1F}'
    ensures '_' !in t && ParseLiteral(t) == None
  {
    assert forall k :: 0 <= k < |t| ==> t[k] != '_' && t[k] !in {'e', 'E'} && t[k] !in {'.'};
    assert !IsDigit(t[1]);
    NotADecimal(t);
    NotAWordChar(t);
    UnsignedNone(t);
  }

  /** `float(str(n))` is the integer `n` itself. */
  lemma IntStringIsAFloat(n: int)
    ensures ParseFloat(IntToString(n)) == Some(Finite(n as real))
  {
    var s := IntToString(n);
    var k: nat := if n < 0 then -n else n;
    var ds := NatToString(k);
    assert s == if n < 0 then "-" + ds else ds;
    assert Trimmed(s) by {
      assert !IsSpace(ds[|ds| - 1]);
      assert !IsSpace(s[0]);
      assert s[|s| - 1] == ds[|ds| - 1];
    }
    assert '_' !in s by {
      assert forall i :: 0 <= i < |ds| ==> IsDigit(ds[i]);
    }
    PlainLiteral(s);
    assert DigitsValue(ds) == k;
    if n < 0 {
      NegatedDigitsLiteral(ds);
      assert -(k as real) == n as real;
    } else {
      DigitsLiteral(ds);
    }
  }

  /** A token without surrounding whitespace or underscores is parsed as it stands. */
  lemma PlainLiteral(t: string)
    requires Trimmed(t) && '_' !in t
    ensures ParseFloat(t) == ParseLiteral(t)
  {
    assert FloatStrip(t) == t;
    NoUnderscoreIsValid(t);
    assert RemoveUnderscores(t) == t;
  }

  /** A run of digits is the literal of that integer. */
  lemma DigitsLiteral(ds: string)
    requires |ds| > 0 && AllDigits(ds)
    ensures ParseLiteral(ds) == Some(Finite(DigitsValue(ds) as real))
  {
    UnsignedOfDigits(ds);
    assert IsDigit(ds[0]);
    UnsignedLiteral(ds);
  }

  /** A minus sign before a run of digits negates the integer. */
  lemma NegatedDigitsLiteral(ds: string)
    requires |ds| > 0 && AllDigits(ds)
    ensures ParseLiteral("-" + ds) == Some(Finite(-(DigitsValue(ds) as real)))
  {
    UnsignedOfDigits(ds);
    NegatedLiteral(ds, DigitsValue(ds) as real);
  }

  /** A minus sign before an unsigned decimal literal negates its value. */
  lemma NegatedLiteral(body: string, v: real)
    requires ParseUnsigned(body) == Some(Finite(v))
    ensures ParseLiteral("-" + body) == Some(Finite(-v))
  {
    var t := "-" + body;
    assert t[0] == '-' && t[1..] == body;
    assert Negate(Finite(v)) == Finite(-v);
  }

  /** A run of digits, unsigned, is the decimal of that integer. */
  lemma UnsignedOfDigits(ds: string)
    requires |ds| > 0 && AllDigits(ds)
    ensures ParseUnsigned(ds) == Some(Finite(DigitsValue(ds) as real))
  {
    NotAWord(ds);
    DecimalOfDigits(ds);
    UnsignedDecimal(ds, DigitsValue(ds) as real);
  }

  /** A body that is not one of the words is read as a decimal. */
  lemma UnsignedDecimal(body: string, v: real)
    requires Lower(body) != "inf" && Lower(body) != "infinity" && Lower(body) != "nan"
    requires ParseDecimal(body) == Some(v)
    ensures ParseUnsigned(body) == Some(Finite(v))
  {
  }

  /** A literal that does not start with a sign is read unsigned. */
  lemma UnsignedLiteral(t: string)
    requires |t| > 0 && t[0] != '+' && t[0] != '-'
    ensures ParseLiteral(t) == ParseUnsigned(t)
  {
  }

  /** A text starting with a digit or a point is none of the words "inf", "infinity" and "nan". */
  lemma NotAWord(s: string)
    requires |s| > 0 && (IsDigit(s[0]) || s[0] == '.')
    ensures Lower(s) != "inf" && Lower(s) != "infinity" && Lower(s) != "nan"
  {
    assert Lower(s)[0] == s[0];
    assert "inf"[0] == 'i' && "infinity"[0] == 'i' && "nan"[0] == 'n';
  }

  /** A plain run of digits is a decimal literal with that value. */
  lemma DecimalOfDigits(ds: string)
    requires |ds| > 0 && AllDigits(ds)
    ensures ParseDecimal(ds) == Some(DigitsValue(ds) as real)
  {
    var e := IndexOfAny(ds, {'e', 'E'});
    assert forall k :: 0 <= k < |ds| ==> ds[k] !in {'e', 'E'} by {
      assert forall k :: 0 <= k < |ds| ==> IsDigit(ds[k]);
    }
    assert e == |ds|;
    assert ds[..e] == ds;
    var dot := IndexOfAny(ds, {'.'});
    assert forall k :: 0 <= k < |ds| ==> ds[k] !in {'.'} by {
      assert forall k :: 0 <= k < |ds| ==> IsDigit(ds[k]);
    }
    assert dot == |ds|;
    assert ds[..dot] == ds;
    assert ds + "" == ds;
  }

  /** A text whose characters all avoid `cs` has no occurrence of them. */
  lemma IndexOfAbsent(s: string, cs: set<char>)
    requires forall k :: 0 <= k < |s| ==> s[k] !in cs
    ensures IndexOfAny(s, cs) == |s|
  {
  }

  /** A literal `"<ip>.<fp>"` of digits is the integer of all its digits over `10^|fp|`. */
  lemma DecimalOfPoint(ip: string, fp: string)
    requires AllDigits(ip) && AllDigits(fp) && |ip| + |fp| > 0
    ensures ParseDecimal(ip + "." + fp) == Some(Scale(DigitsValue(ip + fp), -|fp|))
  {
    var s := ip + "." + fp;
    PointChars(ip, fp);
    IndexOfAbsent(s, {'e', 'E'});
    assert s[..|s|] == s;
    PointIndex(ip, fp);
    PointParts(ip, fp);
  }

  /** The first `'.'` of `"<ip>.<fp>"` is the one after `ip`. */
  lemma PointIndex(ip: string, fp: string)
    requires AllDigits(ip)
    ensures IndexOfAny(ip + "." + fp, {'.'}) == |ip|
  {
    var s := ip + "." + fp;
    assert s[|ip|] == '.';
    assert forall k :: 0 <= k < |ip| ==> s[k] == ip[k];
  }

  /** The two sides of the point of `"<ip>.<fp>"`. */
  lemma PointParts(ip: string, fp: string)
    ensures var s := ip + "." + fp;
      s[..|ip|] == ip && s[|ip| + 1..] == fp
  {
  }

  /** The characters of `"<ip>.<fp>"` are its digits and the point. */
  lemma PointChars(ip: string, fp: string)
    requires AllDigits(ip) && AllDigits(fp)
    ensures var s := ip + "." + fp;
      && s[|ip|] == '.'
      && (forall k :: 0 <= k < |s| ==> s[k] == '.' || IsDigit(s[k]))
      && AllDigits(ip + fp)
  {
    var s := ip + "." + fp;
    forall k | 0 <= k < |s| ensures s[k] == '.' || IsDigit(s[k]) {
      if k < |ip| { assert s[k] == ip[k]; }
      else if k > |ip| { assert s[k] == fp[k - |ip| - 1]; }
    }
    assert forall k :: 0 <= k < |ip| + |fp| ==> (ip + fp)[k] == if k < |ip| then ip[k] else fp[k - |ip|];
  }

  /** `float("<ip>.<fp>")` for digit strings with at least one digit in all. */
  lemma PointLiteral(ip: string, fp: string)
    requires AllDigits(ip) && AllDigits(fp) && |ip| + |fp| > 0
    ensures ParseFloat(ip + "." + fp) == Some(Finite(Scale(DigitsValue(ip + fp), -|fp|)))
  {
    var s := ip + "." + fp;
    PointChars(ip, fp);
    PlainLiteral(s);
    NotAWord(s);
    DecimalOfPoint(ip, fp);
    UnsignedDecimal(s, Scale(DigitsValue(ip + fp), -|fp|));
    UnsignedLiteral(s);
  }

  // ---------------------------------------------------------------------------
  // int(x) for a float

  /**
   * Python's `int(x)` on a float: truncation toward zero; an infinity raises
   * `OverflowError` and NaN raises `ValueError` (both `None` here).
   */
  function Trunc(f: Float): (r: Option<int>)
    ensures r.Some? <==> f.Finite?
    ensures r.Some? && f.value >= 0.0 ==> r.value >= 0 && r.value as real <= f.value < r.value as real + 1.0
    ensures r.Some? && f.value < 0.0 ==> r.value <= 0 && r.value as real - 1.0 < f.value <= r.value as real
  {
    match f
    case Finite(v) => Some(if v >= 0.0 then v.Floor else -((-v).Floor))
    case _ => None
  }

  /** Truncating an integral float gives the integer back. */
  lemma TruncOfInt(n: int)
    ensures Trunc(Finite(n as real)) == Some(n)
  {
  }
}
