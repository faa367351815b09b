/**
 * The Python 2 values the handler reads out of the decoded request, and the
 * two Python operations it applies to them: `==` (inside `not in [...]`)
 * and the built-in `int()`.
 */
module PyValues {
  import opened Wrappers

  /** A JSON-decoded property value. */
  datatype Value =
    | Null            // None
    | Bool(b: bool)   // True / False
    | Int(i: int)     // int or long
    | Real(r: real)   // float
    | Str(s: string)  // str or unicode
    | Compound        // a list or a dict

  // ---------------------------------------------------------------------
  // Python equality
  // ---------------------------------------------------------------------

  /** The numeric value of a number; bool is a subclass of int, so False is 0. */
  function Numeric(v: Value): Option<real>
  {
    match v
    case Bool(b) => Some(if b then 1.0 else 0.0)
    case Int(i) => Some(i as real)
    case Real(r) => Some(r)
    case _ => None
  }

  /**
   * Python's `a == b` for the values a flag is compared with: numbers and
   * booleans compare by numeric value, strings by content, None only with
   * None. A list or dict is never equal to a scalar.
   */
  predicate PyEq(a: Value, b: Value)
  {
    match (a, b)
    case (Null, Null) => true
    case (Str(x), Str(y)) => x == y
    case _ => Numeric(a).Some? && Numeric(a) == Numeric(b)
  }

  /** The value of an optional flag; a missing key reads as False. */
  function FlagValue(flag: Option<Value>): Value
  {
    if flag.Some? then flag.value else Bool(false)
  }

  /** `v not in [False, 'false', 'False']`, which tests each element with `==`. */
  predicate NotInFalseList(v: Value)
  {
    !PyEq(v, Bool(false)) && !PyEq(v, Str("false")) && !PyEq(v, Str("False"))
  }

  /** Whether an optional flag switches its feature on. */
  predicate CountsTrue(flag: Option<Value>)
  {
    NotInFalseList(FlagValue(flag))
  }

  /**
   * A flag counts as true exactly when it is present and is none of the five
   * values Python finds equal to an element of [False, 'false', 'False'].
   * In particular None, "0", "no" and "FALSE" all count as true.
   */
  lemma CountsTrueExactly(flag: Option<Value>)
    ensures CountsTrue(flag) <==>
              flag.Some? && flag.value !in {Bool(false), Int(0), Real(0.0), Str("false"), Str("False")}
  {
    if flag.Some? {
      match flag.value
      case Real(r) =>
        assert PyEq(Real(r), Bool(false)) <==> r == 0.0;
      case Int(i) =>
        assert PyEq(Int(i), Bool(false)) <==> i == 0;
      case _ =>
    }
  }

  /** A missing flag behaves exactly as an explicit False. */
  lemma AbsentFlagIsFalse()
    ensures !CountsTrue(None)
    ensures CountsTrue(None) == CountsTrue(Some(Bool(false)))
  {
  }

  // ---------------------------------------------------------------------
  // int()
  // ---------------------------------------------------------------------

  /** The white space `int()` skips in a byte string: space, \t, \n, \v, \f, \r.
      For unicode strings `int()` also skips \x1c-\x1f and non-ASCII spaces,
      which this predicate leaves out. */
  predicate IsSpace(c: char)
  {
    c == ' ' || '\t' <= c <= '\r'
  }

  predicate IsDigit(c: char)
  {
    '0' <= c <= '9'
  }

  predicate AllDigits(s: string)
  {
    forall i :: 0 <= i < |s| ==> IsDigit(s[i])
  }

  predicate AllSpaces(s: string)
  {
    forall i :: 0 <= i < |s| ==> IsSpace(s[i])
  }

  /** `s.lstrip()`: the suffix of `s` after its leading white space. */
  function TrimStart(s: string): (r: string)
    ensures |r| <= |s| && r == s[|s| - |r|..] && AllSpaces(s[..|s| - |r|])
    ensures r != [] ==> !IsSpace(r[0])
  {
    if s != [] && IsSpace(s[0]) then
      var r := TrimStart(s[1..]);
      assert AllSpaces(s[..|s| - |r|]) by {
        forall i | 1 <= i < |s| - |r| ensures IsSpace(s[i]) {
          assert s[i] == s[1..][..|s| - 1 - |r|][i - 1];
        }
      }
      r
    else
      assert s == s[0..];
      s
  }

  /** `s.rstrip()`: the prefix of `s` before its trailing white space. */
  function TrimEnd(s: string): (r: string)
    ensures |r| <= |s| && r == s[..|r|] && AllSpaces(s[|r|..])
    ensures r != [] ==> !IsSpace(r[|r| - 1])
  {
    if s != [] && IsSpace(s[|s| - 1]) then
      var r := TrimEnd(s[..|s| - 1]);
      assert AllSpaces(s[|r|..]) by {
        forall i | |r| <= i < |s| - 1 ensures IsSpace(s[i]) {
          assert s[i] == s[..|s| - 1][|r|..][i - |r|];
        }
      }
      r
    else
      assert s == s[..|s|];
      s
  }

  /** `s.strip()`, which `int()` applies to a string before parsing it. */
  function Strip(s: string): string
  {
    TrimEnd(TrimStart(s))
  }

  /** The number written by a string of decimal digits. */
  function DigitsValue(s: string): nat
    requires AllDigits(s)
  {
    if s == [] then 0
    else
      10 * DigitsValue(s[..|s| - 1]) + (s[|s| - 1] as int - '0' as int)
  }

  /**
   * `int(s)` for a string in base 10: white space around the number, an
   * optional sign, white space again after the sign (`int('- 12') == -12`),
   * and at least one decimal digit. None stands for the ValueError raised
   * for anything else (a fraction, an exponent, a letter, the empty string).
   */
  function ParseIntLiteral(s: string): Option<int>
  {
    ParseStripped(Strip(s))
  }

  /**
   * The parse of a string once its surrounding white space is gone; the
   * digits after a sign may be preceded by white space again.
   */
  function ParseStripped(t: string): Option<int>
  {
    if t != [] && (t[0] == '+' || t[0] == '-') then
      var digits := TrimStart(t[1..]);
      if digits != [] && AllDigits(digits) then
        var magnitude: int := DigitsValue(digits);
        Some(if t[0] == '-' then -magnitude else magnitude)
      else
        None
    else if t != [] && AllDigits(t) then
      Some(DigitsValue(t))
    else
      None
  }

  /** `int(f)` for a float: truncation toward zero. */
  function Truncate(r: real): (n: int)
    ensures r >= 0.0 ==> 0 <= n && n as real <= r < n as real + 1.0
    ensures r < 0.0 ==> n <= 0 && n as real - 1.0 < r <= n as real
  {
    if r >= 0.0 then r.Floor else -((-r).Floor)
  }

  /**
   * Python's `int(v)`. None stands for the exception (ValueError or
   * TypeError) raised for a value that is not an integer.
   */
  function ToInt(v: Value): Option<int>
  {
    match v
    case Bool(b) => Some(if b then 1 else 0)
    case Int(i) => Some(i)
    case Real(r) => Some(Truncate(r))
    case Str(s) => ParseIntLiteral(s)
    case Null => None
    case Compound => None
  }

  // ---------------------------------------------------------------------
  // A reference printer for decimal numbers, and its round trip with int()
  // ---------------------------------------------------------------------

  function DigitChar(d: nat): (c: char)
    requires d < 10
    ensures IsDigit(c) && c as int - '0' as int == d
  {
    ('0' as int + d) as char
  }

  /** `str(n)` for a natural number: its shortest decimal form. */
  function ShowNat(n: nat): (s: string)
    ensures s != [] && AllDigits(s)
  {
    if n < 10 then [DigitChar(n)] else ShowNat(n / 10) + [DigitChar(n % 10)]
  }

  /** `str(n)` for an integer. */
  function ShowInt(n: int): string
  {
    if n < 0 then "-" + ShowNat(-n) else ShowNat(n)
  }

  lemma {:induction false} DigitsValueShowNat(n: nat)
    ensures DigitsValue(ShowNat(n)) == n
  {
    if n >= 10 {
      var s := ShowNat(n);
      assert s[..|s| - 1] == ShowNat(n / 10);
      DigitsValueShowNat(n / 10);
    }
  }

  /** Stripping changes nothing when both ends are non-white. */
  lemma StripUnpadded(s: string)
    requires s != [] && !IsSpace(s[0]) && !IsSpace(s[|s| - 1])
    ensures TrimStart(s) == s && TrimEnd(s) == s && Strip(s) == s
  {
  }

  /** `int(str(n)) == n` for every integer n. */
  lemma ParseShowInt(n: int)
    ensures ParseIntLiteral(ShowInt(n)) == Some(n)
    ensures ToInt(Str(ShowInt(n))) == Some(n)
  {
    var s := ShowInt(n);
    if n < 0 {
      var digits := ShowNat(-n);
      assert s == ['-'] + digits;
      assert s[|s| - 1] == digits[|digits| - 1];
      StripUnpadded(s);
      assert s[1..] == digits;
      StripUnpadded(digits);
      DigitsValueShowNat(-n);
      assert ParseStripped(s) == Some(n);
    } else {
      StripUnpadded(s);
      DigitsValueShowNat(n);
      assert ParseStripped(s) == Some(n);
    }
  }

  /** Leading and trailing white space is ignored: `int(' 12\n') == 12`. */
  lemma ParsePadded(pre: string, n: int, post: string)
    requires AllSpaces(pre) && AllSpaces(post)
    ensures ParseIntLiteral(pre + ShowInt(n) + post) == Some(n)
  {
    var s := ShowInt(n);
    var x := pre + s + post;
    assert x == pre + (s + post);
    StripUnpadded(s);
    TrimStartSpaces(pre, s + post);
    TrimEndSpaces(s, post);
    assert Strip(x) == s;
    ParseShowInt(n);
  }

  /** White space between the sign and the digits is skipped: `int('- 12') == -12`. */
  lemma ParseSpaceAfterSign(sign: char, gap: string, n: nat)
    requires sign == '-' || sign == '+'
    requires AllSpaces(gap)
    ensures ParseIntLiteral([sign] + gap + ShowNat(n)) == Some(if sign == '-' then -(n as int) else n)
  {
    var digits := ShowNat(n);
    var t := [sign] + gap + digits;
    SignedUnpadded(sign, gap, digits);
    assert TrimStart(t[1..]) == digits by {
      DigitsUnpadded(digits);
      assert t[1..] == gap + digits;
      TrimStartSpaces(gap, digits);
    }
    assert DigitsValue(digits) == n by {
      DigitsValueShowNat(n);
    }
    assert t[0] == sign;
    ParseSigned(t, digits, n);
    ParseIntLiteralOfStripped(t);
  }

  lemma ParseIntLiteralOfStripped(t: string)
    requires Strip(t) == t
    ensures ParseIntLiteral(t) == ParseStripped(t)
  {
  }

  /** For instance `int('- 12') == -12`. */
  lemma ParseMinusSpaceTwelve()
    ensures ToInt(Str("- 12")) == Some(-12)
  {
    assert ShowNat(12) == "12";
    assert "- 12" == ['-'] + " " + ShowNat(12);
    ParseSpaceAfterSign('-', " ", 12);
  }

  lemma SignedUnpadded(sign: char, gap: string, digits: string)
    requires !IsSpace(sign) && digits != [] && AllDigits(digits)
    ensures Strip([sign] + gap + digits) == [sign] + gap + digits
  {
    var t := [sign] + gap + digits;
    assert t[|t| - 1] == digits[|digits| - 1];
    assert IsDigit(digits[|digits| - 1]);
    StripUnpadded(t);
  }

  lemma DigitsUnpadded(digits: string)
    requires digits != [] && AllDigits(digits)
    ensures TrimStart(digits) == digits
  {
    assert IsDigit(digits[0]);
  }

  lemma ParseSigned(t: string, digits: string, n: nat)
    requires t != [] && (t[0] == '-' || t[0] == '+')
    requires TrimStart(t[1..]) == digits && digits != [] && AllDigits(digits) && DigitsValue(digits) == n
    ensures ParseStripped(t) == Some(if t[0] == '-' then -(n as int) else n)
  {
  }

  lemma {:induction false} TrimStartSpaces(pre: string, s: string)
    requires AllSpaces(pre) && s != [] && !IsSpace(s[0])
    ensures TrimStart(pre + s) == s
  {
    if pre != [] {
      assert (pre + s)[1..] == pre[1..] + s;
      TrimStartSpaces(pre[1..], s);
    }
  }

  lemma {:induction false} TrimEndSpaces(s: string, post: string)
    requires AllSpaces(post) && s != [] && !IsSpace(s[|s| - 1])
    ensures TrimEnd(s + post) == TrimEnd(s)
  {
    if post != [] {
      var p := post[..|post| - 1];
      assert (s + post)[..|s + post| - 1] == s + p;
      TrimEndSpaces(s, p);
    } else {
      assert s + post == s;
    }
  }

  /**
   * A string holding any character that is neither white space, a sign
   * nor a digit is not an integer: `int('12.5')` and `int('twelve')` raise.
   */
  lemma RejectsNonNumeric(s: string, k: nat)
    requires k < |s| && !IsSpace(s[k]) && !IsDigit(s[k]) && s[k] != '+' && s[k] != '-'
    ensures ParseIntLiteral(s) == None
    ensures ToInt(Str(s)) == None
  {
    var j := StripKeeps(s, k);
    StrippedRejects(Strip(s), j);
  }

  /** A non-white character survives stripping. */
  lemma StripKeeps(s: string, k: nat) returns (j: nat)
    requires k < |s| && !IsSpace(s[k])
    ensures j < |Strip(s)| && Strip(s)[j] == s[k]
  {
    var u := TrimStart(s);
    var a := |s| - |u|;
    assert u[k - a] == s[k];
    j := k - a;
  }

  lemma StrippedRejects(t: string, j: nat)
    requires j < |t| && !IsSpace(t[j]) && !IsDigit(t[j]) && t[j] != '+' && t[j] != '-'
    ensures ParseStripped(t) == None
  {
    if t[0] == '+' || t[0] == '-' {
      var x := t[1..];
      assert x[j - 1] == t[j];
      var digits := TrimStart(x);
      assert digits[j - 1 - (|x| - |digits|)] == t[j];
    }
  }
}
