/** Python's `int(x)` on the values a request can carry: an `int` is kept,
    a `bool` becomes 0 or 1, a `str` is parsed as a base-10 literal, and
    `None`, a list or a dict raises (here: `None`).  Floats, bytes and
    objects with `__int__`, which Python converts, are opaque `Other`
    values here and are rejected too. */
module PyInt {
  import opened PyValues

  predicate IsDigit(c: char) {
    '0' <= c <= '9'
  }

  predicate AllDigits(s: string) {
    forall i :: 0 <= i < |s| ==> IsDigit(s[i])
  }

  /** The number a run of ASCII decimal digits denotes. */
  function DigitsValue(s: string): nat
    requires AllDigits(s)
  {
    if s == [] then 0
    else 10 * DigitsValue(s[..|s| - 1]) + (s[|s| - 1] as int - '0' as int)
  }

  /** What `int()` accepts between the sign and the trailing whitespace:
      digits, with single underscores allowed between two digits. */
  predicate WellFormedDigits(s: string) {
    && s != []
    && (forall i :: 0 <= i < |s| ==> IsDigit(s[i]) || s[i] == '_')
    && (forall i :: 0 <= i < |s| && s[i] == '_' ==>
          0 < i < |s| - 1 && IsDigit(s[i - 1]) && IsDigit(s[i + 1]))
  }

  function RemoveUnderscores(s: string): (r: string)
    ensures (forall i :: 0 <= i < |s| ==> IsDigit(s[i]) || s[i] == '_') ==> AllDigits(r)
  {
    if s == [] then []
    else (if s[0] == '_' then [] else [s[0]]) + RemoveUnderscores(s[1..])
  }

  /** The whitespace `int()` skips around a number: `\t \n \v \f \r`, the
      space, and every non-ASCII character `str.isspace()` accepts (CPython
      turns those into a space first).  The ASCII separators U+001C-U+001F,
      which `str.strip()` removes, are not skipped. */
  predicate IsIntSpace(c: char) {
    IsSpace(c) && !('\U{1C}' <= c <= '\U{1F}')
  }

  predicate AllIntSpace(s: string) {
    forall i :: 0 <= i < |s| ==> IsIntSpace(s[i])
  }

  /** `int(s)` for a string `s`: surrounding whitespace is skipped, then an
      optional sign, then well-formed digits.  A bare run of digits is read
      as the number it denotes. */
  function ParseInt(s: string): (r: Option<int>)
    ensures s != [] && AllDigits(s) ==> r == Some(DigitsValue(s))
  {
    PlainDigits(s);
    ParseSigned(StripBy(s, IsIntSpace))
  }

  /** What `int()` reads once the whitespace is gone: an optional sign, then
      well-formed digits. */
  function ParseSigned(t: string): Option<int> {
    var signed := t != [] && (t[0] == '-' || t[0] == '+');
    var body := if signed then t[1..] else t;
    if WellFormedDigits(body) then
      var n: int := DigitsValue(RemoveUnderscores(body));
      Some(if signed && t[0] == '-' then -n else n)
    else None
  }

  /** A bare run of digits has nothing to strip, no sign and no underscore. */
  lemma PlainDigits(s: string)
    ensures s != [] && AllDigits(s) ==>
      StripBy(s, IsIntSpace) == s && WellFormedDigits(s) && RemoveUnderscores(s) == s
  {
    if s != [] && AllDigits(s) {
      assert IsDigit(s[0]) && IsDigit(s[|s| - 1]);
      StripByNoEdge(s, IsIntSpace);
      RemoveUnderscoresNone(s);
    }
  }

  /** `int(v)`; `None` stands for the `TypeError` or `ValueError` it raises. */
  function ToInt(v: Value): (r: Option<int>)
    ensures v.Int? ==> r == Some(v.i)
    ensures v.Bool? ==> r == Some(if v.b then 1 else 0)
    ensures r.Some? ==> v.Int? || v.Bool? || v.Str?
  {
    match v
    case Int(i) => Some(i)
    case Bool(b) => Some(if b then 1 else 0)
    case Str(s) => ParseInt(s)
    case _ => None
  }

  /** `str(n)` for a natural number. */
  function FormatNat(n: nat): (s: string)
    ensures s != [] && AllDigits(s)
    decreases n
  {
    var d := ['0' + (n % 10) as char];
    if n < 10 then d else FormatNat(n / 10) + d
  }

  /** `str(n)`: a minus sign for negative numbers, then the digits. */
  function FormatInt(n: int): string {
    if n < 0 then "-" + FormatNat(-n) else FormatNat(n)
  }

  lemma {:induction false} DigitsValueOfFormat(n: nat)
    ensures DigitsValue(FormatNat(n)) == n
    decreases n
  {
    if n >= 10 {
      var s := FormatNat(n);
      DigitsValueOfFormat(n / 10);
      assert s[..|s| - 1] == FormatNat(n / 10);
    }
  }

  lemma {:induction false} RemoveUnderscoresNone(s: string)
    requires AllDigits(s)
    ensures RemoveUnderscores(s) == s
  {
    if s != [] {
      RemoveUnderscoresNone(s[1..]);
      assert s == [s[0]] + s[1..];
    }
  }

  /** `str(n)` starts with a minus sign or a digit and ends with a digit. */
  lemma FormatIntShape(n: int)
    ensures var t := FormatInt(n);
      t != [] && !IsIntSpace(t[0]) && !IsIntSpace(t[|t| - 1])
    ensures n < 0 ==> FormatInt(n)[0] == '-' && FormatInt(n)[1..] == FormatNat(-n)
    ensures n >= 0 ==> FormatInt(n) == FormatNat(n) && IsDigit(FormatInt(n)[0])
  {
    var m: nat := if n < 0 then -n else n;
    var digits := FormatNat(m);
    var t := FormatInt(n);
    assert t[|t| - 1] == digits[|digits| - 1];
    if n < 0 {
      assert t[1..] == digits;
    }
  }

  /** Reading a digit string with no underscores gives its value. */
  lemma ParseDigits(n: nat)
    ensures WellFormedDigits(FormatNat(n))
    ensures DigitsValue(RemoveUnderscores(FormatNat(n))) == n
  {
    RemoveUnderscoresNone(FormatNat(n));
    DigitsValueOfFormat(n);
  }

  /** What `str()` writes, `int()` reads back: the round trip a query string
      parameter makes. */
  lemma ParseFormatRoundTrip(n: int)
    ensures ParseInt(FormatInt(n)) == Some(n)
  {
    FormatIntShape(n);
    StripByNoEdge(FormatInt(n), IsIntSpace);
    ParseDigits(if n < 0 then -n else n);
  }

  /** Whitespace that `int()` skips may surround the text of a number
      without changing what it reads. */
  lemma ParseIntIgnoresPadding(w1: string, x: string, w2: string)
    requires AllIntSpace(w1) && AllIntSpace(w2)
    requires x != [] && !IsIntSpace(x[0]) && !IsIntSpace(x[|x| - 1])
    ensures ParseInt(w1 + x + w2) == ParseInt(x)
  {
    StripByPadding(w1, x, w2, IsIntSpace);
    StripByNoEdge(x, IsIntSpace);
  }

  /** `int(w1 + str(n) + w2) == n` for any such whitespace `w1`, `w2`. */
  lemma ParseIntAroundSpace(w1: string, n: int, w2: string)
    requires AllIntSpace(w1) && AllIntSpace(w2)
    ensures ParseInt(w1 + FormatInt(n) + w2) == Some(n)
  {
    FormatIntShape(n);
    ParseIntIgnoresPadding(w1, FormatInt(n), w2);
    ParseFormatRoundTrip(n);
  }

  /** A string with no whitespace at either end reaches the sign and digit
      reading unchanged. */
  lemma ParseIntTrimmed(t: string)
    requires t != [] && !IsIntSpace(t[0]) && !IsIntSpace(t[|t| - 1])
    ensures ParseInt(t) == ParseSigned(t)
  {
    StripByNoEdge(t, IsIntSpace);
  }

  lemma SignedDigits(sign: char, d: string)
    requires sign == '-' || sign == '+'
    requires d != [] && AllDigits(d)
    ensures ParseSigned([sign] + d) == Some(if sign == '-' then -(DigitsValue(d) as int) else DigitsValue(d))
  {
    assert ([sign] + d)[1..] == d;
    PlainDigits(d);
  }

  /** A leading `-` negates the digits after it; a leading `+` keeps them. */
  lemma ParseIntSign(sign: char, d: string)
    requires sign == '-' || sign == '+'
    requires d != [] && AllDigits(d)
    ensures ParseInt([sign] + d) == Some(if sign == '-' then -(DigitsValue(d) as int) else DigitsValue(d))
  {
    var t := [sign] + d;
    assert t[|t| - 1] == d[|d| - 1];
    ParseIntTrimmed(t);
    SignedDigits(sign, d);
  }

  lemma {:induction false} RemoveUnderscoresAppend(x: string, y: string)
    ensures RemoveUnderscores(x + y) == RemoveUnderscores(x) + RemoveUnderscores(y)
  {
    if x != [] {
      assert (x + y)[1..] == x[1..] + y;
      RemoveUnderscoresAppend(x[1..], y);
    } else {
      assert x + y == y;
    }
  }

  lemma UnderscoreWellFormed(a: string, b: string)
    requires a != [] && AllDigits(a) && b != [] && AllDigits(b)
    ensures WellFormedDigits(a + "_" + b)
  {
    var s := a + "_" + b;
    forall i | 0 <= i < |s| && s[i] == '_'
      ensures 0 < i < |s| - 1 && IsDigit(s[i - 1]) && IsDigit(s[i + 1])
    {
      assert i == |a|;
    }
  }

  lemma UnderscoreRemoved(a: string, b: string)
    requires AllDigits(a) && AllDigits(b)
    ensures RemoveUnderscores(a + "_" + b) == a + b
  {
    var u := "_" + b;
    assert a + "_" + b == a + u;
    assert RemoveUnderscores(u) == RemoveUnderscores(b) by {
      assert u[0] == '_' && u[1..] == b;
    }
    RemoveUnderscoresAppend(a, u);
    RemoveUnderscoresNone(a);
    RemoveUnderscoresNone(b);
  }

  lemma UnderscoreDigits(a: string, b: string)
    requires a != [] && AllDigits(a) && b != [] && AllDigits(b)
    ensures ParseSigned(a + "_" + b) == Some(DigitsValue(a + b) as int)
  {
    assert (a + "_" + b)[0] == a[0];
    UnderscoreWellFormed(a, b);
    UnderscoreRemoved(a, b);
  }

  /** A single underscore between two digits is ignored. */
  lemma ParseIntUnderscore(a: string, b: string)
    requires a != [] && AllDigits(a) && b != [] && AllDigits(b)
    ensures ParseInt(a + "_" + b) == ParseInt(a + b)
  {
    var s := a + "_" + b;
    assert s[0] == a[0] && s[|s| - 1] == b[|b| - 1];
    ParseIntTrimmed(s);
    UnderscoreDigits(a, b);
    assert AllDigits(a + b);
  }

  /** An underscore at either end, or two in a row, make the string no number. */
  lemma ParseIntRejectsMisplacedUnderscore(a: string, b: string)
    requires a != [] && AllDigits(a) && b != [] && AllDigits(b)
    ensures ParseInt(a + "_") == None
    ensures ParseInt("_" + a) == None
    ensures ParseInt(a + "__" + b) == None
  {
    var trailing, leading, double := a + "_", "_" + a, a + "__" + b;
    assert trailing[0] == a[0] && leading[|leading| - 1] == a[|a| - 1];
    assert double[0] == a[0] && double[|double| - 1] == b[|b| - 1];
    StripByNoEdge(trailing, IsIntSpace);
    StripByNoEdge(leading, IsIntSpace);
    StripByNoEdge(double, IsIntSpace);
    assert trailing[|a|] == '_' && leading[0] == '_';
    assert double[|a|] == '_' && double[|a| + 1] == '_';
  }

  /** `int()` skips a leading tab and a trailing newline, ... */
  lemma ParseIntSkipsAsciiWhitespace()
    ensures ParseInt("\t5\n") == Some(5)
  {
    var s := "\t5\n";
    assert StripLeftBy(s, IsIntSpace) == "5\n" by {
      assert s[1..] == "5\n";
    }
    assert StripBy(s, IsIntSpace) == "5" by {
      assert "5\n"[..1] == "5";
    }
    assert WellFormedDigits("5");
    assert RemoveUnderscores("5") == "5" by {
      assert "5"[1..] == [];
    }
    assert DigitsValue("5") == 5 by {
      assert "5"[..0] == [];
    }
  }

  /** ... but not the separator U+001C, although `str.strip()` removes it. */
  lemma ParseIntKeepsSeparator()
    ensures ParseInt("\U{1C}5") == None
    ensures Strip("\U{1C}5") == "5"
  {
    var s := "\U{1C}5";
    assert StripBy(s, IsIntSpace) == s;
    assert !WellFormedDigits(s);
    assert s[1..] == "5";
  }

  /** An empty or all-whitespace string is not a number. */
  lemma ParseIntRejectsBlank(s: string)
    requires AllSpace(s)
    ensures ParseInt(s) == None
  {
    StripByKeeps(s, IsIntSpace);
    var t := StripBy(s, IsIntSpace);
    if t != [] {
      // the first character left is still whitespace, so neither a sign nor a digit
      assert t[0] in s;
    }
  }
}
