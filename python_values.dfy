/** The values a validator can be handed: the JSON-shaped subset of Python
    objects that reach the API (None, bool, int, str, list, dict), plus an
    opaque catch-all for every other object.  Also the pieces of Python's
    string and equality semantics the validators rely on. */
module PyValues {

  datatype Value =
    | Null
    | Bool(b: bool)
    | Int(i: int)
    | Str(s: string)
    | List(items: seq<Value>)
    | Dict(fields: map<string, Value>)
    | Other(id: nat)  // any other object (float, bytes, custom class), known by identity only; int() is not modelled on it

  /** Python's `str.isspace()` for one character, which is also what `\s`
      matches in a `str` regular expression and what `str.strip()` removes. */
  predicate IsSpace(c: char) {
    || ('\t' <= c <= '\r')              // \t \n \v \f \r
    || ('\U{1C}' <= c <= '\U{1F}')      // file, group, record, unit separators
    || c == ' '
    || c == '\U{85}'                    // next line
    || c == '\U{A0}'                    // no-break space
    || c == '\U{1680}'
    || ('\U{2000}' <= c <= '\U{200A}')
    || c == '\U{2028}' || c == '\U{2029}'
    || c == '\U{202F}' || c == '\U{205F}' || c == '\U{3000}'
  }

  predicate AllSpace(s: string) {
    forall i :: 0 <= i < |s| ==> IsSpace(s[i])
  }

  /** Removes leading characters that `ws` calls whitespace. */
  function StripLeftBy(s: string, ws: char -> bool): string {
    if s != [] && ws(s[0]) then StripLeftBy(s[1..], ws) else s
  }

  /** Removes trailing characters that `ws` calls whitespace. */
  function StripRightBy(s: string, ws: char -> bool): string {
    if s != [] && ws(s[|s| - 1]) then StripRightBy(s[..|s| - 1], ws) else s
  }

  function StripBy(s: string, ws: char -> bool): string {
    StripRightBy(StripLeftBy(s, ws), ws)
  }

  /** Python's `s.strip()` with no argument: what is left neither starts
      nor ends with whitespace, and holds only characters of `s`. */
  function Strip(s: string): (r: string)
    ensures r != [] ==> !IsSpace(r[0]) && !IsSpace(r[|r| - 1])
    ensures forall c :: c in r ==> c in s
  {
    StripLeftIsSuffix(s, IsSpace);
    StripRightIsPrefix(StripLeftBy(s, IsSpace), IsSpace);
    StripByKeeps(s, IsSpace);
    StripBy(s, IsSpace)
  }

  lemma {:induction false} StripLeftIsSuffix(s: string, ws: char -> bool)
    ensures var t := StripLeftBy(s, ws);
      |t| <= |s| && t == s[|s| - |t|..] && (forall i :: 0 <= i < |s| - |t| ==> ws(s[i]))
      && (t != [] ==> !ws(t[0]))
  {
    if s != [] && ws(s[0]) {
      StripLeftIsSuffix(s[1..], ws);
      var t := StripLeftBy(s[1..], ws);
      assert forall i :: 1 <= i < |s| - |t| ==> s[i] == s[1..][i - 1];
    }
  }

  lemma {:induction false} StripRightIsPrefix(s: string, ws: char -> bool)
    ensures var t := StripRightBy(s, ws);
      |t| <= |s| && t == s[..|t|] && (forall i :: |t| <= i < |s| ==> ws(s[i]))
      && (t != [] ==> !ws(t[|t| - 1]))
  {
    if s != [] && ws(s[|s| - 1]) {
      var u := s[..|s| - 1];
      StripRightIsPrefix(u, ws);
      var t := StripRightBy(u, ws);
      assert u[..|t|] == s[..|t|];
      assert forall i :: |t| <= i < |s| - 1 ==> s[i] == u[i];
    }
  }

  /** Stripping keeps only characters of the string. */
  lemma StripByKeeps(s: string, ws: char -> bool)
    ensures forall c :: c in StripBy(s, ws) ==> c in s
  {
    StripLeftIsSuffix(s, ws);
    var u := StripLeftBy(s, ws);
    StripRightIsPrefix(u, ws);
    var t := StripRightBy(u, ws);
    forall c | c in t ensures c in s {
      var i :| 0 <= i < |t| && t[i] == c;
      assert c == s[|s| - |u| + i];
    }
  }

  /** Stripping leaves nothing exactly when every character is whitespace:
      with `IsSpace` this is the "empty" test of the required-fields check. */
  lemma StripByEmptyIffAll(s: string, ws: char -> bool)
    ensures StripBy(s, ws) == [] <==> forall i :: 0 <= i < |s| ==> ws(s[i])
  {
    StripLeftIsSuffix(s, ws);
    var t := StripLeftBy(s, ws);
    StripRightIsPrefix(t, ws);
    if t != [] {
      // the first character kept is not whitespace
      assert t[0] == s[|s| - |t|];
    }
  }

  lemma StripEmptyIffAllSpace(s: string)
    ensures Strip(s) == [] <==> AllSpace(s)
  {
    StripByEmptyIffAll(s, IsSpace);
  }

  /** A string that neither starts nor ends with whitespace is left alone. */
  lemma StripByNoEdge(s: string, ws: char -> bool)
    requires s != [] ==> !ws(s[0]) && !ws(s[|s| - 1])
    ensures StripBy(s, ws) == s
  {
  }

  /** Leading whitespace in front of a string that does not start with
      whitespace is removed, and nothing more. */
  lemma {:induction false} StripLeftPadding(w: string, t: string, ws: char -> bool)
    requires forall i :: 0 <= i < |w| ==> ws(w[i])
    requires t != [] ==> !ws(t[0])
    ensures StripLeftBy(w + t, ws) == t
  {
    if w == [] {
      assert w + t == t;
    } else {
      assert (w + t)[1..] == w[1..] + t;
      StripLeftPadding(w[1..], t, ws);
    }
  }

  /** Trailing whitespace after a string that does not end with whitespace
      is removed, and nothing more. */
  lemma {:induction false} StripRightPadding(t: string, w: string, ws: char -> bool)
    requires forall i :: 0 <= i < |w| ==> ws(w[i])
    requires t != [] ==> !ws(t[|t| - 1])
    ensures StripRightBy(t + w, ws) == t
  {
    if w == [] {
      assert t + w == t;
    } else {
      var w' := w[..|w| - 1];
      assert (t + w)[..|t + w| - 1] == t + w';
      StripRightPadding(t, w', ws);
    }
  }

  /** Stripping a padded string gives back what was padded, when that
      neither starts nor ends with whitespace. */
  lemma StripByPadding(w1: string, t: string, w2: string, ws: char -> bool)
    requires forall i :: 0 <= i < |w1| ==> ws(w1[i])
    requires forall i :: 0 <= i < |w2| ==> ws(w2[i])
    requires t != [] && !ws(t[0]) && !ws(t[|t| - 1])
    ensures StripBy(w1 + t + w2, ws) == t
  {
    assert w1 + t + w2 == w1 + (t + w2);
    StripLeftPadding(w1, t + w2, ws);
    StripRightPadding(t, w2, ws);
  }

  /** The numbers of Python: `bool` is a subclass of `int`, so `True == 1`. */
  function AsNumber(v: Value): (n: Option<int>)
    ensures n.Some? <==> v.Int? || v.Bool?
  {
    match v
    case Int(i) => Some(i)
    case Bool(b) => Some(if b then 1 else 0)
    case _ => None
  }

  datatype Option<T> = None | Some(value: T)

  /** Python's `==` on these values: numbers compare by value across `bool`
      and `int`, lists element by element, dicts key by key, everything else
      by identity.  A number equals only a number of the same value, and
      `None` or a string equals only itself. */
  predicate PyEq(a: Value, b: Value)
    ensures PyEq(a, b) && AsNumber(a).Some? ==> AsNumber(b) == AsNumber(a)
    ensures PyEq(a, b) && (a.Null? || a.Str?) ==> b == a
    decreases a
  {
    if AsNumber(a).Some? && AsNumber(b).Some? then AsNumber(a) == AsNumber(b)
    else match a
      case List(xs) =>
        b.List? && |xs| == |b.items| &&
        forall i :: 0 <= i < |xs| ==> PyEq(xs[i], b.items[i])
      case Dict(m) =>
        b.Dict? && m.Keys == b.fields.Keys &&
        forall k :: k in m ==> PyEq(m[k], b.fields[k])
      case _ => a == b
  }

  /** Every value equals itself. */
  lemma {:induction false} PyEqReflexive(a: Value)
    ensures PyEq(a, a)
    decreases a
  {
    match a
    case List(xs) =>
      forall i | 0 <= i < |xs| ensures PyEq(xs[i], xs[i]) {
        PyEqReflexive(xs[i]);
      }
    case Dict(m) =>
      forall k | k in m ensures PyEq(m[k], m[k]) {
        PyEqReflexive(m[k]);
      }
    case _ =>
  }

  /** `a == b` and `b == a` agree. */
  lemma {:induction false} PyEqSymmetric(a: Value, b: Value)
    requires PyEq(a, b)
    ensures PyEq(b, a)
    decreases a
  {
    if AsNumber(a).Some? && AsNumber(b).Some? {
    } else {
      match a
      case List(xs) =>
        forall i | 0 <= i < |xs| ensures PyEq(b.items[i], xs[i]) {
          PyEqSymmetric(xs[i], b.items[i]);
        }
      case Dict(m) =>
        forall k | k in b.fields ensures PyEq(b.fields[k], m[k]) {
          PyEqSymmetric(m[k], b.fields[k]);
        }
      case _ =>
    }
  }

  /** `a == b` and `b == c` give `a == c`. */
  lemma {:induction false} PyEqTransitive(a: Value, b: Value, c: Value)
    requires PyEq(a, b) && PyEq(b, c)
    ensures PyEq(a, c)
    decreases a
  {
    if AsNumber(a).Some? || AsNumber(b).Some? || AsNumber(c).Some? {
      // a number equals numbers only, so all three are numbers
    } else {
      match a
      case List(xs) =>
        forall i | 0 <= i < |xs| ensures PyEq(xs[i], c.items[i]) {
          PyEqTransitive(xs[i], b.items[i], c.items[i]);
        }
      case Dict(m) =>
        forall k | k in m ensures PyEq(m[k], c.fields[k]) {
          PyEqTransitive(m[k], b.fields[k], c.fields[k]);
        }
      case _ =>
    }
  }
}
