/** The input validators of the API.  Each one either accepts its input or
    rejects it with one `ValidationError`; where a value can fail several
    checks, the error reported is that of the first check in a fixed order.
    A raised `ValidationError` is `Fail(e)` / `Err(e)` here, a normal return
    is `Pass` / `Ok(v)`. */
module Validation {
  import opened PyValues
  import opened Regex
  import opened PyInt
  import StringOrder

  /** Why a single field was rejected (the message text is not modelled). */
  datatype Reason =
    | NotAString
    | TooShort(minLength: int)
    | TooLong(maxLength: int)
    | WrongLength(length: int)
    | NotAlphanumeric(allowSpaces: bool)
    | NotAlphabetic(allowSpaces: bool)
    | NotUppercase
    | NotOneOf(allowed: seq<Value>)
    | NotAnInteger
    | BelowMinimum(minValue: int)
    | AboveMaximum(maxValue: int)
    | NotIsoCode
    | NotStateCode

  datatype ValidationError =
    | NotAnObject                          // the request body is not a dict
    | MissingFields(fields: seq<string>)   // in the order they were required
    | EmptyFields(fields: seq<string>)     // in the order they were required
    | UnexpectedFields(fields: seq<string>) // sorted
    | Invalid(field: string, reason: Reason)

  datatype Outcome = Pass | Fail(error: ValidationError)

  datatype Result<T> = Ok(value: T) | Err(error: ValidationError)

  // ---------------------------------------------------------------------
  // validate_required_fields

  /** The elements of `s` that `keep` selects, in their order in `s`. */
  function Filter(s: seq<string>, keep: string -> bool): seq<string> {
    if s == [] then []
    else Filter(s[..|s| - 1], keep) + (if keep(s[|s| - 1]) then [s[|s| - 1]] else [])
  }

  lemma {:induction false} FilterMembers(s: seq<string>, keep: string -> bool)
    ensures forall x :: x in Filter(s, keep) <==> x in s && keep(x)
  {
    if s != [] {
      var init := s[..|s| - 1];
      FilterMembers(init, keep);
      assert s == init + [s[|s| - 1]];
    }
  }

  /** Filtering keeps the order: the selection from `a + b` is the selection
      from `a` followed by the selection from `b`. */
  lemma {:induction false} FilterAppend(a: seq<string>, b: seq<string>, keep: string -> bool)
    ensures Filter(a + b, keep) == Filter(a, keep) + Filter(b, keep)
    decreases |b|
  {
    if b != [] {
      var init := b[..|b| - 1];
      FilterAppend(a, init, keep);
      assert (a + b)[..|a + b| - 1] == a + init;
      assert (a + b)[|a + b| - 1] == b[|b| - 1];
    } else {
      assert a + b == a;
    }
  }

  /** A present field is empty when it is `None` or a string that `strip()`
      reduces to nothing. */
  predicate IsEmptyValue(v: Value) {
    v.Null? || (v.Str? && Strip(v.s) == [])
  }

  /** Only `None` and all-whitespace strings are empty: `0`, `False`, `[]`
      and `{}` are not. */
  lemma EmptyValueMeans(v: Value)
    ensures IsEmptyValue(v) <==> v == Null || (v.Str? && AllSpace(v.s))
  {
    if v.Str? {
      StripEmptyIffAllSpace(v.s);
    }
  }

  function IsAbsent(m: map<string, Value>): string -> bool {
    f => f !in m
  }

  function IsBlank(m: map<string, Value>): string -> bool {
    f => f in m && IsEmptyValue(m[f])
  }

  /** The required names not in the dict, in order. */
  function Absent(m: map<string, Value>, required: seq<string>): seq<string> {
    Filter(required, IsAbsent(m))
  }

  /** The required names in the dict whose values are empty, in order. */
  function Blank(m: map<string, Value>, required: seq<string>): seq<string> {
    Filter(required, IsBlank(m))
  }

  lemma AbsentAndBlankMembers(m: map<string, Value>, required: seq<string>)
    ensures forall x :: x in Absent(m, required) <==> x in required && x !in m
    ensures forall x :: x in Blank(m, required) <==> x in required && x in m && IsEmptyValue(m[x])
    ensures Absent(m, required) == [] <==> forall x :: x in required ==> x in m
    ensures Blank(m, required) == [] <==>
      forall x :: x in required && x in m ==> !IsEmptyValue(m[x])
  {
    FilterMembers(required, IsAbsent(m));
    FilterMembers(required, IsBlank(m));
    var a, b := Absent(m, required), Blank(m, required);
    if a != [] {
      assert a[0] in a;
    }
    if b != [] {
      assert b[0] in b;
    }
  }

  /** What `validate_required_fields` raises, if anything. */
  function RequiredFields(data: Value, required: seq<string>): Outcome {
    if !data.Dict? then Fail(NotAnObject)
    else if Absent(data.fields, required) != [] then
      Fail(MissingFields(Absent(data.fields, required)))
    else if Blank(data.fields, required) != [] then
      Fail(EmptyFields(Blank(data.fields, required)))
    else Pass
  }

  /** `validate_required_fields`: one pass over the required names collects
      the missing and the empty ones, then missing ones are reported first. */
  method ValidateRequiredFields(data: Value, required: seq<string>) returns (r: Outcome)
    ensures r == RequiredFields(data, required)
  {
    if !data.Dict? {
      return Fail(NotAnObject);
    }
    var m := data.fields;
    var missing: seq<string> := [];
    var empty: seq<string> := [];
    for i := 0 to |required|
      invariant missing == Absent(m, required[..i])
      invariant empty == Blank(m, required[..i])
    {
      var field := required[i];
      assert required[..i + 1] == required[..i] + [field];
      if field !in m {
        missing := missing + [field];
      } else if IsEmptyValue(m[field]) {
        empty := empty + [field];
      }
    }
    assert required[..|required|] == required;
    if missing != [] {
      return Fail(MissingFields(missing));
    }
    if empty != [] {
      return Fail(EmptyFields(empty));
    }
    return Pass;
  }

  /** The call succeeds exactly when the body is a dict holding every
      required field with a non-empty value. */
  lemma RequiredFieldsPassIff(data: Value, required: seq<string>)
    ensures RequiredFields(data, required) == Pass <==>
      data.Dict? &&
      forall f :: f in required ==> f in data.fields && !IsEmptyValue(data.fields[f])
  {
    if data.Dict? {
      AbsentAndBlankMembers(data.fields, required);
    }
  }

  /** A missing field is reported before any empty one, and the error names
      exactly the required names that are absent. */
  lemma RequiredFieldsMissingFirst(data: Value, required: seq<string>, f: string)
    requires data.Dict? && f in required && f !in data.fields
    ensures RequiredFields(data, required).Fail?
    ensures RequiredFields(data, required).error.MissingFields?
    ensures forall x :: x in RequiredFields(data, required).error.fields <==>
      x in required && x !in data.fields
  {
    AbsentAndBlankMembers(data.fields, required);
  }

  /** The empty-fields error is raised only when nothing is missing, and it
      names exactly the required names whose values are empty. */
  lemma RequiredFieldsEmptyOnlyWhenComplete(data: Value, required: seq<string>)
    requires RequiredFields(data, required).Fail?
    requires RequiredFields(data, required).error.EmptyFields?
    ensures data.Dict? && forall f :: f in required ==> f in data.fields
    ensures forall x :: x in RequiredFields(data, required).error.fields <==>
      x in required && x in data.fields && IsEmptyValue(data.fields[x])
  {
    AbsentAndBlankMembers(data.fields, required);
  }

  /** Missing names are listed in the order of `required`: the names missing
      from `a + b` are those missing from `a`, then those missing from `b`. */
  lemma MissingInRequiredOrder(m: map<string, Value>, a: seq<string>, b: seq<string>)
    ensures Absent(m, a + b) == Absent(m, a) + Absent(m, b)
  {
    FilterAppend(a, b, IsAbsent(m));
  }

  // ---------------------------------------------------------------------
  // validate_string_length, validate_exact_length

  /** `validate_string_length`, with the source's defaults 0 and 100. */
  function ValidateStringLength(value: Value, field: string,
                                minLength: int := 0, maxLength: int := 100): (r: Outcome)
    ensures r == Pass <==> value.Str? && minLength <= |value.s| <= maxLength
    ensures !value.Str? ==> r == Fail(Invalid(field, NotAString))
    // too short wins over too long (both at once happen when minLength > maxLength)
    ensures value.Str? && |value.s| < minLength ==> r == Fail(Invalid(field, TooShort(minLength)))
    ensures value.Str? && minLength <= |value.s| && maxLength < |value.s| ==>
      r == Fail(Invalid(field, TooLong(maxLength)))
  {
    if !value.Str? then Fail(Invalid(field, NotAString))
    else if |value.s| < minLength then Fail(Invalid(field, TooShort(minLength)))
    else if |value.s| > maxLength then Fail(Invalid(field, TooLong(maxLength)))
    else Pass
  }

  /** `validate_exact_length`. */
  function ValidateExactLength(value: Value, field: string, length: int): (r: Outcome)
    ensures r == Pass <==> value.Str? && |value.s| == length
    ensures r.Fail? ==> r.error == Invalid(field, if value.Str? then WrongLength(length) else NotAString)
  {
    if !value.Str? then Fail(Invalid(field, NotAString))
    else if |value.s| != length then Fail(Invalid(field, WrongLength(length)))
    else Pass
  }

  /** An exact length is the range with both ends at that length. */
  lemma ExactIsDegenerateRange(value: Value, field: string, length: int)
    ensures ValidateExactLength(value, field, length).Pass? ==
            ValidateStringLength(value, field, length, length).Pass?
  {
  }

  // ---------------------------------------------------------------------
  // character classes: validate_alphanumeric, validate_alpha,
  // validate_iso_code, validate_state_code

  predicate IsAsciiLetter(c: char) {
    ('a' <= c <= 'z') || ('A' <= c <= 'Z')
  }

  predicate IsAsciiUpper(c: char) {
    'A' <= c <= 'Z'
  }

  const Lowercase := CharRange('a', 'z')
  const Uppercase := CharRange('A', 'Z')
  const DigitRange := CharRange('0', '9')

  /** `r'^[a-zA-Z0-9\s]+$'` or `r'^[a-zA-Z0-9]+$'`. */
  function AlphanumericPattern(allowSpaces: bool): Pattern {
    Pattern(CharClass([Lowercase, Uppercase, DigitRange], allowSpaces), 1, None)
  }

  /** `r'^[a-zA-Z\s]+$'` or `r'^[a-zA-Z]+$'`. */
  function AlphaPattern(allowSpaces: bool): Pattern {
    Pattern(CharClass([Lowercase, Uppercase], allowSpaces), 1, None)
  }

  /** `r'^[A-Z]{2,3}$'`. */
  const IsoCodePattern := Pattern(CharClass([Uppercase], false), 2, Some(3))

  /** `r'^[A-Z]{2}$'`. */
  const StateCodePattern := Pattern(CharClass([Uppercase], false), 2, Some(2))

  /** Text accepted by `re.match` with a final `$`: the text proper, or the
      text proper followed by one newline. */
  predicate WithOptionalNewline(s: string, proper: string -> bool) {
    proper(s) || (s != [] && s[|s| - 1] == '\n' && proper(s[..|s| - 1]))
  }

  predicate AlphanumericText(t: string, allowSpaces: bool) {
    |t| >= 1 &&
    forall i :: 0 <= i < |t| ==>
      IsAsciiLetter(t[i]) || IsDigit(t[i]) || (allowSpaces && IsSpace(t[i]))
  }

  predicate AlphaText(t: string, allowSpaces: bool) {
    |t| >= 1 &&
    forall i :: 0 <= i < |t| ==> IsAsciiLetter(t[i]) || (allowSpaces && IsSpace(t[i]))
  }

  predicate UpperText(t: string, minLen: nat, maxLen: nat) {
    minLen <= |t| <= maxLen && forall i :: 0 <= i < |t| ==> IsAsciiUpper(t[i])
  }

  lemma AlphanumericPatternMeans(s: string, allowSpaces: bool)
    ensures ReMatch(AlphanumericPattern(allowSpaces), s) <==>
      WithOptionalNewline(s, t => AlphanumericText(t, allowSpaces))
  {
    var p := AlphanumericPattern(allowSpaces);
    ReMatchIsFullMatchOrNewline(p, s);
    assert forall c :: InClass(c, p.cls) <==> IsAsciiLetter(c) || IsDigit(c) || (allowSpaces && IsSpace(c)) by {
      forall c ensures InClass(c, p.cls) <==> IsAsciiLetter(c) || IsDigit(c) || (allowSpaces && IsSpace(c)) {
        if IsAsciiLetter(c) || IsDigit(c) {
          assert p.cls.ranges[0].lo <= c <= p.cls.ranges[0].hi
              || p.cls.ranges[1].lo <= c <= p.cls.ranges[1].hi
              || p.cls.ranges[2].lo <= c <= p.cls.ranges[2].hi;
        }
      }
    }
  }

  lemma AlphaPatternMeans(s: string, allowSpaces: bool)
    ensures ReMatch(AlphaPattern(allowSpaces), s) <==>
      WithOptionalNewline(s, t => AlphaText(t, allowSpaces))
  {
    var p := AlphaPattern(allowSpaces);
    ReMatchIsFullMatchOrNewline(p, s);
    assert forall c :: InClass(c, p.cls) <==> IsAsciiLetter(c) || (allowSpaces && IsSpace(c)) by {
      forall c ensures InClass(c, p.cls) <==> IsAsciiLetter(c) || (allowSpaces && IsSpace(c)) {
        if IsAsciiLetter(c) {
          assert p.cls.ranges[0].lo <= c <= p.cls.ranges[0].hi
              || p.cls.ranges[1].lo <= c <= p.cls.ranges[1].hi;
        }
      }
    }
  }

  lemma UpperPatternMeans(p: Pattern, s: string, minLen: nat, maxLen: nat)
    requires p == Pattern(CharClass([Uppercase], false), minLen, Some(maxLen))
    ensures ReMatch(p, s) <==> WithOptionalNewline(s, t => UpperText(t, minLen, maxLen))
    ensures FullMatch(p, s) <==> UpperText(s, minLen, maxLen)
  {
    ReMatchIsFullMatchOrNewline(p, s);
    assert forall c :: InClass(c, p.cls) <==> IsAsciiUpper(c) by {
      forall c ensures InClass(c, p.cls) <==> IsAsciiUpper(c) {
        if IsAsciiUpper(c) {
          assert p.cls.ranges[0].lo <= c <= p.cls.ranges[0].hi;
        }
      }
    }
  }

  /** `validate_alphanumeric`, by default without spaces. */
  function ValidateAlphanumeric(value: Value, field: string, allowSpaces: bool := false): (r: Outcome)
    ensures r == Pass <==>
      value.Str? && WithOptionalNewline(value.s, t => AlphanumericText(t, allowSpaces))
    ensures r.Fail? ==>
      r.error == Invalid(field, if value.Str? then NotAlphanumeric(allowSpaces) else NotAString)
  {
    if !value.Str? then Fail(Invalid(field, NotAString))
    else
      AlphanumericPatternMeans(value.s, allowSpaces);
      if !ReMatch(AlphanumericPattern(allowSpaces), value.s) then
        Fail(Invalid(field, NotAlphanumeric(allowSpaces)))
      else Pass
  }

  /** `validate_alpha`, by default with spaces. */
  function ValidateAlpha(value: Value, field: string, allowSpaces: bool := true): (r: Outcome)
    ensures r == Pass <==>
      value.Str? && WithOptionalNewline(value.s, t => AlphaText(t, allowSpaces))
    ensures r.Fail? ==>
      r.error == Invalid(field, if value.Str? then NotAlphabetic(allowSpaces) else NotAString)
  {
    if !value.Str? then Fail(Invalid(field, NotAString))
    else
      AlphaPatternMeans(value.s, allowSpaces);
      if !ReMatch(AlphaPattern(allowSpaces), value.s) then
        Fail(Invalid(field, NotAlphabetic(allowSpaces)))
      else Pass
  }

  /** `validate_iso_code`: two or three capital ASCII letters. */
  function ValidateIsoCode(value: Value, field: string := "iso_code"): (r: Outcome)
    ensures r == Pass <==> value.Str? && WithOptionalNewline(value.s, t => UpperText(t, 2, 3))
    ensures r.Fail? ==> r.error == Invalid(field, if value.Str? then NotIsoCode else NotAString)
  {
    if !value.Str? then Fail(Invalid(field, NotAString))
    else
      UpperPatternMeans(IsoCodePattern, value.s, 2, 3);
      if !ReMatch(IsoCodePattern, value.s) then Fail(Invalid(field, NotIsoCode))
      else Pass
  }

  /** `validate_state_code`: two capital ASCII letters. */
  function ValidateStateCode(value: Value, field: string := "state_code"): (r: Outcome)
    ensures r == Pass <==> value.Str? && WithOptionalNewline(value.s, t => UpperText(t, 2, 2))
    ensures r.Fail? ==> r.error == Invalid(field, if value.Str? then NotStateCode else NotAString)
  {
    if !value.Str? then Fail(Invalid(field, NotAString))
    else
      UpperPatternMeans(StateCodePattern, value.s, 2, 2);
      if !ReMatch(StateCodePattern, value.s) then Fail(Invalid(field, NotStateCode))
      else Pass
  }

  /** The state-code check as documented ("exactly 2 uppercase letters"),
      matching the whole string as `re.fullmatch` does. */
  function ValidateStateCodeStrict(value: Value, field: string := "state_code"): (r: Outcome)
    ensures r == Pass <==> value.Str? && |value.s| == 2 && IsAsciiUpper(value.s[0]) && IsAsciiUpper(value.s[1])
    ensures r.Fail? ==> r.error == Invalid(field, if value.Str? then NotStateCode else NotAString)
  {
    if !value.Str? then Fail(Invalid(field, NotAString))
    else
      UpperPatternMeans(StateCodePattern, value.s, 2, 2);
      if !FullMatch(StateCodePattern, value.s) then Fail(Invalid(field, NotStateCode))
      else Pass
  }

  /** The ISO-code check as documented ("2-3 uppercase letters"). */
  function ValidateIsoCodeStrict(value: Value, field: string := "iso_code"): (r: Outcome)
    ensures r == Pass <==> value.Str? && UpperText(value.s, 2, 3)
    ensures r.Fail? ==> r.error == Invalid(field, if value.Str? then NotIsoCode else NotAString)
  {
    if !value.Str? then Fail(Invalid(field, NotAString))
    else
      UpperPatternMeans(IsoCodePattern, value.s, 2, 3);
      if !FullMatch(IsoCodePattern, value.s) then Fail(Invalid(field, NotIsoCode))
      else Pass
  }

  /** `"NY\n"` is three characters, yet `validate_state_code` accepts it;
      the documented check does not. */
  lemma StateCodeAcceptsTrailingNewline()
    ensures ValidateStateCode(Str("NY\n")) == Pass
    ensures ValidateStateCodeStrict(Str("NY\n")).Fail?
  {
    var s := "NY\n";
    assert s[..|s| - 1] == "NY";
    assert UpperText("NY", 2, 2);
  }

  /** `"USA\n"` is four characters, yet `validate_iso_code` accepts it; the
      documented check does not. */
  lemma IsoCodeAcceptsTrailingNewline()
    ensures ValidateIsoCode(Str("USA\n")) == Pass
    ensures ValidateIsoCodeStrict(Str("USA\n")).Fail?
  {
    var s := "USA\n";
    assert s[..|s| - 1] == "USA";
    assert UpperText("USA", 2, 3);
  }

  /** A state code is an ISO-shaped code of length two. */
  lemma StateCodeIsIsoCode(value: Value)
    requires ValidateStateCode(value) == Pass
    ensures ValidateIsoCode(value) == Pass
  {
  }

  // ---------------------------------------------------------------------
  // validate_uppercase

  function UpperChar(c: char): char {
    if 'a' <= c <= 'z' then (c as int - 32) as char else c
  }

  /** `s.upper()` on ASCII letters; every other character is left as is. */
  function Upper(s: string): string {
    if s == [] then [] else [UpperChar(s[0])] + Upper(s[1..])
  }

  lemma {:induction false} UpperAt(s: string)
    ensures |Upper(s)| == |s|
    ensures forall i :: 0 <= i < |s| ==> Upper(s)[i] == UpperChar(s[i])
  {
    if s != [] {
      UpperAt(s[1..]);
    }
  }

  /** `validate_uppercase`: the string is unchanged by `upper()`, that is,
      it holds no lower-case letter. */
  function ValidateUppercase(value: Value, field: string): (r: Outcome)
    ensures r == Pass <==> value.Str? && forall i :: 0 <= i < |value.s| ==> !('a' <= value.s[i] <= 'z')
    ensures r.Fail? ==> r.error == Invalid(field, if value.Str? then NotUppercase else NotAString)
  {
    if !value.Str? then Fail(Invalid(field, NotAString))
    else
      UpperAt(value.s);
      if value.s != Upper(value.s) then
        assert exists i :: 0 <= i < |value.s| && value.s[i] != Upper(value.s)[i];
        Fail(Invalid(field, NotUppercase))
      else Pass
  }

  /** Whatever `upper()` produced passes the uppercase check. */
  lemma UpperResultPasses(t: string, field: string)
    ensures ValidateUppercase(Str(Upper(t)), field) == Pass
  {
    UpperAt(t);
  }

  // ---------------------------------------------------------------------
  // validate_enum

  /** `value in allowed`: a scan comparing with Python's `==`. */
  function Contains(allowed: seq<Value>, value: Value): (b: bool)
    ensures b <==> exists i :: 0 <= i < |allowed| && PyEq(allowed[i], value)
  {
    if allowed == [] then false
    else if PyEq(allowed[0], value) then true
    else
      var b := Contains(allowed[1..], value);
      assert forall i :: 1 <= i < |allowed| ==> allowed[i] == allowed[1..][i - 1];
      b
  }

  /** `validate_enum`. */
  function ValidateEnum(value: Value, field: string, allowed: seq<Value>): (r: Outcome)
    ensures r == Pass <==> exists i :: 0 <= i < |allowed| && PyEq(allowed[i], value)
    ensures r.Fail? ==> r.error == Invalid(field, NotOneOf(allowed))
  {
    if !Contains(allowed, value) then Fail(Invalid(field, NotOneOf(allowed)))
    else Pass
  }

  /** Every listed value is accepted. */
  lemma EnumAcceptsListed(value: Value, field: string, allowed: seq<Value>)
    requires value in allowed
    ensures ValidateEnum(value, field, allowed) == Pass
  {
    var i :| 0 <= i < |allowed| && allowed[i] == value;
    PyEqReflexive(value);
  }

  /** Only the value's Python equality class matters: values that compare
      equal are accepted or rejected together. */
  lemma EnumRespectsEquality(v: Value, w: Value, field: string, allowed: seq<Value>)
    requires PyEq(v, w)
    ensures ValidateEnum(v, field, allowed) == ValidateEnum(w, field, allowed)
  {
    PyEqSymmetric(v, w);
    if ValidateEnum(v, field, allowed) == Pass {
      var i :| 0 <= i < |allowed| && PyEq(allowed[i], v);
      PyEqTransitive(allowed[i], v, w);
    }
    if ValidateEnum(w, field, allowed) == Pass {
      var i :| 0 <= i < |allowed| && PyEq(allowed[i], w);
      PyEqTransitive(allowed[i], w, v);
    }
  }

  /** `True` passes where `1` is allowed, because `True == 1` in Python. */
  lemma EnumTrueMatchesOne(field: string)
    ensures ValidateEnum(Bool(true), field, [Int(1)]) == Pass
    ensures ValidateEnum(Int(0), field, [Bool(false)]) == Pass
  {
    assert PyEq(Int(1), Bool(true));
    assert PyEq(Bool(false), Int(0));
  }

  // ---------------------------------------------------------------------
  // validate_integer, validate_positive_integer

  /** A bound that is `None` imposes nothing. */
  predicate WithinBounds(n: int, minValue: Option<int>, maxValue: Option<int>) {
    (minValue.None? || minValue.value <= n) && (maxValue.None? || n <= maxValue.value)
  }

  /** `validate_integer`; `bool` is rejected although Python counts it as
      an `int`. */
  function ValidateInteger(value: Value, field: string,
                           minValue: Option<int> := None, maxValue: Option<int> := None): (r: Outcome)
    ensures r == Pass <==> value.Int? && WithinBounds(value.i, minValue, maxValue)
    ensures !value.Int? ==> r == Fail(Invalid(field, NotAnInteger))
    // below the minimum wins over above the maximum
    ensures value.Int? && minValue.Some? && value.i < minValue.value ==>
      r == Fail(Invalid(field, BelowMinimum(minValue.value)))
    ensures value.Int? && WithinBounds(value.i, minValue, None) && maxValue.Some? && value.i > maxValue.value ==>
      r == Fail(Invalid(field, AboveMaximum(maxValue.value)))
  {
    if !value.Int? then Fail(Invalid(field, NotAnInteger))
    else if minValue.Some? && value.i < minValue.value then Fail(Invalid(field, BelowMinimum(minValue.value)))
    else if maxValue.Some? && value.i > maxValue.value then Fail(Invalid(field, AboveMaximum(maxValue.value)))
    else Pass
  }

  /** `validate_positive_integer`: `validate_integer` with minimum 1. */
  function ValidatePositiveInteger(value: Value, field: string): (r: Outcome)
    ensures r == Pass <==> value.Int? && value.i >= 1
    ensures r.Fail? ==> r.error == Invalid(field, if value.Int? then BelowMinimum(1) else NotAnInteger)
  {
    ValidateInteger(value, field, Some(1), None)
  }

  // ---------------------------------------------------------------------
  // validate_pagination_params

  predicate GoodPage(page: Value) {
    ToInt(page).Some? && ToInt(page).value >= 1
  }

  predicate GoodLimit(limit: Value, maxLimit: int) {
    ToInt(limit).Some? && 1 <= ToInt(limit).value <= maxLimit
  }

  /** `validate_pagination_params`: both values converted with `int()`,
      the page checked completely before the limit. */
  function ValidatePaginationParams(page: Value, limit: Value,
                                    fieldPage: string := "page", fieldLimit: string := "limit",
                                    maxLimit: int := 1000): (r: Result<(int, int)>)
    ensures r.Ok? <==> GoodPage(page) && GoodLimit(limit, maxLimit)
    ensures r.Ok? ==> r.value == (ToInt(page).value, ToInt(limit).value)
    ensures r.Ok? ==> r.value.0 >= 1 && 1 <= r.value.1 <= maxLimit
    // a bad page is reported whatever the limit
    ensures !GoodPage(page) ==>
      r == Err(Invalid(fieldPage, if ToInt(page).None? then NotAnInteger else BelowMinimum(1)))
    ensures GoodPage(page) && !GoodLimit(limit, maxLimit) ==>
      r == Err(Invalid(fieldLimit,
        if ToInt(limit).None? then NotAnInteger
        else if ToInt(limit).value < 1 then BelowMinimum(1)
        else AboveMaximum(maxLimit)))
  {
    match ToInt(page)
    case None => Err(Invalid(fieldPage, NotAnInteger))
    case Some(pageInt) =>
      if pageInt < 1 then Err(Invalid(fieldPage, BelowMinimum(1)))
      else
        match ToInt(limit)
        case None => Err(Invalid(fieldLimit, NotAnInteger))
        case Some(limitInt) =>
          if limitInt < 1 then Err(Invalid(fieldLimit, BelowMinimum(1)))
          else if limitInt > maxLimit then Err(Invalid(fieldLimit, AboveMaximum(maxLimit)))
          else Ok((pageInt, limitInt))
  }

  /** Query-string parameters written by `str()` come back unchanged when
      they are in range. */
  lemma PaginationQueryRoundTrip(page: int, limit: int, maxLimit: int)
    requires page >= 1 && 1 <= limit <= maxLimit
    ensures ValidatePaginationParams(Str(FormatInt(page)), Str(FormatInt(limit)), "page", "limit", maxLimit)
      == Ok((page, limit))
  {
    ParseFormatRoundTrip(page);
    ParseFormatRoundTrip(limit);
  }

  /** An empty or all-whitespace query parameter is not an integer. */
  lemma BlankPageIsNotAnInteger(s: string, limit: Value)
    requires AllSpace(s)
    ensures ValidatePaginationParams(Str(s), limit) == Err(Invalid("page", NotAnInteger))
  {
    ParseIntRejectsBlank(s);
  }

  /** A page carrying the separator U+001C is not an integer, although
      `strip()` would remove that separator. */
  lemma SeparatorPageIsNotAnInteger(limit: Value)
    ensures ValidatePaginationParams(Str("\U{1C}5"), limit) == Err(Invalid("page", NotAnInteger))
  {
    ParseIntKeepsSeparator();
  }

  // ---------------------------------------------------------------------
  // validate_no_extra_fields

  function ExtraKeys(m: map<string, Value>, allowed: seq<string>): set<string> {
    m.Keys - set k | k in allowed
  }

  /** `validate_no_extra_fields`: the keys outside `allowed`, sorted. */
  function ValidateNoExtraFields(data: Value, allowed: seq<string>): (r: Outcome)
    ensures r == Pass <==> data.Dict? && forall k :: k in data.fields ==> k in allowed
    ensures !data.Dict? ==> r == Fail(NotAnObject)
    ensures data.Dict? && r.Fail? ==>
      r.error.UnexpectedFields? &&
      StringOrder.StrictlySorted(r.error.fields) &&
      forall k :: k in r.error.fields <==> k in data.fields && k !in allowed
  {
    if !data.Dict? then Fail(NotAnObject)
    else
      var extra := ExtraKeys(data.fields, allowed);
      assert forall k :: k in extra <==> k in data.fields && k !in allowed;
      if extra == {} then Pass
      else Fail(UnexpectedFields(StringOrder.Sorted(extra)))
  }
}
