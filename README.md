# Input validators of the geographic REST API, in Dafny

The API (countries, states, cities, users) checks request input with a small
library of guard functions in `validation.py`. Each guard either returns or
raises `ValidationError`. Where input breaks several rules, the guard reports
the first rule in a fixed order. This project models that library and proves
what each guard accepts and rejects, and in what order it reports problems.

Modules:

- `PyValues` (`python_values.dfy`): the values a request can carry: `None`,
  `bool`, `int`, `str`, `list`, `dict` and an opaque "other object". It also
  holds Python's whitespace (`str.isspace`, regex `\s`), `str.strip()` and `==`.
  In `==`, `True == 1` and containers compare element by element.
- `StringOrder` (`string_order.dfy`): Python's order on `str` and `sorted()`
  of a set of strings.
- `Regex` (`regex.dfy`): the one regular-expression shape the guards use,
  `^[class]{m,n}$`. It has a backtracking matcher for `re.match` and a
  declarative meaning, proved equal. `$` also matches before a final newline.
- `PyInt` (`py_int.dfy`): Python's `int()` on an `int`, a `bool` or a `str`.
  For a string, `int()` first skips surrounding whitespace. That set is not
  the one `strip()` uses: the ASCII separators U+001C-U+001F are not skipped.
  The rest must be an optional sign and decimal digits, with single
  underscores allowed between digits.
- `Validation` (`validation.dfy`): the guards. A raised `ValidationError`
  becomes `Fail(e)` or `Err(e)`. The error records its kind and the field
  names, not the message text. `validate_required_fields` is a method with
  the source's loop, proved against the function `RequiredFields`. The other
  guards are functions.

## Model

| member | source | states |
|---|---|---|
| `Validation.ValidateRequiredFields` | validation.py:13-41 | One pass over the required names collects the missing and the empty ones. The outcome is exactly `RequiredFields`: not a dict, else missing names, else empty names, else success. |
| `Validation.RequiredFieldsPassIff` | validation.py:24-41 | Success exactly when the body is a dict and every required field is present with a non-empty value. |
| `Validation.RequiredFieldsMissingFirst` | validation.py:30-39 | If any required field is absent, the error is the missing-fields error, even when other fields are empty. It names exactly the absent required names. |
| `Validation.RequiredFieldsEmptyOnlyWhenComplete` | validation.py:38-41 | The empty-fields error comes only when no required field is missing. It names exactly the present required fields whose values are empty. |
| `Validation.MissingInRequiredOrder` | validation.py:30-32 | Missing names are listed in the order they were required: those missing from `a + b` are those from `a`, then those from `b`. |
| `Validation.AbsentAndBlankMembers` | validation.py:30-36 | A name is in the missing list iff it is required and absent. It is in the empty list iff it is required, present and empty. Each list is empty iff no such name exists. |
| `Validation.EmptyValueMeans` | validation.py:33-36 | A present value is empty iff it is `None` or a string of whitespace only. `0`, `False`, lists and dicts are never empty. |
| `PyValues.Strip` | validation.py:35 | `strip()` leaves a string that neither starts nor ends with whitespace, made only of characters of the input. |
| `PyValues.StripEmptyIffAllSpace` | validation.py:35 | `strip()` leaves nothing iff every character is whitespace. |
| `PyValues.StripByEmptyIffAll` | validation.py:35 | Stripping by any whitespace set leaves nothing iff every character is in that set. |
| `Validation.FilterAppend` | validation.py:30-36 | Selecting names from a concatenation gives the selection from each part, in order. |
| `Validation.FilterMembers` | validation.py:30-36 | A name is selected iff it occurs in the input and the test holds for it. |
| `Validation.ValidateStringLength` | validation.py:44-69 | Accepts iff the value is a string with `min_length <= len <= max_length`. A non-string is rejected first. Too short is reported before too long, even when both hold (`min_length > max_length`). |
| `Validation.ValidateExactLength` | validation.py:72-90 | Accepts iff the value is a string of exactly `length` characters. A non-string gets the not-a-string error, a wrong length the exact-length error. |
| `Validation.ExactIsDegenerateRange` | validation.py:62-69 | An exact-length check accepts what the range check with both bounds equal to that length accepts. |
| `Regex.ReMatch` | validation.py:133 | The greedy, backtracking match of `^[class]{m,n}$` succeeds iff the regular expression's meaning holds: an allowed number of class characters, then a position where `$` matches. |
| `Regex.Backtrack` | validation.py:133 | Backtracking from `k` repetitions down to the minimum finds a `$` position iff one exists in that range. |
| `Regex.ClassRun` | validation.py:133 | The greedy repetition stops at the first character outside the class. |
| `Regex.ReMatchIsFullMatchOrNewline` | validation.py:132-133 | `re.match` with `^...$` accepts exactly the strings `re.fullmatch` accepts, plus those strings followed by one `'\n'`. |
| `Validation.AlphanumericPatternMeans` | validation.py:132 | The alphanumeric pattern accepts 1+ ASCII letters or digits, plus whitespace when spaces are allowed, optionally followed by one newline. |
| `Validation.AlphaPatternMeans` | validation.py:155 | The alphabetic pattern accepts 1+ ASCII letters, plus whitespace when spaces are allowed, optionally followed by one newline. |
| `Validation.UpperPatternMeans` | validation.py:297 | `[A-Z]{m,n}` under `re.match` accepts m to n capital ASCII letters with an optional final newline. Under `fullmatch` the newline is not accepted. |
| `Validation.ValidateAlphanumeric` | validation.py:116-136 | Accepts iff the value is a string over `[a-zA-Z0-9]` (and whitespace when `allow_spaces`), at least one character, with an optional final newline. Otherwise it reports not-a-string or not-alphanumeric. |
| `Validation.ValidateAlpha` | validation.py:139-159 | The same for `[a-zA-Z]`, spaces allowed by default. |
| `Validation.ValidateIsoCode` | validation.py:283-300 | Accepts iff the value is a string of 2-3 capital ASCII letters, with an optional final newline. |
| `Validation.ValidateStateCode` | validation.py:303-320 | Accepts iff the value is a string of exactly 2 capital ASCII letters, with an optional final newline. |
| `Validation.StateCodeIsIsoCode` | validation.py:297 | Every accepted state code is also an accepted ISO code. |
| `Validation.StateCodeAcceptsTrailingNewline` | validation.py:317 | `"NY\n"` passes the state-code check as written and fails the documented one. |
| `Validation.IsoCodeAcceptsTrailingNewline` | validation.py:297 | `"USA\n"` passes the ISO-code check as written and fails the documented one. |
| `Validation.ValidateStateCodeStrict` | validation.py:303-320 | Corrected state-code check: accepts iff the string is exactly two capital ASCII letters. |
| `Validation.ValidateIsoCodeStrict` | validation.py:283-300 | Corrected ISO-code check: accepts iff the string is 2-3 capital ASCII letters. |
| `Validation.UpperAt` | validation.py:176 | The ASCII-only `upper()` of this model keeps the length and maps each character on its own. |
| `Validation.ValidateUppercase` | validation.py:162-177 | Accepts iff the value is a string with no lower-case letter, that is, one that `upper()` leaves unchanged. |
| `Validation.UpperResultPasses` | validation.py:176 | Whatever `upper()` returns passes the uppercase check. |
| `Validation.Contains` | validation.py:193 | The scan finds the value iff some allowed entry equals it under Python `==`. |
| `Validation.ValidateEnum` | validation.py:180-197 | Accepts iff some allowed value equals the value under Python `==`. Otherwise it reports the field and the allowed list. |
| `Validation.EnumAcceptsListed` | validation.py:193 | Every listed value is accepted. |
| `Validation.EnumRespectsEquality` | validation.py:193 | Values that compare equal are accepted or rejected together. |
| `Validation.EnumTrueMatchesOne` | validation.py:193 | `True` passes where `1` is allowed, and `0` passes where `False` is allowed. |
| `PyValues.PyEq` | validation.py:193 | The `==` that `in` uses: a number (`int` or `bool`) equals only a number of the same value, and `None` or a string equals only itself. |
| `PyValues.PyEqReflexive` | validation.py:193 | Every value equals itself under Python `==`. |
| `PyValues.PyEqSymmetric` | validation.py:193 | Python `==` is symmetric on these values. |
| `PyValues.PyEqTransitive` | validation.py:193 | Python `==` is transitive on these values. |
| `Validation.ValidateInteger` | validation.py:200-225 | Accepts iff the value is an `int` (not a `bool`) within the bounds given. A `None` bound imposes nothing. Not-an-integer is reported first, then below-minimum, then above-maximum. |
| `Validation.ValidatePositiveInteger` | validation.py:228-239 | Accepts iff the value is an `int` of at least 1. Otherwise it reports not-an-integer, or below-minimum 1. |
| `PyInt.ParseInt` | validation.py:247 | `int()` on a string: a bare run of ASCII digits is read as the number it denotes. The lemmas below state the whitespace, sign and underscore rules. |
| `PyInt.ParseIntIgnoresPadding` | validation.py:247 | Surrounding a string that has no whitespace at either end with any whitespace that `int()` skips (every `isspace` character except U+001C-U+001F) does not change what `int()` reads. |
| `PyInt.ParseIntAroundSpace` | validation.py:247 | `int(w1 + str(n) + w2) == n` for every integer `n` and any such whitespace `w1`, `w2`. |
| `PyInt.ParseIntSign` | validation.py:247 | A leading `-` before a run of digits negates its value, and a leading `+` keeps it. |
| `PyInt.ParseIntUnderscore` | validation.py:247 | One underscore between two runs of digits is ignored: `int(a + "_" + b) == int(a + b)`. |
| `PyInt.ParseIntRejectsMisplacedUnderscore` | validation.py:247 | A trailing underscore, a leading underscore or two underscores in a row make `int()` fail. |
| `PyInt.ToInt` | validation.py:246-256 | `int()` succeeds on every `int` and `bool`, keeping the number (`bool` gives 0 or 1). `None`, lists and dicts fail. |
| `PyInt.ParseIntSkipsAsciiWhitespace` | validation.py:247 | The example `int("\t5\n") == 5`: a leading tab and a trailing newline are skipped. |
| `PyInt.ParseIntKeepsSeparator` | validation.py:247 | `int("\x1c5")` fails, although `strip()` removes the U+001C. |
| `PyInt.ParseIntRejectsBlank` | validation.py:247 | `int()` fails on an empty or all-whitespace string. |
| `PyInt.ParseFormatRoundTrip` | validation.py:247 | `int(str(n)) == n` for every integer `n`. |
| `Validation.ValidatePaginationParams` | validation.py:242-262 | Succeeds iff `int(page) >= 1` and `1 <= int(limit) <= max_limit`, returning the converted pair. Any page error comes before any limit error. Each error names its field and kind. |
| `Validation.PaginationQueryRoundTrip` | validation.py:242-262 | In-range page and limit, written as decimal strings, come back as the same pair. |
| `Validation.BlankPageIsNotAnInteger` | validation.py:246-249 | An empty or all-whitespace page is reported as not an integer. |
| `Validation.SeparatorPageIsNotAnInteger` | validation.py:246-249 | The page `"\x1c5"` is reported as not an integer. |
| `StringOrder.Less` | validation.py:340 | The `str` order `sorted()` uses: `a < b` iff `a` is a proper prefix of `b`, or at the first position where they differ `a` has the smaller code point. |
| `StringOrder.Sorted` | validation.py:340 | `sorted()` of a set of strings lists each element once, in strictly increasing order. |
| `StringOrder.SortedUnique` | validation.py:340 | A strictly increasing listing of a set of strings is unique, so `Sorted` is `sorted()`'s order. |
| `Validation.ValidateNoExtraFields` | validation.py:323-341 | Rejects a non-dict first. Accepts iff every key is allowed. Otherwise it lists exactly the keys that are not allowed, in sorted order. |

## Left out

- `validate_pattern` (validation.py:93-113): it runs an arbitrary regular expression. Only the fixed patterns of the other guards are modelled.
- `validate_type` (validation.py:265-280): it depends on Python's run-time `isinstance` with an arbitrary class.
- Message text: errors carry their kind, field name and field lists, not the formatted strings.
- `Validation.ValidateUppercase`: `upper()` maps only ASCII `a`-`z`. Python also upper-cases non-ASCII letters (`'é'`, `'ß'`), so such strings are accepted here but rejected by the source.
- `PyInt.ToInt`: `int()` of a `float` truncates in Python. `int()` also converts `bytes` and `bytearray` (`int(b"12") == 12`) and any object with `__int__` or `__index__` (such as `Decimal`). Here all of these are opaque other objects, so they are rejected. Non-ASCII decimal digits and Python's limit on the number of digits in a string are not modelled either.
- `Validation.ValidatePaginationParams`: for the same reasons, a `float`, `bytes` or `__index__` page or limit is reported as not an integer here, while the source converts it. `int`, `bool`, `None`, lists and dicts behave as in the source. Strings do too, except for non-ASCII decimal digits and strings of more than 4300 digits (see `PyInt.ToInt`).
- `Validation.UpperAt`: Python's `upper()` can change the length (`'ß'.upper() == 'SS'`). The model's `upper()` maps only ASCII `a`-`z`, one character to one character.
- `PyValues.PyEq`: in this model, objects other than `None`, `bool`, `int`, `str`, `list` and `dict` compare by their id. Python compares floats and bytes by value (two distinct `0.5` objects are `==`, so `validate_enum(0.5, f, [0.5])` passes), and `1.0 == 1` holds. Neither is modelled, nor is a custom `__eq__`.
- Dict keys are strings only, as in a parsed JSON body.
- Lone surrogates: a Python `str` can hold them (`json.loads('"\ud800"')`), but a Dafny string holds only Unicode scalar values, so such strings cannot reach any guard of the model.
- The HTTP endpoints (`server/endpoints.py`) are not part of this model. They do routing, database calls and clock reads.
- Password hashing, session tokens, login, and the email, username and password validators are not part of this model. `users/auth.py` and `users/queries.py` contain only imports and constants, so there is no code for them.

## Findings

| source | as written | input that shows it | evidently intended | confidence | as-written member | corrected member |
|---|---|---|---|---|---|---|
| validation.py:317 | `re.match(r'^[A-Z]{2}$', value)`: `$` also matches before a final newline | `"NY\n"` is accepted | exactly 2 uppercase letters, as the docstring and message say | medium, not executed | `Validation.StateCodeAcceptsTrailingNewline` | `Validation.ValidateStateCodeStrict` |
| validation.py:297 | `re.match(r'^[A-Z]{2,3}$', value)`: same `$` behaviour | `"USA\n"` is accepted | 2-3 uppercase letters and nothing else | medium, not executed | `Validation.IsoCodeAcceptsTrailingNewline` | `Validation.ValidateIsoCodeStrict` |
