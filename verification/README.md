# parsec in Dafny

A model of the parser-combinator engine of `parsec` (`parsec/parse.py`) and of
the two atom parsers built on it in `parsec/algebra.py`: `number` and
`variable`, plus the `Symbol` classes they produce.

A Python parser is a callable from a string to `(value, remainder)` that
raises `ParseError` when it does not apply. The model is a deep embedding:

- `Parse.Parser` is a datatype with one constructor per matcher or combinator
  (`Digit`, `Letter`, `Literal`, `End`, `Sequence`, `Concat`, `Map` for
  `pmap`, `Or`, `Try`, `Many`, `ManyOne`).
- `Parse.Run` interprets a parser on a string. It returns `Ok(value, rest)`
  for a returned pair, `Fail(msg)` for a raised `ParseError`, and
  `Abort(error)` for any other exception. `or_`, `try_` and `many` catch only
  `ParseError`, so `Abort` passes through all of them. The only `Abort` in the
  model is the `TypeError` that `concat`'s `"".join` raises on a truthy value
  that is not a string.
- `Parse.Value` stands for the Python values the parsers yield. These are
  strings, lists, `None`, symbols, and numbers as exact decimals
  (`Num(m, k)` is m·10^-k).
- `Run` is a total function. `many` stops when an iteration consumes nothing,
  so its loop terminates because of `Run`'s own postcondition: every `Ok`
  remainder is a suffix of the input. The recursion of `many` is on that
  remainder's length.
- `literal('')` raises `ValueError` when the parser is built. Here `Literal`
  takes a non-empty string type, and `MakeLiteral` gives the
  construction-time outcome for any string.

Files: `symbols.dfy` (the `Symbol` classes), `parse.dfy` (engine and
interpreter), `parse_laws.dfy` (what each combinator promises), and
`algebra.dfy` (symbol equality and hashing, `number` and `variable`).

## Model

| member | source | states |
|---|---|---|
| Parse.RunDigit | parsec/parse.py:106-112 | `digit` succeeds iff the input is non-empty and starts with an ASCII digit. It then returns that character and the rest after it. It fails with "empty string" on empty input and with "not a digit" otherwise. |
| Parse.RunLetter | parsec/parse.py:115-122 | `letter` succeeds iff the first character is an ASCII letter A-Z or a-z. It consumes exactly that character. It fails with "empty string" on empty input and with "not a letter" otherwise. |
| Parse.RunLiteral | parsec/parse.py:129-133 | A built literal succeeds iff the input starts with its text. It returns the text, and text + remainder is the input. Otherwise it fails with the "doesn't match literal" message. |
| Parse.MakeLiteral | parsec/parse.py:125-128 | Building a literal fails exactly for the empty string (the `ValueError`). Any other string gives a `Literal` parser for that text. |
| Parse.RunEnd | parsec/parse.py:136-140 | `end` succeeds iff the input is empty. It returns `None` and the empty remainder, and fails with "not the end of input" otherwise. |
| Parse.Truthy | parsec/parse.py:63 | Python truthiness as `filter(bool, ...)` applies it to parser values: the falsy values are exactly `None`, the empty string, the empty list and a zero number. |
| Parse.JoinTruthy | parsec/parse.py:63 | `"".join(filter(bool, values))` raises only the join's `TypeError`, and only when some truthy value is not a string. `ParseLaws.JoinTruthyLaw` gives the converse and the joined text. |
| Parse.Run | parsec/parse.py:15-30 | Every successful parser leaves a suffix of its input. This is the fact the `many` loop needs to terminate. |
| Parse.RunSeq | parsec/parse.py:44-53 | A successful `sequence` has exactly one value per parser. Its remainder is a suffix of the input. |
| Parse.RunOr | parsec/parse.py:78-90 | `or_` leaves a suffix of its input when it succeeds. The only `ParseError` it raises is "none of the given parsers apply". `ParseLaws.OrFirstNonFailure` and `ParseLaws.OrAllFail` say which alternative answers. |
| Parse.RunMany | parsec/parse.py:15-30 | The `many` loop never raises a `ParseError`, and its remainder is a suffix of the input. |
| ParseLaws.DigitLaw | parsec/parse.py:106-112 | Through the interpreter, `digit` succeeds iff the first character is a digit. It then returns that character and the input after it. |
| ParseLaws.LetterLaw | parsec/parse.py:115-122 | Through the interpreter, `letter` succeeds iff the first character is a letter. It then returns that character and the input after it. |
| ParseLaws.EndLaw | parsec/parse.py:136-140 | Through the interpreter, `end` succeeds iff the input is empty. |
| ParseLaws.LiteralCharLaw | parsec/parse.py:129-133 | A one-character literal succeeds iff the input starts with that character. It then consumes exactly that one character, and otherwise fails with its mismatch message. |
| ParseLaws.SequenceSucceeds | parsec/parse.py:44-53 | Suppose each `ps[i]` succeeds on the remainder left by `ps[i-1]`. Then `sequence` succeeds with all the values in order and the last remainder. |
| ParseLaws.SequenceStops | parsec/parse.py:44-53 | Suppose the first k parsers succeed in turn and `ps[k]` does not. Then `sequence` returns exactly `ps[k]`'s failure. |
| ParseLaws.SequenceTrace | parsec/parse.py:44-53 | Every successful `sequence` has n values and a chain of remainders in which each `ps[i]` ran on what `ps[i-1]` left. |
| ParseLaws.Sequence2 | parsec/parse.py:44-53 | This is the two-parser case of the three laws above: the first failure is returned, or else both values and the second remainder. |
| ParseLaws.SeqStep | parsec/parse.py:49-51 | A one-step unfolding of the `sequence` loop that the proofs use: when the first parser succeeds, the loop runs the rest of the parsers on its remainder and puts its value in front. |
| ParseLaws.SequenceIsLoop | parsec/parse.py:47-52 | An unfolding step that the proofs use: `sequence` wraps the list its loop built, with the loop's remainder, and does not succeed when the loop does not. |
| ParseLaws.SeqLoopTrace | parsec/parse.py:47-52 | Every success of the `sequence` loop is explained by a chain of remainders: each parser ran on what the previous one left. |
| ParseLaws.ConcatLaw | parsec/parse.py:56-64 | `concat` fails exactly when `sequence` fails, with the same failure, and aborts when `sequence` aborts. When `sequence` succeeds, `concat` succeeds iff every truthy value is a string. It then keeps `sequence`'s remainder and returns the join of the string values. Otherwise it raises the join's `TypeError`. |
| ParseLaws.JoinTruthyLaw | parsec/parse.py:63 | `"".join(filter(bool, vs))` succeeds iff every truthy value is a string. Its result is then those strings concatenated, and otherwise it raises the `TypeError`. |
| ParseLaws.MapLaw | parsec/parse.py:67-75 | `pmap(p)(f)` succeeds iff `p` succeeds. It has `p`'s remainder and `f` applied to `p`'s value, and it passes `p`'s failures through unchanged. |
| ParseLaws.OrFirstNonFailure | parsec/parse.py:78-90 | `or_` runs every alternative on the original input. It returns the result of the first alternative that does not raise a `ParseError`. |
| ParseLaws.OrAllFail | parsec/parse.py:78-90 | `or_` fails iff every alternative fails, and then with "none of the given parsers apply". |
| ParseLaws.OrResultComesFromAnAlternative | parsec/parse.py:78-90 | A success of `or_` equals the result of some alternative on the same input. Every alternative before that one failed. |
| ParseLaws.TryLaw | parsec/parse.py:93-103 | `try_` never fails. When `p` fails it returns `None` and the untouched input. Otherwise it returns `p`'s result unchanged. |
| ParseLaws.ManyStep | parsec/parse.py:23-27 | A one-step unfolding of the `many` loop that the proofs use: an iteration that succeeds and consumes input puts its value in front of what the loop does next on the remainder. |
| ParseLaws.ManyStop | parsec/parse.py:22-29 | A one-step unfolding of the `many` loop that the proofs use: an attempt that fails, or succeeds without consuming, ends the loop with no values and the input it was given. |
| ParseLaws.ManyLoopSucceeds | parsec/parse.py:19-29 | Consuming iterations followed by a stopping attempt make the loop return exactly those values and that remainder. |
| ParseLaws.ManyLoopAborts | parsec/parse.py:19-29 | Consuming iterations followed by a non-`ParseError` exception make the loop raise that exception. |
| ParseLaws.ManySucceeds | parsec/parse.py:15-30 | Suppose every iteration consumed input and the next attempt either fails or consumes nothing. Then `many` returns exactly those values and that remainder, and the last attempt's value is not kept. |
| ParseLaws.ManyAborts | parsec/parse.py:15-30 | An exception other than `ParseError` inside the loop escapes `many`. |
| ParseLaws.ManyTraceOf | parsec/parse.py:15-30 | Every result of `many` comes from iterations that each strictly shortened the input. The loop stopped on a failure or on a success that consumed nothing. |
| ParseLaws.ManyIsLoop | parsec/parse.py:15-30 | An unfolding step that the proofs use: `many` returns the loop's values as a list with the loop's remainder, and passes the loop's aborts through. |
| ParseLaws.ManyNeverFails | parsec/parse.py:15-30 | `many` never fails and leaves a suffix of its input. When `p` fails at once, it returns `([], input)`. |
| ParseLaws.ManyCountBound | parsec/parse.py:15-30 | `many` returns no more values than the number of characters it consumed. |
| ParseLaws.TraceShrinks | parsec/parse.py:24-27 | Iterations that each strictly consume input can number no more than the characters they consumed. |
| ParseLaws.ManyOneLaw | parsec/parse.py:33-41 | `manyone` fails iff the first attempt of `p` fails, and then with `p`'s failure. Otherwise it returns `[v] + many(p)(rest)`, which always has at least one element. |
| ParseLaws.ManyOneKeepsEmptyFirstMatch | parsec/parse.py:33-41 | A first success that consumes nothing is kept by `manyone`, which gives `([v], input)`. `many` returns `([], input)` on the same input. |
| Algebra.Eq | parsec/algebra.py:16-20 | Comparing a symbol gives a boolean iff the other operand is a symbol of the same class, and otherwise it is an error. The boolean is true iff the two symbols are identical, so same class and same name. |
| Algebra.EqSymmetric | parsec/algebra.py:16-20 | Comparing a with b gives the same outcome as comparing b with a. |
| Algebra.EqAcrossClassesFails | parsec/algebra.py:16-20 | A `Variable` compared with an `Operation`, and the other way round, is an error whatever the names. A `Variable` or an `Operation` compared with any value that is not a symbol is an error too. |
| Algebra.EqualSymbolsHashEqually | parsec/algebra.py:22-23 | Symbols that compare equal have equal hashes, for any string hash function. |
| Symbols.Hash | parsec/algebra.py:22-23 | This defines `__hash__`: the string hash of the symbol's name, for whatever string hash is used. Its meaning is stated by `Algebra.EqualSymbolsHashEqually` (equal symbols hash equally) and `Algebra.HashIgnoresClass`. |
| Algebra.HashIgnoresClass | parsec/algebra.py:22-23 | A `Variable` and an `Operation` with the same name hash equally, and they never compare. |
| Algebra.RunLength | parsec/algebra.py:31 | This measures the maximal run of matching characters at the front of a string. Every character of the run matches, and the next character, if any, does not. |
| Algebra.ManyOfOneChar | parsec/parse.py:15-30 | `many` over a parser that matches one character of a class takes the maximal run of that class, with one value per character. |
| Algebra.ManyOneOfOneChar | parsec/parse.py:33-41 | `manyone` over such a parser succeeds iff the first character is in the class. It then takes the same maximal run. |
| Algebra.ManyOneDigits | parsec/algebra.py:31 | `manyone(digit)` takes the maximal non-empty run of digits. |
| Algebra.FractionLaw | parsec/algebra.py:31 | `sequence(literal('.'), manyone(digit))` succeeds iff a '.' is followed by a digit. It then takes the '.' and the maximal run of digits after it. |
| Algebra.NumberGrammarLaw | parsec/algebra.py:31 | The `number` grammar takes the maximal digit run. Then it takes either the fraction, or `None` with nothing consumed when `try_` abandons the fraction. |
| Algebra.NumberValueOfText | parsec/algebra.py:35-39 | The value of `number` is the exact decimal its matched text denotes. This is `intdigits`, or `intdigits.decimaldigits` with scale equal to the number of decimal digits. |
| Algebra.NumberValue | parsec/algebra.py:32-39 | This defines the body of `number`. On the shapes its grammar produces (a list of digit strings, then `None` or a `.` and a list of digit strings) it gives the exact decimal of the digits. `Algebra.NumberValueOfText` states the mantissa and the scale. |
| Algebra.NumberLaw | parsec/algebra.py:30-39 | `number` succeeds iff the first character is a digit. It then consumes the maximal digit run, plus '.' and the maximal digit run after it when a digit follows the '.'. Its value is that text as an exact decimal. |
| Algebra.NumberRoundTrip | parsec/algebra.py:30-39 | Digits a, '.', digits b, then text that does not start with a digit parse back to the decimal a.b with that text left over. |
| Algebra.IntegerRoundTrip | parsec/algebra.py:30-39 | Digits a, then text that cannot extend the number, parse back to the integer a with that text left over. |
| Algebra.NumberAbandonsBareDot | parsec/algebra.py:31 | When the digits are followed by '.' with no digit after it, only the digits are consumed and the remainder starts with the '.', as in "12." and "12.x". |
| Algebra.NumberNeedsLeadingDigit | parsec/algebra.py:31 | `number` fails on empty input and on any input whose first character is not a digit, including '-' and '.'. |
| Algebra.IdentCharMatchesOneChar | parsec/algebra.py:43 | `or_(letter, digit, literal('_'))` matches exactly one letter, digit or '_', and yields that character. |
| Algebra.ManyIdentChars | parsec/algebra.py:43 | `many` of that parser takes the maximal run of letters, digits and '_'. |
| Algebra.VariableGrammarLaw | parsec/algebra.py:43 | The `variable` grammar succeeds iff the input starts with a letter. It yields that letter and the maximal run of identifier characters after it. |
| Algebra.VariableValueOfText | parsec/algebra.py:44-48 | The value of `variable` is a `Variable` whose name is the first letter followed by the joined rest. |
| Algebra.VariableValue | parsec/algebra.py:44-48 | This defines the body of `variable`. On the shape its grammar produces (a letter, then a list of one-character strings) it gives the `Variable` named by their concatenation. `Algebra.VariableValueOfText` states the name. |
| Algebra.VariableLaw | parsec/algebra.py:42-48 | `variable` succeeds iff the first character is a letter. The name is that letter plus the maximal run of letters, digits and '_', and the remainder does not start with any of those. |
| Algebra.VariableRoundTrip | parsec/algebra.py:42-48 | An identifier, followed by text that does not start with an identifier character, parses back to that `Variable` with that text left over. |
| Algebra.NumberExamples | parsec/algebra.py:30-39 | "12.x" gives 12 with ".x" left over, and "3.25;" gives 3.25 with ";" left over. "-1" and ".5" fail. |
| Algebra.VariableExamples | parsec/algebra.py:42-48 | "x_1+y" gives `Variable("x_1")` with "+y" left over, and "_x" and "1x" fail. |

## Left out

- `errormessage` (the decorator on `number` and `variable`) is not part of this model. It is not defined in the files modelled, so these laws cover whether `number` and `variable` succeed or fail, not the text of the failure message.
- `number` converts its text with `float(...)`. The model keeps the exact decimal mantissa·10^-scale instead of a floating-point value, so "12.50" and "12.5" have different representations for the same value. Truthiness follows the exact value too. A numeral such as "0." followed by 400 zeros and a 1 rounds to the falsy 0.0 in Python, but it is a non-zero `Num` here. So `concat` over such a value would give `""` in Python, while the model raises the join's `TypeError`.
- The `operations` table and the empty `make_operations` stub in `parsec/algebra.py` have no behaviour. No precedence or infix parsing exists in the code, so none is modelled.
- `parsec/csv.py` is not part of this model. It depends on `except_`, `return_` and `runparser`, which are not defined in the files modelled.
- `Symbol.__repr__` and the `functools.wraps` metadata in `pmap` are not modelled, because they affect printing only.
- Python exceptions are modelled as the `Fail`/`Abort` variants of `Result`, not as control flow.
- The functions that `pmap` maps (the `Map` constructor's `f`) are total Dafny functions. An exception raised inside a mapped function is not modelled. The `number` and `variable` functions cannot raise on values their own grammars produce.
- Algebra.NumberValue and Algebra.VariableValue: they are defined only on the value shapes their grammars produce, and give `None` on any other value. Python's unpacking would accept other two-element values, such as `["12", None]`, for which `number`'s body returns 12.0. Such values cannot reach these functions through `number` or `variable`, whose grammars fix the shape (see `Algebra.NumberGrammarLaw` and `Algebra.VariableGrammarLaw`).
- A bare `Symbol` (the base class itself, never built by the code) is not modelled. Only `Variable` and `Operation` exist.
- Python's string hash is opaque and enters as a parameter of `Symbols.Hash`.
- `concat`'s `if values is None` branch is not modelled, because `sequence` always returns a list and the branch is unreachable. The exact wording of the `TypeError` raised by `"".join` is not modelled either.
