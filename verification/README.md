# String calculator, modelled in Dafny

This project models `string_calculator.py`, a small string calculator. Its
`StringCalculator.add(numbers)` works in five steps:

- It removes an optional header line that starts with `//`.
- It may install a custom delimiter.
- It splits the rest with the current delimiter strategy. The default
  strategy is the regular expression `-?\d+`; the custom one is `str.split`
  on a literal delimiter.
- It converts every token with `int` and rejects negative numbers with an
  exact message.
- It returns the sum.

The one piece of state is the instance field `delimiter_strategy`, which
persists from one call to the next.

The model follows the code as written. `add` removes the header line
(line 39) before `_set_custom_delimiter` reads "the first line" (line 40). So
on an ordinary input such as `"//;\n1;2"` the custom strategy is never
installed: the body `"1;2"` is split by the default regular expression. In
the model every case of `test_string_calculator.py` still gets its expected
outcome (the `CalculatorExamples.Test*` lemmas). A custom
strategy is installed only when the second line also starts with `//`, and
that call itself always fails.

Modules:

- `Text` (text.dfy): `startswith`, `endswith`, `find`, and `str.split` /
  `str.join` on a non-empty separator.
- `Numerals` (numerals.dfy): `int(s)` and `str(n)` on ASCII decimal text.
- `Strategy` (strategy.dfy): the two delimiter strategies.
  - The default strategy is modelled as a scanner `FindAll` that behaves the
    way the regex engine runs `re.findall(r'-?\d+', …)`.
  - It is proved equal to an independent description, `RunTokens`: one token
    per maximal run of digits.
- `Calculator` (calculator.dfy):
  - conversion, the negative-number check, the sum and header removal;
  - the reading of the custom delimiter;
  - `NextStrategy` and `AddOutcome`, which give the strategy after a call and
    the outcome of the call as functions of the strategy before it;
  - the class `StringCalculator`, whose methods are proved against those two
    functions.
- `CalculatorExamples` (examples.dfy): the cases of
  `test_string_calculator.py` as lemmas about `AddOutcome`, plus a
  four-call scenario on one calculator object.

An outcome is `Returned(sum)`, `NegativeNumberError(message)` or
`Failed(error)`. `Failed` stands for the `ValueError` that `str.split("")` or
`int` raises.

## Model

| member | source | states |
|---|---|---|
| Text.IndexOfLeftmost | string_calculator.py:26 | the search that `split` performs finds the leftmost occurrence of the delimiter, and finds none only when there is none |
| Text.IndexOfFinds | string_calculator.py:26 | conversely, the leftmost occurrence is the one the search reports |
| Text.IndexOfMisses | string_calculator.py:26 | text with no occurrence of the delimiter makes the search report none |
| Text.StartsWith | string_calculator.py:38 | `s.startswith(p)`: `p` is no longer than `s` and equals its prefix of that length. A predicate; what the calculator's prefix tests imply is proved in `FirstLineHeader`, `RemoveDelimitersFromInput` and `StrategyPersistence` |
| Text.EndsWith | string_calculator.py:57 | `s.endswith(p)`: `p` is no longer than `s` and equals its suffix of that length. A predicate; its use in stripping brackets is proved in `BracketedDelimiter` and `PlainDelimiter` |
| Text.Split | string_calculator.py:26 | `str.split` on a non-empty delimiter yields at least one piece |
| Text.SplitPiecesFree | string_calculator.py:26 | no piece of a split contains the delimiter |
| Text.JoinSplit | string_calculator.py:26 | joining the pieces with the delimiter gives back the split text |
| Text.Join | string_calculator.py:80 | `d.join(pieces)`. No contract of its own; `JoinSplit` and `SplitJoin` prove it the inverse of `Split` |
| Text.CountOccurrences | string_calculator.py:26 | an independent count of the non-overlapping occurrences of the delimiter, scanning left to right. No contract of its own; `SplitCount` ties it to the number of pieces `Split` yields |
| Text.SplitCount | string_calculator.py:26 | there is one piece more than there are non-overlapping occurrences of the delimiter |
| Text.SplitJoin | string_calculator.py:26 | when no piece contains the delimiter's first character, splitting the joined pieces gives the pieces back |
| Numerals.ParseInt | string_calculator.py:74 | `int(s)` succeeds exactly on an optional '-' followed by one or more digits; a negative value comes only from text that starts with '-' |
| Numerals.Show | string_calculator.py:80 | `str(n)` is integer text that starts with '-' exactly when n is negative |
| Numerals.ParseShow | string_calculator.py:74-80 | `int(str(n)) == n` for every integer |
| Strategy.DigitRun | string_calculator.py:17 | the run `\d+` matches is all digits and cannot be extended |
| Strategy.FindAll | string_calculator.py:17 | the scan `re.findall(r'-?\d+', …)` performs from a position: at a '-' followed by a digit it takes the '-' and the digit run; at a digit, the run; otherwise it moves on. No contract of its own; `FindAllLiterals`, `FindAllIsRunTokens` and `FindAllShift` state what it yields |
| Strategy.DefaultSplit | string_calculator.py:15-17 | `DefaultDelimiterStrategy.split`: the scan from position 0. No contract of its own; `DefaultSplitIsRuns` proves it equal to the run tokens |
| Strategy.FindAllLiterals | string_calculator.py:17 | every token the default split emits is text `int` accepts |
| Strategy.FindAllIsRunTokens | string_calculator.py:17 | from every position the scanner can stand at, it emits exactly the run tokens after that position |
| Strategy.DefaultSplitIsRuns | string_calculator.py:14-17 | the default split yields one token per maximal run of digits, left to right, each carrying a '-' exactly when a '-' stands just before the run |
| Strategy.FindAllShift | string_calculator.py:17 | the scan from a position does not depend on the text before that position |
| Strategy.DefaultSplitLiteral | string_calculator.py:17 | the default split of one integer literal is that literal |
| Strategy.DefaultSplitSkipsSeparator | string_calculator.py:17 | leading separator characters (no digit, not ending in '-') are dropped by the default split |
| Strategy.DefaultSplitSeparated | string_calculator.py:17 | a literal, a separator and more text split into the literal followed by the split of the rest |
| Strategy.SeparatorsInterchangeable | string_calculator.py:17 | on the default path any separator can stand in for any other, e.g. ',' for '\n' |
| Strategy.Tokenize | string_calculator.py:14-26 | the default strategy returns the default split. A custom strategy with an empty delimiter raises `ValueError`. Otherwise its pieces join back to the input and number one more than the delimiter's occurrences |
| Calculator.ParseAll | string_calculator.py:74 | the conversion succeeds exactly when every token is integer text, keeping length and each token's value; otherwise it fails on the first token `int` rejects |
| Calculator.SplitNumbers | string_calculator.py:68-74 | `_split_numbers`: on the default strategy it never fails; a custom empty delimiter raises `ValueError` from `split`; a converted list has one value per token |
| Calculator.DefaultConversionSucceeds | string_calculator.py:68-74 | on the default strategy the conversion never fails, and yields the values of the run tokens, one per run |
| Calculator.Negatives | string_calculator.py:78 | the filter keeps exactly the negative values of the list |
| Calculator.NegativesAppend | string_calculator.py:78 | the filter keeps encounter order: it distributes over concatenation |
| Calculator.ShowAll | string_calculator.py:80 | `map(str, …)` keeps the length |
| Calculator.CheckForNegativeNumbers | string_calculator.py:76-80 | the exception is raised exactly when some value is negative, and its message starts with "negative numbers not allowed: " |
| Calculator.NegativeMessageRoundTrip | string_calculator.py:80 | reading the text after the prefix back, split on ", " and converted, gives exactly the negatives, in encounter order |
| Calculator.SumOf | string_calculator.py:49 | the sum of non-negative values is non-negative |
| Calculator.FirstNewline | string_calculator.py:64 | the search finds the first '\n' of the text, and finds none exactly when the text has none |
| Calculator.RemoveDelimitersFromInput | string_calculator.py:61-66 | input not starting with "//" is returned unchanged. Header input with no '\n' becomes "". Otherwise the result is the text after the first '\n', so nothing of the header line survives |
| Calculator.RemoveHeaderLine | string_calculator.py:61-66 | removing the header from "//" + header + "\n" + body leaves exactly the body |
| Calculator.FirstLineHeader | string_calculator.py:54-55 | the first line starts with "//" exactly when the input does, and holds no '\n' |
| Calculator.FirstLineOf | string_calculator.py:54 | the first piece of `split("\n")` is the first line: the whole input when it has no line break, otherwise the text before the first one |
| Calculator.CustomDelimiterOf | string_calculator.py:54-59 | a delimiter is read exactly when the input starts with "//", and it holds no '\n'. Which delimiter, for every possible first line, is stated by `BracketedDelimiter` and `PlainDelimiter` |
| Calculator.BracketedDelimiter | string_calculator.py:54-58 | an input whose first line is "//[x]", followed by a line break or not, declares x, with only the outer brackets removed |
| Calculator.PlainDelimiter | string_calculator.py:54-59 | an input whose first line is "//x", with x not enclosed in brackets, followed by a line break or not, declares x itself |
| Calculator.Evaluate | string_calculator.py:43-49 | a conversion error is the outcome, unchanged, and is the only way to fail; the default strategy never fails. When the tokens convert, the call returns their sum exactly when no value is negative (the sum is then non-negative), and raises otherwise, with the message `CheckForNegativeNumbers` builds: the prefix, then text that reads back as exactly the negatives |
| Calculator.NextStrategy | string_calculator.py:33-40 | the strategy in force after `add(numbers)`, as a function of the one before it. No contract of its own; `StrategyPersistence`, `HeaderStrippedBeforeRead` and `StringCalculator.Add` state what it does |
| Calculator.AddOutcome | string_calculator.py:33-49 | the outcome of `add(numbers)`, as a function of the strategy before it: 0 for the empty input, otherwise `Evaluate` of the body under `NextStrategy`. No contract of its own; `StringCalculator.Add` is proved to return it, and `HeaderStrippedBeforeRead` and `InstallingCallFails` describe it |
| Calculator.StrategyPersistence | string_calculator.py:38-40 | input not starting with "//" keeps the strategy. The strategy changes only when both the input and the text after its header start with "//", and then it becomes custom. A custom strategy is never replaced by the default |
| Calculator.HeaderStrippedBeforeRead | string_calculator.py:38-40 | "//header\nbody", with a body that is not itself a declaration, keeps the strategy and evaluates the body with the strategy in force |
| Calculator.InstallingCallFails | string_calculator.py:38-43 | the call that installs a custom strategy always ends in `ValueError` |
| Calculator.HeaderBodyDoesNotSplit | string_calculator.py:24-26 | text that starts with "//" never splits into integers on any delimiter |
| Calculator.StringCalculator.constructor | string_calculator.py:30-31 | a new calculator starts with the default strategy |
| Calculator.StringCalculator.SetCustomDelimiter | string_calculator.py:51-59 | the strategy becomes `Custom` of the declared delimiter when the first line starts with "//", and is unchanged otherwise |
| Calculator.StringCalculator.Add | string_calculator.py:33-49 | an empty input returns 0 and keeps the strategy. Every call leaves the strategy `NextStrategy` gives and returns the outcome `AddOutcome` gives |
| CalculatorExamples.TestEmptyString | test_string_calculator.py:12-13 | `add("")` returns 0 |
| CalculatorExamples.TestSingleNumber | test_string_calculator.py:15-16 | `add("1")` returns 1 |
| CalculatorExamples.TestTwoNumbersComma | test_string_calculator.py:18-19 | `add("1,5")` returns 6 |
| CalculatorExamples.TestNumbersWithNewlineAndComma | test_string_calculator.py:21-22 | `add("1\n2,3")` returns 6 |
| CalculatorExamples.TestCustomDelimiter | test_string_calculator.py:24-25 | `add("//;\n1;2")` on a fresh calculator returns 3 |
| CalculatorExamples.TestExtraDelimiters | test_string_calculator.py:27-28 | `add("//;\n1;;2")` returns 3 |
| CalculatorExamples.TestDelimitersAtStartAndEnd | test_string_calculator.py:30-31 | `add("//;\n;1;2;")` returns 3 |
| CalculatorExamples.TestTrailingEmptyNumbers | test_string_calculator.py:33-34 | `add("//;\n1;;")` returns 1 |
| CalculatorExamples.TestEmptyInputAfterDelimiters | test_string_calculator.py:36-37 | `add("//;\n;;")` returns 0 |
| CalculatorExamples.TestNegativeNumber | test_string_calculator.py:39-42 | `add("//;\n1;-2;3")` raises with the message "negative numbers not allowed: -2" |
| CalculatorExamples.TestCustomDelimiterWithSquareBrackets | test_string_calculator.py:44-45 | `add("//[***]\n1***2***3")` returns 6 |
| CalculatorExamples.TestMultipleCustomDelimiters | test_string_calculator.py:47-48 | `add("//[***][###]\n1***2###3")` returns 6 |
| CalculatorExamples.TestNegativeNumberInMultipleDelimiters | test_string_calculator.py:50-53 | `add("//[***][###]\n1***-2###3")` raises with the message "negative numbers not allowed: -2" |
| CalculatorExamples.MultipleBracketsAreOneDelimiter | string_calculator.py:56-58 | were "[***][###]" read as a declaration, it would be the single literal delimiter "***][###" |
| CalculatorExamples.LastLineDeclares | string_calculator.py:54-59 | `add("//x\n//;")` installs ";" although no line break follows the declaration |
| CalculatorExamples.TwoNegatives | string_calculator.py:78-80 | `add("1,-2,-3")` lists both negatives, in order: "negative numbers not allowed: -2, -3" |
| CalculatorExamples.InstallSemicolon | string_calculator.py:38-40 | `add("//x\n//;\n1")` installs ";" and fails on the piece "//" |
| CalculatorExamples.SemicolonSum | string_calculator.py:24-26 | afterwards `add("1;2")` splits on ";" and returns 3, keeping ";" |
| CalculatorExamples.CommaNoLongerSeparates | string_calculator.py:24-26 | afterwards `add("1,2")` fails on the piece "1,2" |
| CalculatorExamples.DoubledDelimiterFails | string_calculator.py:74 | afterwards `add("1;;2")` fails on the empty piece: empty tokens are an error, not zero |
| CalculatorExamples.PersistentStrategy | string_calculator.py:29-59 | one calculator object through those four calls in turn: the strategy installed by the first call governs the other three |

## Left out

- The `__main__` demonstration block (string_calculator.py:84-102) only prints to the console.
- The exception classes are not modelled as classes. `NegativeNumberException` (string_calculator.py:4-6) becomes the outcome `NegativeNumberError(message)`, and `ValueError` becomes `Failed(error)`.
- The abstract `DelimiterStrategy` base class and its `NotImplementedError` (string_calculator.py:9-11) are not modelled. The two strategies are the variants of one datatype.
- Numerals.ParseInt: accepts only an optional '-' followed by ASCII digits '0'..'9'. Python's `int` also accepts other Unicode decimal digits, surrounding whitespace, a leading '+' and '_' between digits; none of these are modelled.
- Strategy.FindAll: `\d` is modelled as the ASCII digits only. Python's `\d` also matches other Unicode decimal digits.
- `unittest` plumbing (`setUp`, the runner) is not modelled; each test case becomes a lemma about a fresh calculator, whose strategy is the default.
- Integers are unbounded, as Python's are, so there is no overflow to model. The one bound CPython does place on them, the digit limit below, is left out.
- Numerals.ParseInt: does not model CPython's limit on decimal conversion. Since Python 3.11 (and the security releases 3.7.14 to 3.10.7), `int` raises `ValueError` on decimal text of more than 4300 digits by default (`sys.set_int_max_str_digits` changes the limit). The model converts text of any length.
- Numerals.Show: for the same reason `str` of an integer of more than 4300 digits raises `ValueError` on CPython; the model renders it.
- Calculator.DefaultConversionSucceeds: holds only without that digit limit. On CPython a default-strategy token of more than 4300 digits makes the call raise `ValueError`.
- Calculator.Evaluate: "the default strategy never fails" and the shape of the negative-number message hold only without that digit limit. A message naming a negative of more than 4300 digits would itself raise `ValueError`.
- Nothing is read from or written to the outside world. `add` takes its input as a parameter and its outcome is a value.
- The model follows the code where its comments promise more:
  - "multiple delimiters wrapped with square brackets" (string_calculator.py:53) are read as one literal delimiter with only the outer brackets stripped;
  - the custom delimiter of an ordinary "//;\n…" input is never installed, because the header is removed first.
