/** `StringCalculator` of `string_calculator.py`: header handling, conversion,
    the negative-number check and the sum, as pure functions; the calculator
    object itself, with its persistent `delimiter_strategy` field, as a class. */
module Calculator {
  import opened Text
  import opened Numerals
  import opened Strategy

  /** What one call of `add` produces: a sum, or the exception it raises. */
  datatype Outcome =
    | Returned(sum: int)
    | NegativeNumberError(message: string)  // `NegativeNumberException(message)`
    | Failed(error: ValueError)             // `ValueError` from `str.split` or `int`

  const NEGATIVE_PREFIX := "negative numbers not allowed: "

  // ----- conversion ---------------------------------------------------------

  /** `[int(num) for num in tokens]`: stops at the first token `int` rejects. */
  function ParseAll(tokens: seq<string>): (r: Result<seq<int>>)
    ensures r.Ok? <==> forall i :: 0 <= i < |tokens| ==> IsIntLiteral(tokens[i])
    ensures r.Ok? ==> |r.value| == |tokens|
    ensures r.Ok? ==> forall i :: 0 <= i < |tokens| ==> ParseInt(tokens[i]) == Some(r.value[i])
    ensures r.Err? ==> exists i :: 0 <= i < |tokens| && r.error == InvalidLiteral(tokens[i])
                                   && !IsIntLiteral(tokens[i])
                                   && forall j :: 0 <= j < i ==> IsIntLiteral(tokens[j])
  {
    if tokens == [] then Ok([])
    else
      match ParseInt(tokens[0])
      case None => Err(InvalidLiteral(tokens[0]))
      case Some(v) =>
        var rest := ParseAll(tokens[1..]);
        assert forall i :: 1 <= i < |tokens| ==> tokens[i] == tokens[1..][i - 1];
        match rest
        case Err(e) => Err(e)
        case Ok(vs) => Ok([v] + vs)
  }

  /** `_split_numbers`: tokenise with the current strategy, then convert. */
  function SplitNumbers(strategy: DelimiterStrategy, numbers: string): (r: Result<seq<int>>)
    ensures strategy.Default? ==> r.Ok?
    ensures strategy == Custom("") ==> r == Err(EmptySeparator)
    ensures r.Ok? ==> Tokenize(strategy, numbers).Ok? && |r.value| == |Tokenize(strategy, numbers).value|
  {
    FindAllLiterals(numbers, 0);
    match Tokenize(strategy, numbers)
    case Err(e) => Err(e)
    case Ok(tokens) => ParseAll(tokens)
  }

  /** On the default strategy conversion never fails: the values are those of
      the signed runs of digits, one per run. */
  lemma DefaultConversionSucceeds(numbers: string)
    ensures var r := SplitNumbers(Default, numbers);
      r.Ok? && |r.value| == |RunTokens(numbers, 0)| &&
      forall i :: 0 <= i < |r.value| ==> ParseInt(RunTokens(numbers, 0)[i]) == Some(r.value[i])
  {
    DefaultSplitIsRuns(numbers);
    FindAllLiterals(numbers, 0);
  }

  // ----- negative numbers and the sum -----------------------------------------

  /** `[num for num in numbers if num < 0]` */
  function Negatives(xs: seq<int>): (r: seq<int>)
    ensures forall i :: 0 <= i < |r| ==> r[i] < 0 && r[i] in xs
    ensures forall i :: 0 <= i < |xs| && xs[i] < 0 ==> xs[i] in r
    ensures |r| <= |xs|
  {
    if xs == [] then []
    else (if xs[0] < 0 then [xs[0]] else []) + Negatives(xs[1..])
  }

  /** The filter keeps encounter order: it distributes over concatenation. */
  lemma {:induction false} NegativesAppend(a: seq<int>, b: seq<int>)
    ensures Negatives(a + b) == Negatives(a) + Negatives(b)
  {
    if a == [] {
      assert a + b == b;
    } else {
      var head := if a[0] < 0 then [a[0]] else [];
      assert (a + b)[0] == a[0] && (a + b)[1..] == a[1..] + b;
      NegativesAppend(a[1..], b);
      assert Negatives(a + b) == head + (Negatives(a[1..]) + Negatives(b));
      assert head + (Negatives(a[1..]) + Negatives(b)) == (head + Negatives(a[1..])) + Negatives(b);
    }
  }

  /** `map(str, vs)` */
  function ShowAll(vs: seq<int>): (r: seq<string>)
    ensures |r| == |vs|
  {
    seq(|vs|, i requires 0 <= i < |vs| => Show(vs[i]))
  }

  /** `_check_for_negative_numbers`: the exception message, if one is raised. */
  function CheckForNegativeNumbers(xs: seq<int>): (r: Option<string>)
    ensures r.Some? <==> exists i :: 0 <= i < |xs| && xs[i] < 0
    ensures r.Some? ==> StartsWith(r.value, NEGATIVE_PREFIX)
  {
    var negatives := Negatives(xs);
    if negatives == [] then None
    else Some(NEGATIVE_PREFIX + Join(ShowAll(negatives), ", "))
  }

  lemma LiteralHasNoComma(s: string)
    requires IsIntLiteral(s)
    ensures ',' !in s
  {
    forall k | 0 <= k < |s| ensures s[k] != ',' {
      if k > 0 && s[0] == '-' { assert s[1..][k - 1] == s[k]; }
    }
  }

  /** The message names every negative value, in encounter order: reading the
      text after the prefix back, piece by piece, gives exactly the negatives. */
  lemma NegativeMessageRoundTrip(xs: seq<int>)
    requires CheckForNegativeNumbers(xs).Some?
    ensures var m := CheckForNegativeNumbers(xs).value;
      ParseAll(Split(m[|NEGATIVE_PREFIX|..], ", ")) == Ok(Negatives(xs))
  {
    var negatives := Negatives(xs);
    var shown := ShowAll(negatives);
    var m := CheckForNegativeNumbers(xs).value;
    assert m[|NEGATIVE_PREFIX|..] == Join(shown, ", ");
    forall i | 0 <= i < |shown| ensures ", "[0] !in shown[i] {
      LiteralHasNoComma(shown[i]);
    }
    SplitJoin(shown, ", ");
    forall i | 0 <= i < |shown| ensures ParseInt(shown[i]) == Some(negatives[i]) {
      ParseShow(negatives[i]);
    }
    var r := ParseAll(shown);
    assert r.Ok?;
    assert r.value == negatives;
  }

  /** `sum(numbers)` */
  function SumOf(xs: seq<int>): (r: int)
    ensures (forall i :: 0 <= i < |xs| ==> xs[i] >= 0) ==> r >= 0
  {
    if xs == [] then 0 else xs[0] + SumOf(xs[1..])
  }

  // ----- the header line ------------------------------------------------------

  lemma NewlineAt(s: string, k: nat)
    ensures OccursAt(s, "\n", k) <==> k < |s| && s[k] == '\n'
  {
    if k < |s| { assert s[k..k + 1] == [s[k]]; }
  }

  /** The first line break of `s`, if any. */
  lemma FirstNewline(s: string)
    ensures IndexOf(s, "\n").None? <==> '\n' !in s
    ensures IndexOf(s, "\n").Some? ==>
      var k := IndexOf(s, "\n").value; k < |s| && s[k] == '\n' && '\n' !in s[..k]
  {
    IndexOfLeftmost(s, "\n");
    match IndexOf(s, "\n")
    case None =>
      forall k | 0 <= k < |s| ensures s[k] != '\n' { NewlineAt(s, k); }
    case Some(k) =>
      NewlineAt(s, k);
      forall j | 0 <= j < k ensures s[..k][j] != '\n' { NewlineAt(s, j); }
  }

  /** `_remove_delimiters_from_input`: drop everything up to and including the
      first line break of an input that starts with "//". */
  function RemoveDelimitersFromInput(numbers: string): (r: string)
    ensures !StartsWith(numbers, "//") ==> r == numbers
    ensures StartsWith(numbers, "//") && '\n' !in numbers ==> r == ""
    ensures StartsWith(numbers, "//") && '\n' in numbers ==>
      var h := |numbers| - |r| - 1;
      2 <= h && numbers[h] == '\n' && '\n' !in numbers[..h] && r == numbers[h + 1..]
  {
    FirstNewline(numbers);
    if StartsWith(numbers, "//") then
      match IndexOf(numbers, "\n")
      case None => ""
      case Some(k) =>
        assert numbers[0] == '/' && numbers[1] == '/';
        assert k != 0 && k != 1 by { assert numbers[k] == '\n'; }
        numbers[k + 1..]
    else numbers
  }

  /** The header removed from an input "//" + header + "\n" + body is the first line. */
  lemma RemoveHeaderLine(header: string, body: string)
    requires '\n' !in header
    ensures RemoveDelimitersFromInput("//" + header + "\n" + body) == body
  {
    var s := "//" + header + "\n" + body;
    assert s[..2] == "//";
    assert s[2 + |header|] == '\n' && s[..2 + |header|] == "//" + header;
    FirstNewline(s);
    var k := IndexOf(s, "\n").value;
    assert k == 2 + |header|;
  }

  // ----- the custom delimiter -------------------------------------------------

  /** `numbers.split("\n")[0]` starts with "//" exactly when `numbers` does. */
  lemma FirstLineHeader(numbers: string)
    ensures StartsWith(Split(numbers, "\n")[0], "//") <==> StartsWith(numbers, "//")
    ensures '\n' !in Split(numbers, "\n")[0]
  {
    FirstNewline(numbers);
    var line := Split(numbers, "\n")[0];
    match IndexOf(numbers, "\n")
    case None =>
    case Some(k) =>
      assert line == numbers[..k];
      if StartsWith(numbers, "//") {
        assert k >= 2 by { assert numbers[k] == '\n'; }
        assert line[..2] == numbers[..2];
      }
      if StartsWith(line, "//") {
        assert numbers[..2] == line[..2];
      }
  }

  /** The delimiter `_set_custom_delimiter` installs, if it installs one: the
      first line minus "//", minus one enclosing pair of square brackets. */
  function CustomDelimiterOf(numbers: string): (r: Option<string>)
    ensures r.Some? <==> StartsWith(numbers, "//")
    ensures r.Some? ==> '\n' !in r.value
  {
    FirstLineHeader(numbers);
    var line := Split(numbers, "\n")[0];
    if StartsWith(line, "//") then
      var delimiter := line[2..];
      if StartsWith(delimiter, "[") && EndsWith(delimiter, "]") then
        assert delimiter[0] == '[' && delimiter[|delimiter| - 1] == ']';
        SliceKeepsOut(line, 3, |line| - 1, '\n');
        assert delimiter[1..|delimiter| - 1] == line[3..|line| - 1];
        Some(delimiter[1..|delimiter| - 1])
      else
        SliceKeepsOut(line, 2, |line|, '\n');
        Some(delimiter)
    else None
  }

  lemma SliceKeepsOut(s: string, i: nat, j: nat, c: char)
    requires i <= j <= |s| && c !in s
    ensures c !in s[i..j]
  {
    forall k | 0 <= k < j - i ensures s[i..j][k] != c {
      assert s[i..j][k] == s[i + k];
    }
  }

  /** `line` is the first line of `numbers`: all of it, or the text before
      its first line break. */
  predicate FirstLine(numbers: string, line: string)
  {
    '\n' !in line && (numbers == line || StartsWith(numbers, line + "\n"))
  }

  /** `numbers.split("\n")[0]` is the first line, whether or not a line
      break follows it. */
  lemma FirstLineOf(numbers: string, line: string)
    requires FirstLine(numbers, line)
    ensures Split(numbers, "\n")[0] == line
  {
    FirstNewline(numbers);
    if numbers != line {
      assert numbers[..|line| + 1] == line + "\n";
      assert numbers[|line|] == '\n' && numbers[..|line|] == line;
      var k := IndexOf(numbers, "\n").value;
      assert k == |line|;
    }
  }

  /** A first line "//[x]" declares the literal delimiter `x`, brackets and
      all other characters inside it included. */
  lemma BracketedDelimiter(numbers: string, x: string)
    requires FirstLine(numbers, "//[" + x + "]")
    ensures CustomDelimiterOf(numbers) == Some(x)
  {
    var line := "//[" + x + "]";
    FirstLineOf(numbers, line);
    assert line[..2] == "//";
    assert line[2..] == "[" + x + "]";
    assert line[2..][1..|line[2..]| - 1] == x;
  }

  /** A first line "//x" whose text is not enclosed in brackets declares `x` itself. */
  lemma PlainDelimiter(numbers: string, x: string)
    requires FirstLine(numbers, "//" + x)
    requires !(StartsWith(x, "[") && EndsWith(x, "]"))
    ensures CustomDelimiterOf(numbers) == Some(x)
  {
    var line := "//" + x;
    FirstLineOf(numbers, line);
    assert line[..2] == "//";
    assert line[2..] == x;
  }

  // ----- one call of `add`, as a function of the strategy before it -----------

  /** The strategy in force after `add(numbers)`: the header line is removed
      first, and only then is a "first line" inspected for a declaration. */
  function NextStrategy(strategy: DelimiterStrategy, numbers: string): DelimiterStrategy
  {
    if numbers == "" || !StartsWith(numbers, "//") then strategy
    else
      match CustomDelimiterOf(RemoveDelimitersFromInput(numbers))
      case Some(d) => Custom(d)
      case None => strategy
  }

  /** Lines 43-49 of `add`: split, convert, check for negatives, sum. A
      conversion error propagates; otherwise the call raises exactly when a
      value is negative, with the message `_check_for_negative_numbers`
      builds, and returns the sum when none is. */
  function Evaluate(strategy: DelimiterStrategy, body: string): (r: Outcome)
    ensures SplitNumbers(strategy, body).Err? ==> r == Failed(SplitNumbers(strategy, body).error)
    ensures r.Failed? ==> SplitNumbers(strategy, body).Err?
    ensures strategy.Default? ==> !r.Failed?
    ensures r.Returned? <==>
      SplitNumbers(strategy, body).Ok? &&
      forall i :: 0 <= i < |SplitNumbers(strategy, body).value| ==> SplitNumbers(strategy, body).value[i] >= 0
    ensures r.Returned? ==> r.sum == SumOf(SplitNumbers(strategy, body).value) && r.sum >= 0
    ensures r.NegativeNumberError? <==>
      SplitNumbers(strategy, body).Ok? &&
      exists i :: 0 <= i < |SplitNumbers(strategy, body).value| && SplitNumbers(strategy, body).value[i] < 0
    ensures r.NegativeNumberError? ==>
      Some(r.message) == CheckForNegativeNumbers(SplitNumbers(strategy, body).value) &&
      StartsWith(r.message, NEGATIVE_PREFIX) &&
      ParseAll(Split(r.message[|NEGATIVE_PREFIX|..], ", ")) == Ok(Negatives(SplitNumbers(strategy, body).value))
  {
    match SplitNumbers(strategy, body)
    case Err(e) => Failed(e)
    case Ok(xs) =>
      match CheckForNegativeNumbers(xs)
      case Some(message) =>
        NegativeMessageRoundTrip(xs);
        NegativeNumberError(message)
      case None => Returned(SumOf(xs))
  }

  /** The outcome of `add(numbers)` on a calculator whose strategy is `strategy`. */
  function AddOutcome(strategy: DelimiterStrategy, numbers: string): Outcome
  {
    if numbers == "" then Returned(0)
    else Evaluate(NextStrategy(strategy, numbers), RemoveDelimitersFromInput(numbers))
  }

  /** The strategy changes only on an input whose first two lines both start
      with "//", and a custom strategy is never replaced by the default. */
  lemma StrategyPersistence(strategy: DelimiterStrategy, numbers: string)
    ensures !StartsWith(numbers, "//") ==> NextStrategy(strategy, numbers) == strategy
    ensures NextStrategy(strategy, numbers) != strategy ==>
              StartsWith(numbers, "//") && StartsWith(RemoveDelimitersFromInput(numbers), "//")
    ensures StartsWith(numbers, "//") && StartsWith(RemoveDelimitersFromInput(numbers), "//") ==>
              NextStrategy(strategy, numbers).Custom?
    ensures strategy.Custom? ==> NextStrategy(strategy, numbers).Custom?
  {
  }

  /** The header line is gone before the delimiter is looked for: an ordinary
      declaration "//x\n" followed by a body that is not itself a declaration
      leaves the strategy alone and sums the body with the strategy in force. */
  lemma HeaderStrippedBeforeRead(strategy: DelimiterStrategy, header: string, body: string)
    requires '\n' !in header
    requires !StartsWith(body, "//")
    ensures NextStrategy(strategy, "//" + header + "\n" + body) == strategy
    ensures AddOutcome(strategy, "//" + header + "\n" + body) == Evaluate(strategy, body)
  {
    RemoveHeaderLine(header, body);
  }

  /** A call that does install a custom strategy always fails: its body still
      starts with the "//" of the second line, which no piece of the split can
      turn into an integer. */
  lemma InstallingCallFails(strategy: DelimiterStrategy, numbers: string)
    requires StartsWith(numbers, "//") && StartsWith(RemoveDelimitersFromInput(numbers), "//")
    ensures AddOutcome(strategy, numbers).Failed?
  {
    var body := RemoveDelimitersFromInput(numbers);
    var d := CustomDelimiterOf(body).value;
    assert NextStrategy(strategy, numbers) == Custom(d);
    HeaderBodyDoesNotSplit(d, body);
  }

  /** Splitting a text that starts with "//" on any delimiter never yields
      integers only: either the delimiter is empty, or the first piece is
      empty or starts with '/'. */
  lemma HeaderBodyDoesNotSplit(d: string, body: string)
    requires StartsWith(body, "//")
    ensures SplitNumbers(Custom(d), body).Err?
  {
    if d != "" {
      var pieces := Split(body, d);
      assert body[0] == '/';
      match IndexOf(body, d)
      case None =>
        assert pieces[0] == body;
      case Some(k) =>
        SplitStep(body, d, k);
        assert pieces[0] == body[..k];
        assert k > 0 ==> pieces[0][0] == '/';
      assert !IsIntLiteral(pieces[0]);
    }
  }

  // ----- the calculator object ------------------------------------------------

  /** `StringCalculator`: the one piece of state is the delimiter strategy,
      which persists from one call of `add` to the next. */
  class StringCalculator {
    var delimiterStrategy: DelimiterStrategy

    constructor()
      ensures delimiterStrategy == Default
    {
      delimiterStrategy := Default;
    }

    /** `_set_custom_delimiter` */
    method SetCustomDelimiter(numbers: string)
      modifies this
      ensures CustomDelimiterOf(numbers).Some? ==>
                delimiterStrategy == Custom(CustomDelimiterOf(numbers).value)
      ensures CustomDelimiterOf(numbers).None? ==> delimiterStrategy == old(delimiterStrategy)
    {
      var delimiterPart := Split(numbers, "\n")[0];
      if StartsWith(delimiterPart, "//") {
        var delimiter := delimiterPart[2..];
        if StartsWith(delimiter, "[") && EndsWith(delimiter, "]") {
          assert delimiter[0] == '[' && delimiter[|delimiter| - 1] == ']';
          delimiter := delimiter[1..|delimiter| - 1];
        }
        delimiterStrategy := Custom(delimiter);
      }
    }

    /** `add` */
    method Add(numbers: string) returns (r: Outcome)
      modifies this
      ensures numbers == "" ==> r == Returned(0) && delimiterStrategy == old(delimiterStrategy)
      ensures delimiterStrategy == NextStrategy(old(delimiterStrategy), numbers)
      ensures r == AddOutcome(old(delimiterStrategy), numbers)
    {
      if numbers == "" {
        return Returned(0);
      }
      var body := numbers;
      if StartsWith(numbers, "//") {
        body := RemoveDelimitersFromInput(numbers);
        SetCustomDelimiter(body);
      }
      var numberList := SplitNumbers(delimiterStrategy, body);
      if numberList.Err? {
        return Failed(numberList.error);
      }
      var message := CheckForNegativeNumbers(numberList.value);
      if message.Some? {
        return NegativeNumberError(message.value);
      }
      return Returned(SumOf(numberList.value));
    }
  }
}
