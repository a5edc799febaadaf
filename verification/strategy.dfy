/** The two delimiter strategies of `string_calculator.py` and the tokens each
    produces from the numeric body. */
module Strategy {
  import opened Text
  import opened Numerals

  /** `DefaultDelimiterStrategy` or `CustomDelimiterStrategy(delimiter)`. */
  datatype DelimiterStrategy = Default | Custom(delimiter: string)

  /** The `ValueError`s the calculator can raise while splitting and converting. */
  datatype ValueError =
    | EmptySeparator             // `str.split("")`
    | InvalidLiteral(token: string)  // `int(token)` on text that is not an integer

  datatype Result<T> = Ok(value: T) | Err(error: ValueError)

  /** Length of the run of digits that starts at position `i`. */
  function DigitRunLength(s: string, i: nat): (n: nat)
    requires i <= |s|
    ensures i + n <= |s|
    decreases |s| - i
  {
    if i < |s| && IsDigit(s[i]) then 1 + DigitRunLength(s, i + 1) else 0
  }

  /** The run is all digits and cannot be extended. */
  lemma {:induction false} DigitRun(s: string, i: nat)
    requires i <= |s|
    ensures forall j :: i <= j < i + DigitRunLength(s, i) ==> IsDigit(s[j])
    ensures i + DigitRunLength(s, i) == |s| || !IsDigit(s[i + DigitRunLength(s, i)])
    decreases |s| - i
  {
    if i < |s| && IsDigit(s[i]) {
      DigitRun(s, i + 1);
    }
  }

  /** A stretch of digits followed by a non-digit or the end is the whole run. */
  lemma {:induction false} DigitRunExact(s: string, i: nat, j: nat)
    requires i <= j <= |s|
    requires forall k :: i <= k < j ==> IsDigit(s[k])
    requires j == |s| || !IsDigit(s[j])
    ensures DigitRunLength(s, i) == j - i
    decreases j - i
  {
    if i < j {
      DigitRunExact(s, i + 1, j);
    }
  }

  /** `re.findall(r'-?\d+', s[i..])` as the regex engine runs it: at each
      position try '-' followed by digits, then digits alone; on a match take
      the longest run of digits and resume after it, otherwise move on by one. */
  function FindAll(s: string, i: nat): seq<string>
    requires i <= |s|
    decreases |s| - i
  {
    if i == |s| then []
    else if s[i] == '-' && i + 1 < |s| && IsDigit(s[i + 1]) then
      var n := DigitRunLength(s, i + 1);
      [s[i..i + 1 + n]] + FindAll(s, i + 1 + n)
    else if IsDigit(s[i]) then
      var n := DigitRunLength(s, i);
      [s[i..i + n]] + FindAll(s, i + n)
    else FindAll(s, i + 1)
  }

  // The three steps of the scanner, one lemma each.

  lemma FindAllSigned(s: string, i: nat, e: nat)
    requires i + 1 < |s| && s[i] == '-' && IsDigit(s[i + 1])
    requires e == i + 1 + DigitRunLength(s, i + 1)
    ensures FindAll(s, i) == [s[i..e]] + FindAll(s, e)
  {
  }

  lemma FindAllUnsigned(s: string, i: nat, e: nat)
    requires i < |s| && IsDigit(s[i])
    requires e == i + DigitRunLength(s, i)
    ensures FindAll(s, i) == [s[i..e]] + FindAll(s, e)
  {
  }

  lemma FindAllOther(s: string, i: nat)
    requires i < |s| && !IsDigit(s[i])
    requires !(s[i] == '-' && i + 1 < |s| && IsDigit(s[i + 1]))
    ensures FindAll(s, i) == FindAll(s, i + 1)
  {
  }

  /** Every token is text `int` accepts. */
  predicate AllLiterals(tokens: seq<string>)
  {
    forall k :: 0 <= k < |tokens| ==> IsIntLiteral(tokens[k])
  }

  lemma AllLiteralsCons(t: string, rest: seq<string>)
    requires IsIntLiteral(t) && AllLiterals(rest)
    ensures AllLiterals([t] + rest)
  {
    forall k | 0 <= k < |[t] + rest| ensures IsIntLiteral(([t] + rest)[k]) {
      if k > 0 { assert ([t] + rest)[k] == rest[k - 1]; }
    }
  }

  lemma SignedRunIsLiteral(s: string, i: nat, e: nat)
    requires i + 1 < |s| && s[i] == '-' && IsDigit(s[i + 1])
    requires e == i + 1 + DigitRunLength(s, i + 1)
    ensures IsIntLiteral(s[i..e])
  {
    DigitRun(s, i + 1);
    var t := s[i..e];
    forall k | 0 <= k < |t[1..]| ensures IsDigit(t[1..][k]) {
      assert t[1..][k] == s[i + 1 + k];
    }
  }

  lemma UnsignedRunIsLiteral(s: string, i: nat, e: nat)
    requires i < |s| && IsDigit(s[i])
    requires e == i + DigitRunLength(s, i)
    ensures IsIntLiteral(s[i..e])
  {
    DigitRun(s, i);
    var t := s[i..e];
    forall k | 0 <= k < |t| ensures IsDigit(t[k]) {
      assert t[k] == s[i + k];
    }
  }

  /** Every token the scanner emits is text `int` accepts. */
  lemma {:induction false} FindAllLiterals(s: string, i: nat)
    requires i <= |s|
    ensures AllLiterals(FindAll(s, i))
    decreases |s| - i
  {
    if i == |s| {
    } else if s[i] == '-' && i + 1 < |s| && IsDigit(s[i + 1]) {
      var e := i + 1 + DigitRunLength(s, i + 1);
      FindAllSigned(s, i, e);
      FindAllLiterals(s, e);
      SignedRunIsLiteral(s, i, e);
      AllLiteralsCons(s[i..e], FindAll(s, e));
    } else if IsDigit(s[i]) {
      var e := i + DigitRunLength(s, i);
      FindAllUnsigned(s, i, e);
      FindAllLiterals(s, e);
      UnsignedRunIsLiteral(s, i, e);
      AllLiteralsCons(s[i..e], FindAll(s, e));
    } else {
      FindAllOther(s, i);
      FindAllLiterals(s, i + 1);
    }
  }

  /** `DefaultDelimiterStrategy.split` */
  function DefaultSplit(numbers: string): seq<string>
  {
    FindAll(numbers, 0)
  }

  // An independent description of the default split: one token per maximal
  // run of digits, left to right, carrying the '-' that stands just before it.

  /** Position `j` begins a maximal run of digits. */
  predicate RunStart(s: string, j: nat)
  {
    j < |s| && IsDigit(s[j]) && (j == 0 || !IsDigit(s[j - 1]))
  }

  /** The token for the run beginning at `j`: the run, with the preceding
      character prepended exactly when that character is '-'. */
  function TokenAt(s: string, j: nat): string
    requires j < |s|
  {
    var n := DigitRunLength(s, j);
    if j > 0 && s[j - 1] == '-' then s[j - 1..j + n] else s[j..j + n]
  }

  /** The tokens of all runs that begin at or after `i`, in order. */
  function RunTokens(s: string, i: nat): seq<string>
    requires i <= |s|
    decreases |s| - i
  {
    if i == |s| then []
    else (if RunStart(s, i) then [TokenAt(s, i)] else []) + RunTokens(s, i + 1)
  }

  /** Positions the scanner can stand at: never in the middle of a run of
      digits and never just after a '-' that could have opened a match. */
  predicate ScanPosition(s: string, i: nat)
  {
    i <= |s| &&
    (0 < i < |s| && IsDigit(s[i]) ==> !IsDigit(s[i - 1]) && s[i - 1] != '-')
  }

  lemma {:induction false} RunTokensSkip(s: string, a: nat, b: nat)
    requires a <= b <= |s|
    requires forall j :: a <= j < b ==> !RunStart(s, j)
    ensures RunTokens(s, a) == RunTokens(s, b)
    decreases b - a
  {
    if a < b {
      assert !RunStart(s, a);
      assert RunTokens(s, a) == RunTokens(s, a + 1);
      RunTokensSkip(s, a + 1, b);
    }
  }

  /** Inside a run of digits no further run begins. */
  lemma SkipRun(s: string, j: nat)
    requires j < |s| && IsDigit(s[j])
    ensures RunTokens(s, j + 1) == RunTokens(s, j + DigitRunLength(s, j))
  {
    var n := DigitRunLength(s, j);
    DigitRun(s, j);
    forall k | j + 1 <= k < j + n ensures !RunStart(s, k) {
      assert IsDigit(s[k - 1]);
    }
    RunTokensSkip(s, j + 1, j + n);
  }

  /** A '-' followed by a digit: both descriptions emit the signed run. */
  lemma SignedRunStep(s: string, i: nat, e: nat)
    requires i + 1 < |s| && s[i] == '-' && IsDigit(s[i + 1])
    requires e == i + 1 + DigitRunLength(s, i + 1)
    ensures RunTokens(s, i) == [s[i..e]] + RunTokens(s, e)
  {
    assert !RunStart(s, i) && RunStart(s, i + 1);
    assert RunTokens(s, i) == RunTokens(s, i + 1);
    assert TokenAt(s, i + 1) == s[i..e];
    SkipRun(s, i + 1);
    assert RunTokens(s, i + 1) == [s[i..e]] + RunTokens(s, i + 2);
  }

  /** A digit the scanner stands on opens an unsigned run. */
  lemma UnsignedRunStep(s: string, i: nat, e: nat)
    requires ScanPosition(s, i) && i < |s| && IsDigit(s[i])
    requires e == i + DigitRunLength(s, i)
    ensures RunTokens(s, i) == [s[i..e]] + RunTokens(s, e)
  {
    assert RunStart(s, i);
    assert TokenAt(s, i) == s[i..e];
    SkipRun(s, i);
    assert RunTokens(s, i) == [s[i..e]] + RunTokens(s, i + 1);
  }

  /** The scanner resumes at a position it can stand at. */
  lemma ScanAfterRun(s: string, i: nat)
    requires i <= |s|
    ensures ScanPosition(s, i + DigitRunLength(s, i))
  {
    DigitRun(s, i);
  }

  lemma {:induction false} RunsSigned(s: string, i: nat)
    requires i + 1 < |s| && s[i] == '-' && IsDigit(s[i + 1])
    ensures FindAll(s, i) == RunTokens(s, i)
    decreases |s| - i, 0
  {
    var e := i + 1 + DigitRunLength(s, i + 1);
    ScanAfterRun(s, i + 1);
    FindAllSigned(s, i, e);
    SignedRunStep(s, i, e);
    FindAllIsRunTokens(s, e);
  }

  lemma {:induction false} RunsUnsigned(s: string, i: nat)
    requires ScanPosition(s, i) && i < |s| && IsDigit(s[i])
    ensures FindAll(s, i) == RunTokens(s, i)
    decreases |s| - i, 0
  {
    var e := i + DigitRunLength(s, i);
    ScanAfterRun(s, i);
    FindAllUnsigned(s, i, e);
    UnsignedRunStep(s, i, e);
    FindAllIsRunTokens(s, e);
  }

  lemma {:induction false} RunsOther(s: string, i: nat)
    requires i < |s| && !IsDigit(s[i])
    requires !(s[i] == '-' && i + 1 < |s| && IsDigit(s[i + 1]))
    ensures FindAll(s, i) == RunTokens(s, i)
    decreases |s| - i, 0
  {
    FindAllOther(s, i);
    assert !RunStart(s, i);
    FindAllIsRunTokens(s, i + 1);
  }

  /** From any position the scanner can stand at, it emits the run tokens. */
  lemma {:induction false} FindAllIsRunTokens(s: string, i: nat)
    requires ScanPosition(s, i)
    ensures FindAll(s, i) == RunTokens(s, i)
    decreases |s| - i, 1
  {
    if i == |s| {
    } else if s[i] == '-' && i + 1 < |s| && IsDigit(s[i + 1]) {
      RunsSigned(s, i);
    } else if IsDigit(s[i]) {
      RunsUnsigned(s, i);
    } else {
      RunsOther(s, i);
    }
  }

  /** The default split yields exactly one token per maximal run of digits,
      left to right, each signed iff a '-' stands right before its run. */
  lemma DefaultSplitIsRuns(numbers: string)
    ensures DefaultSplit(numbers) == RunTokens(numbers, 0)
  {
    FindAllIsRunTokens(numbers, 0);
  }

  // ----- the default split on composed inputs ---------------------------------

  lemma {:induction false} DigitRunLengthShift(x: string, y: string, i: nat)
    requires i <= |y|
    ensures DigitRunLength(x + y, |x| + i) == DigitRunLength(y, i)
    decreases |y| - i
  {
    if i < |y| {
      assert (x + y)[|x| + i] == y[i];
      DigitRunLengthShift(x, y, i + 1);
    }
  }

  lemma SliceShift(x: string, y: string, a: nat, b: nat)
    requires a <= b <= |y|
    ensures (x + y)[|x| + a..|x| + b] == y[a..b]
  {
    forall k | 0 <= k < b - a ensures (x + y)[|x| + a..|x| + b][k] == y[a..b][k] {
      assert (x + y)[|x| + a + k] == y[a + k];
    }
  }

  /** One signed step of the scanner over `x + y`, in terms of `y`. */
  lemma SignedStepShift(x: string, y: string, i: nat, e: nat)
    requires i + 1 < |y| && y[i] == '-' && IsDigit(y[i + 1])
    requires e == i + 1 + DigitRunLength(y, i + 1)
    ensures FindAll(x + y, |x| + i) == [y[i..e]] + FindAll(x + y, |x| + e)
  {
    var s, p := x + y, |x| + i;
    DigitRunLengthShift(x, y, i + 1);
    assert |x| + (i + 1) == p + 1;
    assert s[p] == y[i] && s[p + 1] == y[i + 1];
    FindAllSigned(s, p, |x| + e);
    SliceShift(x, y, i, e);
  }

  lemma {:induction false} ShiftSigned(x: string, y: string, i: nat)
    requires i + 1 < |y| && y[i] == '-' && IsDigit(y[i + 1])
    ensures FindAll(x + y, |x| + i) == FindAll(y, i)
    decreases |y| - i, 0
  {
    var e := i + 1 + DigitRunLength(y, i + 1);
    SignedStepShift(x, y, i, e);
    FindAllSigned(y, i, e);
    FindAllShift(x, y, e);
  }

  /** One unsigned step of the scanner over `x + y`, in terms of `y`. */
  lemma UnsignedStepShift(x: string, y: string, i: nat, e: nat)
    requires i < |y| && IsDigit(y[i])
    requires e == i + DigitRunLength(y, i)
    ensures FindAll(x + y, |x| + i) == [y[i..e]] + FindAll(x + y, |x| + e)
  {
    var s, p := x + y, |x| + i;
    DigitRunLengthShift(x, y, i);
    assert s[p] == y[i];
    FindAllUnsigned(s, p, |x| + e);
    SliceShift(x, y, i, e);
  }

  lemma {:induction false} ShiftUnsigned(x: string, y: string, i: nat)
    requires i < |y| && IsDigit(y[i])
    ensures FindAll(x + y, |x| + i) == FindAll(y, i)
    decreases |y| - i, 0
  {
    var e := i + DigitRunLength(y, i);
    UnsignedStepShift(x, y, i, e);
    FindAllUnsigned(y, i, e);
    FindAllShift(x, y, e);
  }

  lemma {:induction false} ShiftOther(x: string, y: string, i: nat)
    requires i < |y| && !IsDigit(y[i])
    requires !(y[i] == '-' && i + 1 < |y| && IsDigit(y[i + 1]))
    ensures FindAll(x + y, |x| + i) == FindAll(y, i)
    decreases |y| - i, 0
  {
    var s, p := x + y, |x| + i;
    assert s[p] == y[i];
    if i + 1 < |y| { assert s[p + 1] == y[i + 1]; }
    FindAllOther(s, p);
    FindAllOther(y, i);
    assert |x| + (i + 1) == p + 1;
    FindAllShift(x, y, i + 1);
  }

  /** The scanner looks only ahead: what lies before its position is irrelevant. */
  lemma {:induction false} FindAllShift(x: string, y: string, i: nat)
    requires i <= |y|
    ensures FindAll(x + y, |x| + i) == FindAll(y, i)
    decreases |y| - i, 1
  {
    if i == |y| {
    } else if y[i] == '-' && i + 1 < |y| && IsDigit(y[i + 1]) {
      ShiftSigned(x, y, i);
    } else if IsDigit(y[i]) {
      ShiftUnsigned(x, y, i);
    } else {
      ShiftOther(x, y, i);
    }
  }

  /** Text that separates numbers on the default path: no digit in it, and it
      does not end in a '-' that would sign the number after it. */
  predicate Separator(sep: string)
  {
    |sep| > 0 && (forall j :: 0 <= j < |sep| ==> !IsDigit(sep[j])) && sep[|sep| - 1] != '-'
  }

  lemma {:induction false} SkipSeparator(s: string, a: nat, b: nat)
    requires a <= b <= |s|
    requires forall j :: a <= j < b ==> !IsDigit(s[j])
    requires forall j :: a <= j < b && s[j] == '-' ==> j + 1 < b
    ensures FindAll(s, a) == FindAll(s, b)
    decreases b - a
  {
    if a < b {
      SkipSeparator(s, a + 1, b);
    }
  }

  /** A literal at the front of the text is found whole when what follows it
      is not a digit. */
  lemma LiteralFirst(t: string, rest: string)
    requires IsIntLiteral(t)
    requires rest == [] || !IsDigit(rest[0])
    ensures FindAll(t + rest, 0) == [t] + FindAll(t + rest, |t|)
  {
    var s := t + rest;
    assert s[..|t|] == t;
    assert |t| == |s| || !IsDigit(s[|t|]);
    if t[0] == '-' {
      assert IsDigit(t[1..][0]);
      forall j | 1 <= j < |t| ensures IsDigit(s[j]) { assert s[j] == t[1..][j - 1]; }
      DigitRunExact(s, 1, |t|);
      FindAllSigned(s, 0, |t|);
    } else {
      forall j | 0 <= j < |t| ensures IsDigit(s[j]) { assert s[j] == t[j]; }
      DigitRunExact(s, 0, |t|);
      FindAllUnsigned(s, 0, |t|);
    }
  }

  /** The default split of a single integer literal is that literal. */
  lemma DefaultSplitLiteral(t: string)
    requires IsIntLiteral(t)
    ensures DefaultSplit(t) == [t]
  {
    LiteralFirst(t, "");
    assert t + "" == t;
  }

  /** Leading separators are dropped by the default split. */
  lemma DefaultSplitSkipsSeparator(sep: string, rest: string)
    requires Separator(sep)
    ensures DefaultSplit(sep + rest) == DefaultSplit(rest)
  {
    var s := sep + rest;
    forall j | 0 <= j < |sep| ensures s[j] == sep[j] { }
    SkipSeparator(s, 0, |sep|);
    FindAllShift(sep, rest, 0);
  }

  /** A literal, a separator, then more text: the literal comes first and the
      separator leaves no trace. */
  lemma DefaultSplitSeparated(t: string, sep: string, rest: string)
    requires IsIntLiteral(t) && Separator(sep)
    ensures DefaultSplit(t + sep + rest) == [t] + DefaultSplit(rest)
  {
    var s := t + sep + rest;
    assert s == t + (sep + rest);
    assert (sep + rest)[0] == sep[0];
    LiteralFirst(t, sep + rest);
    FindAllShift(t, sep + rest, 0);
    DefaultSplitSkipsSeparator(sep, rest);
  }

  /** Any two separators are interchangeable on the default path. */
  lemma SeparatorsInterchangeable(t: string, sep1: string, sep2: string, rest: string)
    requires IsIntLiteral(t) && Separator(sep1) && Separator(sep2)
    ensures DefaultSplit(t + sep1 + rest) == DefaultSplit(t + sep2 + rest)
  {
    DefaultSplitSeparated(t, sep1, rest);
    DefaultSplitSeparated(t, sep2, rest);
  }

  /** `delimiter_strategy.split(numbers)`; a custom strategy with an empty
      delimiter raises as Python's `str.split("")` does. */
  function Tokenize(strategy: DelimiterStrategy, numbers: string): (r: Result<seq<string>>)
    ensures strategy.Default? ==> r == Ok(DefaultSplit(numbers))
    ensures strategy.Custom? && strategy.delimiter == "" ==> r == Err(EmptySeparator)
    ensures strategy.Custom? && strategy.delimiter != "" ==>
              r.Ok? && Join(r.value, strategy.delimiter) == numbers &&
              |r.value| == CountOccurrences(numbers, strategy.delimiter) + 1
  {
    match strategy
    case Default => Ok(DefaultSplit(numbers))
    case Custom(d) =>
      if d == "" then Err(EmptySeparator)
      else
        JoinSplit(numbers, d);
        SplitCount(numbers, d);
        Ok(Split(numbers, d))
  }
}
