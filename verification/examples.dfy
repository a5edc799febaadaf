/** The cases of `test_string_calculator.py`, each on a fresh calculator, and
    what the persistent strategy does to later calls.

    Every input is a parameter fixed by a requires clause and is taken apart
    into header and body by a lemma of its own, so that the verifier reasons
    about it through the general lemmas below instead of evaluating the
    functions on literal text. */
module CalculatorExamples {
  import opened Text
  import opened Numerals
  import opened Strategy
  import opened Calculator

  lemma NotDeclaration(s: string)
    requires |s| > 0 && s[0] != '/'
    ensures !StartsWith(s, "//")
  {
    if |s| >= 2 { assert s[..2][0] == s[0]; }
  }

  lemma Literals()
    ensures IsIntLiteral("1") && IsIntLiteral("2") && IsIntLiteral("3") && IsIntLiteral("5")
    ensures IsIntLiteral("-2") && IsIntLiteral("-3")
    ensures ParseInt("1") == Some(1) && ParseInt("2") == Some(2) && ParseInt("3") == Some(3)
    ensures ParseInt("5") == Some(5) && ParseInt("-2") == Some(-2) && ParseInt("-3") == Some(-3)
  {
    assert !IsDigit("-2"[0]) && "-2"[1..] == "2";
    assert !IsDigit("-3"[0]) && "-3"[1..] == "3";
    assert ValueOf("1") == 1 && ValueOf("2") == 2 && ValueOf("3") == 3 && ValueOf("5") == 5;
  }

  lemma ParseCons(t: string, ts: seq<string>, v: int, vs: seq<int>)
    requires ParseInt(t) == Some(v) && ParseAll(ts) == Ok(vs)
    ensures ParseAll([t] + ts) == Ok([v] + vs)
  {
    assert ([t] + ts)[0] == t && ([t] + ts)[1..] == ts;
  }

  lemma ParseOne(t: string, v: int)
    requires ParseInt(t) == Some(v)
    ensures ParseAll([t]) == Ok([v])
  {
    var none: seq<string> := [];
    assert ParseAll(none) == Ok([]);
    assert [t] == [t] + none && [v] == [v] + [];
    ParseCons(t, none, v, []);
  }

  lemma ParseTwo(a: string, b: string, x: int, y: int)
    requires ParseInt(a) == Some(x) && ParseInt(b) == Some(y)
    ensures ParseAll([a, b]) == Ok([x, y])
  {
    ParseOne(b, y);
    ParseCons(a, [b], x, [y]);
    assert [a] + [b] == [a, b] && [x] + [y] == [x, y];
  }

  lemma ParseThree(a: string, b: string, c: string, x: int, y: int, z: int)
    requires ParseInt(a) == Some(x) && ParseInt(b) == Some(y) && ParseInt(c) == Some(z)
    ensures ParseAll([a, b, c]) == Ok([x, y, z])
  {
    ParseTwo(b, c, y, z);
    ParseCons(a, [b, c], x, [y, z]);
    assert [a] + [b, c] == [a, b, c] && [x] + [y, z] == [x, y, z];
  }

  lemma Separators()
    ensures Separator(",") && Separator("\n") && Separator(";") && Separator(";;")
    ensures Separator("***") && Separator("###")
  {
    assert !IsDigit(";;"[1]) && !IsDigit("***"[1]) && !IsDigit("***"[2]);
    assert !IsDigit("###"[1]) && !IsDigit("###"[2]);
  }

  lemma SplitsIntoTwo(a: string, sep: string, b: string)
    requires IsIntLiteral(a) && IsIntLiteral(b) && Separator(sep)
    ensures DefaultSplit(a + sep + b) == [a, b]
  {
    DefaultSplitLiteral(b);
    DefaultSplitSeparated(a, sep, b);
  }

  lemma SplitsIntoThree(a: string, sep1: string, b: string, sep2: string, c: string)
    requires IsIntLiteral(a) && IsIntLiteral(b) && IsIntLiteral(c)
    requires Separator(sep1) && Separator(sep2)
    ensures DefaultSplit(a + sep1 + b + sep2 + c) == [a, b, c]
  {
    SplitsIntoTwo(b, sep2, c);
    assert a + sep1 + b + sep2 + c == a + sep1 + (b + sep2 + c);
    DefaultSplitSeparated(a, sep1, b + sep2 + c);
  }

  /** A literal followed only by a separator. */
  lemma SplitsIntoOneTrailing(a: string, sep: string)
    requires IsIntLiteral(a) && Separator(sep)
    ensures DefaultSplit(a + sep) == [a]
  {
    assert a + sep == a + sep + "";
    assert DefaultSplit("") == [];
    DefaultSplitSeparated(a, sep, "");
  }

  // ----- one call on a fresh calculator, for a body whose split is known ------

  /** An input without a declaration whose numbers are all non-negative. */
  lemma Undeclared(numbers: string, tokens: seq<string>, xs: seq<int>)
    requires |numbers| > 0 && numbers[0] != '/'
    requires DefaultSplit(numbers) == tokens && ParseAll(tokens) == Ok(xs)
    requires forall i :: 0 <= i < |xs| ==> xs[i] >= 0
    ensures AddOutcome(Default, numbers) == Returned(SumOf(xs))
  {
    NotDeclaration(numbers);
    StrategyPersistence(Default, numbers);
  }

  /** An input without a declaration holding a negative number. */
  lemma UndeclaredNegative(numbers: string, tokens: seq<string>, xs: seq<int>, message: string)
    requires |numbers| > 0 && numbers[0] != '/'
    requires DefaultSplit(numbers) == tokens && ParseAll(tokens) == Ok(xs)
    requires CheckForNegativeNumbers(xs) == Some(message)
    ensures AddOutcome(Default, numbers) == NegativeNumberError(message)
  {
    NotDeclaration(numbers);
    StrategyPersistence(Default, numbers);
  }

  /** An input "//header\nbody" whose numbers are all non-negative. */
  lemma Declared(header: string, body: string, tokens: seq<string>, xs: seq<int>)
    requires '\n' !in header && |body| > 0 && body[0] != '/'
    requires DefaultSplit(body) == tokens && ParseAll(tokens) == Ok(xs)
    requires forall i :: 0 <= i < |xs| ==> xs[i] >= 0
    ensures AddOutcome(Default, "//" + header + "\n" + body) == Returned(SumOf(xs))
  {
    NotDeclaration(body);
    HeaderStrippedBeforeRead(Default, header, body);
  }

  /** An input "//header\nbody" holding a negative number. */
  lemma DeclaredNegative(header: string, body: string, tokens: seq<string>, xs: seq<int>, message: string)
    requires '\n' !in header && |body| > 0 && body[0] != '/'
    requires DefaultSplit(body) == tokens && ParseAll(tokens) == Ok(xs)
    requires CheckForNegativeNumbers(xs) == Some(message)
    ensures AddOutcome(Default, "//" + header + "\n" + body) == NegativeNumberError(message)
  {
    NotDeclaration(body);
    HeaderStrippedBeforeRead(Default, header, body);
  }

  // ----- the splits, conversions and messages of the test inputs ---------------

  lemma ParsesOne()
    ensures ParseAll(["1"]) == Ok([1])
  {
    Literals();
    ParseOne("1", 1);
  }

  lemma ParsesOneFive()
    ensures ParseAll(["1", "5"]) == Ok([1, 5])
  {
    Literals();
    ParseTwo("1", "5", 1, 5);
  }

  lemma ParsesOneTwo()
    ensures ParseAll(["1", "2"]) == Ok([1, 2])
  {
    Literals();
    ParseTwo("1", "2", 1, 2);
  }

  lemma ParsesOneTwoThree()
    ensures ParseAll(["1", "2", "3"]) == Ok([1, 2, 3])
  {
    Literals();
    ParseThree("1", "2", "3", 1, 2, 3);
  }

  lemma ParsesOneMinusTwoThree()
    ensures ParseAll(["1", "-2", "3"]) == Ok([1, -2, 3])
  {
    Literals();
    ParseThree("1", "-2", "3", 1, -2, 3);
  }

  lemma ParsesOneMinusTwoMinusThree()
    ensures ParseAll(["1", "-2", "-3"]) == Ok([1, -2, -3])
  {
    Literals();
    ParseThree("1", "-2", "-3", 1, -2, -3);
  }

  lemma SplitEnclosed(body: string)
    requires body == ";1;2;"
    ensures DefaultSplit(body) == ["1", "2"]
  {
    Literals();
    Separators();
    var last := "2" + ";";
    var rest := "1" + ";" + last;
    assert body == ";" + rest;
    SplitsIntoOneTrailing("2", ";");
    DefaultSplitSeparated("1", ";", last);
    DefaultSplitSkipsSeparator(";", rest);
  }

  lemma SplitTrailing(body: string)
    requires body == "1;;"
    ensures DefaultSplit(body) == ["1"]
  {
    Literals();
    Separators();
    assert body == "1" + ";;";
    SplitsIntoOneTrailing("1", ";;");
  }

  lemma SplitOnlySeparators(body: string)
    requires body == ";;"
    ensures DefaultSplit(body) == []
  {
    Separators();
    assert body == body + "";
    assert DefaultSplit("") == [];
    DefaultSplitSkipsSeparator(body, "");
  }

  /** The message for a list whose negatives are `negs`, listed as `listed`. */
  lemma Message(xs: seq<int>, negs: seq<int>, listed: string)
    requires Negatives(xs) == negs && negs != []
    requires Join(ShowAll(negs), ", ") == listed
    ensures CheckForNegativeNumbers(xs) == Some(NEGATIVE_PREFIX + listed)
  {
  }

  lemma ShowsMinusTwo()
    ensures Join(ShowAll([-2]), ", ") == "-2"
  {
    assert Show(-2) == "-2";
    assert ShowAll([-2]) == ["-2"];
  }

  lemma ShowsMinusTwoMinusThree()
    ensures Join(ShowAll([-2, -3]), ", ") == "-2, -3"
  {
    assert Show(-2) == "-2" && Show(-3) == "-3";
    assert ShowAll([-2, -3]) == ["-2", "-3"];
    assert ["-2", "-3"] == ["-2"] + ["-3"];
    JoinCons("-2", ["-3"], ", ");
  }

  lemma MinusTwoText()
    ensures NEGATIVE_PREFIX + "-2" == "negative numbers not allowed: -2"
  {
  }

  lemma MinusTwoMinusThreeText()
    ensures NEGATIVE_PREFIX + "-2, -3" == "negative numbers not allowed: -2, -3"
  {
  }

  lemma MinusTwoMessage(xs: seq<int>)
    requires xs == [1, -2, 3]
    ensures CheckForNegativeNumbers(xs) == Some("negative numbers not allowed: -2")
  {
    assert Negatives(xs) == [-2] by {
      assert xs[1..] == [-2, 3] && [-2, 3][1..] == [3] && [3][1..] == [];
    }
    ShowsMinusTwo();
    Message(xs, [-2], "-2");
    MinusTwoText();
  }

  /** The message for two negatives lists both, in input order. */
  lemma TwoNegativesMessage(xs: seq<int>)
    requires xs == [1, -2, -3]
    ensures CheckForNegativeNumbers(xs) == Some("negative numbers not allowed: -2, -3")
  {
    assert Negatives(xs) == [-2, -3] by {
      assert xs[1..] == [-2, -3] && [-2, -3][1..] == [-3] && [-3][1..] == [];
    }
    ShowsMinusTwoMinusThree();
    Message(xs, [-2, -3], "-2, -3");
    MinusTwoMinusThreeText();
  }

  // ----- the bodies of the test inputs, by shape -----------------------------------

  /** A body "1" + sep + "2", with any separator between the two numbers. */
  lemma OneTwoBody(body: string, sep: string) returns (tokens: seq<string>, xs: seq<int>)
    requires Separator(sep) && body == "1" + sep + "2"
    ensures |body| > 0 && body[0] != '/'
    ensures DefaultSplit(body) == tokens && ParseAll(tokens) == Ok(xs)
    ensures forall i :: 0 <= i < |xs| ==> xs[i] >= 0
    ensures SumOf(xs) == 3
  {
    tokens, xs := ["1", "2"], [1, 2];
    Literals();
    SplitsIntoTwo("1", sep, "2");
    ParsesOneTwo();
  }

  /** A body "1" + sep1 + "2" + sep2 + "3". */
  lemma OneTwoThreeBody(body: string, sep1: string, sep2: string) returns (tokens: seq<string>, xs: seq<int>)
    requires Separator(sep1) && Separator(sep2) && body == "1" + sep1 + "2" + sep2 + "3"
    ensures |body| > 0 && body[0] != '/'
    ensures DefaultSplit(body) == tokens && ParseAll(tokens) == Ok(xs)
    ensures forall i :: 0 <= i < |xs| ==> xs[i] >= 0
    ensures SumOf(xs) == 6
  {
    tokens, xs := ["1", "2", "3"], [1, 2, 3];
    Literals();
    SplitsIntoThree("1", sep1, "2", sep2, "3");
    ParsesOneTwoThree();
  }

  /** A body "1" + sep1 + "-2" + sep2 + "3": one negative number. */
  lemma MinusTwoBody(body: string, sep1: string, sep2: string) returns (tokens: seq<string>, xs: seq<int>)
    requires Separator(sep1) && Separator(sep2) && body == "1" + sep1 + "-2" + sep2 + "3"
    ensures |body| > 0 && body[0] != '/'
    ensures DefaultSplit(body) == tokens && ParseAll(tokens) == Ok(xs)
    ensures CheckForNegativeNumbers(xs) == Some("negative numbers not allowed: -2")
  {
    tokens, xs := ["1", "-2", "3"], [1, -2, 3];
    Literals();
    SplitsIntoThree("1", sep1, "-2", sep2, "3");
    ParsesOneMinusTwoThree();
    MinusTwoMessage(xs);
  }

  /** An input "//" + h + "\n" + b, taken apart into its header line and body. */
  lemma DeclarationParts(numbers: string, h: string, b: string) returns (header: string, body: string)
    requires numbers == "//" + h + "\n" + b && '\n' !in h
    ensures numbers == "//" + header + "\n" + body
    ensures '\n' !in header && body == b
  {
    header, body := h, b;
  }

  // ----- the test cases -----------------------------------------------------------

  lemma TestEmptyString(numbers: string)
    requires numbers == ""
    ensures AddOutcome(Default, numbers) == Returned(0)
  {
  }

  lemma SingleNumberInput(numbers: string) returns (tokens: seq<string>, xs: seq<int>)
    requires numbers == "1"
    ensures |numbers| > 0 && numbers[0] != '/'
    ensures DefaultSplit(numbers) == tokens && ParseAll(tokens) == Ok(xs)
    ensures forall i :: 0 <= i < |xs| ==> xs[i] >= 0
    ensures SumOf(xs) == 1
  {
    tokens, xs := ["1"], [1];
    Literals();
    DefaultSplitLiteral(numbers);
    ParsesOne();
  }

  lemma TestSingleNumber(numbers: string)
    requires numbers == "1"
    ensures AddOutcome(Default, numbers) == Returned(1)
  {
    var tokens, xs := SingleNumberInput(numbers);
    Undeclared(numbers, tokens, xs);
  }

  lemma TwoNumbersCommaInput(numbers: string) returns (tokens: seq<string>, xs: seq<int>)
    requires numbers == "1,5"
    ensures |numbers| > 0 && numbers[0] != '/'
    ensures DefaultSplit(numbers) == tokens && ParseAll(tokens) == Ok(xs)
    ensures forall i :: 0 <= i < |xs| ==> xs[i] >= 0
    ensures SumOf(xs) == 6
  {
    tokens, xs := ["1", "5"], [1, 5];
    Literals();
    Separators();
    assert numbers == "1" + "," + "5";
    SplitsIntoTwo("1", ",", "5");
    ParsesOneFive();
  }

  lemma TestTwoNumbersComma(numbers: string)
    requires numbers == "1,5"
    ensures AddOutcome(Default, numbers) == Returned(6)
  {
    var tokens, xs := TwoNumbersCommaInput(numbers);
    Undeclared(numbers, tokens, xs);
  }

  lemma TestNumbersWithNewlineAndComma(numbers: string)
    requires numbers == "1\n2,3"
    ensures AddOutcome(Default, numbers) == Returned(6)
  {
    Separators();
    var tokens, xs := OneTwoThreeBody(numbers, "\n", ",");
    Undeclared(numbers, tokens, xs);
  }

  lemma TestCustomDelimiter(numbers: string)
    requires numbers == "//;\n1;2"
    ensures AddOutcome(Default, numbers) == Returned(3)
  {
    var header, body := DeclarationParts(numbers, ";", "1;2");
    Separators();
    var tokens, xs := OneTwoBody(body, ";");
    Declared(header, body, tokens, xs);
  }

  lemma TestExtraDelimiters(numbers: string)
    requires numbers == "//;\n1;;2"
    ensures AddOutcome(Default, numbers) == Returned(3)
  {
    var header, body := DeclarationParts(numbers, ";", "1;;2");
    Separators();
    var tokens, xs := OneTwoBody(body, ";;");
    Declared(header, body, tokens, xs);
  }

  lemma EnclosedBody(body: string) returns (tokens: seq<string>, xs: seq<int>)
    requires body == ";1;2;"
    ensures |body| > 0 && body[0] != '/'
    ensures DefaultSplit(body) == tokens && ParseAll(tokens) == Ok(xs)
    ensures forall i :: 0 <= i < |xs| ==> xs[i] >= 0
    ensures SumOf(xs) == 3
  {
    tokens, xs := ["1", "2"], [1, 2];
    SplitEnclosed(body);
    ParsesOneTwo();
  }

  lemma TestDelimitersAtStartAndEnd(numbers: string)
    requires numbers == "//;\n;1;2;"
    ensures AddOutcome(Default, numbers) == Returned(3)
  {
    var header, body := DeclarationParts(numbers, ";", ";1;2;");
    var tokens, xs := EnclosedBody(body);
    Declared(header, body, tokens, xs);
  }

  lemma TrailingBody(body: string) returns (tokens: seq<string>, xs: seq<int>)
    requires body == "1;;"
    ensures |body| > 0 && body[0] != '/'
    ensures DefaultSplit(body) == tokens && ParseAll(tokens) == Ok(xs)
    ensures forall i :: 0 <= i < |xs| ==> xs[i] >= 0
    ensures SumOf(xs) == 1
  {
    tokens, xs := ["1"], [1];
    SplitTrailing(body);
    ParsesOne();
  }

  lemma TestTrailingEmptyNumbers(numbers: string)
    requires numbers == "//;\n1;;"
    ensures AddOutcome(Default, numbers) == Returned(1)
  {
    var header, body := DeclarationParts(numbers, ";", "1;;");
    var tokens, xs := TrailingBody(body);
    Declared(header, body, tokens, xs);
  }

  lemma OnlySeparatorsBody(body: string) returns (tokens: seq<string>, xs: seq<int>)
    requires body == ";;"
    ensures |body| > 0 && body[0] != '/'
    ensures DefaultSplit(body) == tokens && ParseAll(tokens) == Ok(xs)
    ensures forall i :: 0 <= i < |xs| ==> xs[i] >= 0
    ensures SumOf(xs) == 0
  {
    tokens, xs := [], [];
    SplitOnlySeparators(body);
  }

  lemma TestEmptyInputAfterDelimiters(numbers: string)
    requires numbers == "//;\n;;"
    ensures AddOutcome(Default, numbers) == Returned(0)
  {
    var header, body := DeclarationParts(numbers, ";", ";;");
    var tokens, xs := OnlySeparatorsBody(body);
    Declared(header, body, tokens, xs);
  }

  lemma TestNegativeNumber(numbers: string)
    requires numbers == "//;\n1;-2;3"
    ensures AddOutcome(Default, numbers) == NegativeNumberError("negative numbers not allowed: -2")
  {
    var header, body := DeclarationParts(numbers, ";", "1;-2;3");
    Separators();
    var tokens, xs := MinusTwoBody(body, ";", ";");
    DeclaredNegative(header, body, tokens, xs, "negative numbers not allowed: -2");
  }

  lemma TestCustomDelimiterWithSquareBrackets(numbers: string)
    requires numbers == "//[***]\n1***2***3"
    ensures AddOutcome(Default, numbers) == Returned(6)
  {
    var header, body := DeclarationParts(numbers, "[***]", "1***2***3");
    Separators();
    var tokens, xs := OneTwoThreeBody(body, "***", "***");
    Declared(header, body, tokens, xs);
  }

  lemma TestMultipleCustomDelimiters(numbers: string)
    requires numbers == "//[***][###]\n1***2###3"
    ensures AddOutcome(Default, numbers) == Returned(6)
  {
    var header, body := DeclarationParts(numbers, "[***][###]", "1***2###3");
    Separators();
    var tokens, xs := OneTwoThreeBody(body, "***", "###");
    Declared(header, body, tokens, xs);
  }

  /** Were "[***][###]" read as a declaration, it would be one literal delimiter. */
  lemma MultipleBracketsAreOneDelimiter(numbers: string)
    requires numbers == "//[***][###]\n"
    ensures CustomDelimiterOf(numbers) == Some("***][###")
  {
    assert numbers == "//[" + "***][###" + "]" + "\n";
    BracketedDelimiter(numbers, "***][###");
  }

  lemma TestNegativeNumberInMultipleDelimiters(numbers: string)
    requires numbers == "//[***][###]\n1***-2###3"
    ensures AddOutcome(Default, numbers) == NegativeNumberError("negative numbers not allowed: -2")
  {
    var header, body := DeclarationParts(numbers, "[***][###]", "1***-2###3");
    Separators();
    var tokens, xs := MinusTwoBody(body, "***", "###");
    DeclaredNegative(header, body, tokens, xs, "negative numbers not allowed: -2");
  }

  lemma TwoNegativesInput(numbers: string) returns (tokens: seq<string>, xs: seq<int>)
    requires numbers == "1,-2,-3"
    ensures |numbers| > 0 && numbers[0] != '/'
    ensures DefaultSplit(numbers) == tokens && ParseAll(tokens) == Ok(xs)
    ensures CheckForNegativeNumbers(xs) == Some("negative numbers not allowed: -2, -3")
  {
    tokens, xs := ["1", "-2", "-3"], [1, -2, -3];
    Literals();
    Separators();
    assert numbers == "1" + "," + "-2" + "," + "-3";
    SplitsIntoThree("1", ",", "-2", ",", "-3");
    ParsesOneMinusTwoMinusThree();
    TwoNegativesMessage(xs);
  }

  /** Every negative is listed, not just the first. */
  lemma TwoNegatives(numbers: string)
    requires numbers == "1,-2,-3"
    ensures AddOutcome(Default, numbers) ==
              NegativeNumberError("negative numbers not allowed: -2, -3")
  {
    var tokens, xs := TwoNegativesInput(numbers);
    UndeclaredNegative(numbers, tokens, xs, "negative numbers not allowed: -2, -3");
  }

  // ----- the strategy persists between calls ------------------------------------

  /** A custom strategy sums an input without a declaration by splitting it
      on the delimiter, and stays in force. */
  lemma CustomUndeclaredSum(d: string, numbers: string, pieces: seq<string>, xs: seq<int>)
    requires |d| > 0 && |numbers| > 0 && numbers[0] != '/'
    requires Split(numbers, d) == pieces && ParseAll(pieces) == Ok(xs)
    requires forall i :: 0 <= i < |xs| ==> xs[i] >= 0
    ensures NextStrategy(Custom(d), numbers) == Custom(d)
    ensures AddOutcome(Custom(d), numbers) == Returned(SumOf(xs))
  {
    NotDeclaration(numbers);
    StrategyPersistence(Custom(d), numbers);
  }

  /** A piece of the split that is not an integer fails the call. */
  lemma CustomUndeclaredFails(d: string, numbers: string, pieces: seq<string>, e: ValueError)
    requires |d| > 0 && |numbers| > 0 && numbers[0] != '/'
    requires Split(numbers, d) == pieces && ParseAll(pieces) == Err(e)
    ensures NextStrategy(Custom(d), numbers) == Custom(d)
    ensures AddOutcome(Custom(d), numbers) == Failed(e)
  {
    NotDeclaration(numbers);
    StrategyPersistence(Custom(d), numbers);
  }

  /** Two pieces, neither holding the separator's first character. */
  lemma SplitPair(a: string, d: string, b: string)
    requires |d| > 0 && d[0] !in a && d[0] !in b
    ensures Split(a + d + b, d) == [a, b]
  {
    assert [a, b] == [a] + [b];
    JoinCons(a, [b], d);
    SplitJoin([a, b], d);
  }

  /** An input whose second line declares `d`: the call installs `d` and
      fails on the first piece of its body. */
  lemma Installing(numbers: string, body: string, d: string, pieces: seq<string>, e: ValueError)
    requires StartsWith(numbers, "//") && RemoveDelimitersFromInput(numbers) == body
    requires StartsWith(body, "//") && CustomDelimiterOf(body) == Some(d) && d != ""
    requires Split(body, d) == pieces && ParseAll(pieces) == Err(e)
    ensures NextStrategy(Default, numbers) == Custom(d)
    ensures AddOutcome(Default, numbers) == Failed(e)
  {
  }

  /** "//x\n//;\n1": the first line is dropped, and the second declares ";". */
  lemma InstallingInput(numbers: string) returns (body: string)
    requires numbers == "//x\n//;\n1"
    ensures StartsWith(numbers, "//")
    ensures RemoveDelimitersFromInput(numbers) == body && body == "//;\n1"
  {
    body := "//;\n1";
    assert numbers == "//" + "x" + "\n" + body;
    RemoveHeaderLine("x", body);
  }

  lemma SemicolonDeclared(body: string)
    requires body == "//;\n1"
    ensures StartsWith(body, "//") && CustomDelimiterOf(body) == Some(";")
  {
    assert body[..4] == "//" + ";" + "\n";
    PlainDelimiter(body, ";");
  }

  /** A declaration on the last line counts too: "//x\n//;" installs ";". */
  lemma LastLineDeclares(numbers: string)
    requires numbers == "//x\n//;"
    ensures NextStrategy(Default, numbers) == Custom(";")
  {
    assert numbers == "//" + "x" + "\n" + "//;";
    RemoveHeaderLine("x", "//;");
    assert "//;" == "//" + ";";
    PlainDelimiter("//;", ";");
  }

  lemma SemicolonBodyPieces(body: string) returns (pieces: seq<string>)
    requires body == "//;\n1"
    ensures Split(body, ";") == pieces && ParseAll(pieces) == Err(InvalidLiteral("//"))
  {
    pieces := ["//", "\n1"];
    assert body == "//" + ";" + "\n1";
    SplitPair("//", ";", "\n1");
    assert !IsIntLiteral("//") by { assert !IsDigit("//"[0]); }
  }

  /** The one call that installs ";" fails, yet leaves ";" installed. */
  lemma InstallSemicolon(numbers: string)
    requires numbers == "//x\n//;\n1"
    ensures NextStrategy(Default, numbers) == Custom(";")
    ensures AddOutcome(Default, numbers) == Failed(InvalidLiteral("//"))
  {
    var body := InstallingInput(numbers);
    SemicolonDeclared(body);
    var pieces := SemicolonBodyPieces(body);
    Installing(numbers, body, ";", pieces, InvalidLiteral("//"));
  }

  lemma SemicolonPair(numbers: string) returns (pieces: seq<string>, xs: seq<int>)
    requires numbers == "1;2"
    ensures |numbers| > 0 && numbers[0] != '/'
    ensures Split(numbers, ";") == pieces && ParseAll(pieces) == Ok(xs)
    ensures forall i :: 0 <= i < |xs| ==> xs[i] >= 0
    ensures SumOf(xs) == 3
  {
    pieces, xs := ["1", "2"], [1, 2];
    assert numbers == "1" + ";" + "2";
    SplitPair("1", ";", "2");
    ParsesOneTwo();
  }

  /** Afterwards a plain input is split on ";". */
  lemma SemicolonSum(numbers: string)
    requires numbers == "1;2"
    ensures NextStrategy(Custom(";"), numbers) == Custom(";")
    ensures AddOutcome(Custom(";"), numbers) == Returned(3)
  {
    var pieces, xs := SemicolonPair(numbers);
    CustomUndeclaredSum(";", numbers, pieces, xs);
  }

  lemma CommaIsNoSeparator(numbers: string) returns (pieces: seq<string>)
    requires numbers == "1,2"
    ensures |numbers| > 0 && numbers[0] != '/'
    ensures Split(numbers, ";") == pieces && ParseAll(pieces) == Err(InvalidLiteral("1,2"))
  {
    pieces := [numbers];
    assert Join(pieces, ";") == numbers;
    SplitJoin(pieces, ";");
    assert !IsIntLiteral(numbers) by { assert !IsDigit(numbers[1]); }
  }

  /** Afterwards a comma no longer separates numbers. */
  lemma CommaNoLongerSeparates(numbers: string)
    requires numbers == "1,2"
    ensures NextStrategy(Custom(";"), numbers) == Custom(";")
    ensures AddOutcome(Custom(";"), numbers) == Failed(InvalidLiteral("1,2"))
  {
    var pieces := CommaIsNoSeparator(numbers);
    CustomUndeclaredFails(";", numbers, pieces, InvalidLiteral("1,2"));
  }

  lemma DoubledDelimiterPieces(numbers: string) returns (pieces: seq<string>)
    requires numbers == "1;;2"
    ensures |numbers| > 0 && numbers[0] != '/'
    ensures Split(numbers, ";") == pieces && ParseAll(pieces) == Err(InvalidLiteral(""))
  {
    pieces := ["1", "", "2"];
    assert pieces == ["1"] + ["", "2"] && ["", "2"] == [""] + ["2"];
    JoinCons("1", ["", "2"], ";");
    JoinCons("", ["2"], ";");
    assert numbers == "1" + ";" + ("" + ";" + "2");
    SplitJoin(pieces, ";");
    Literals();
  }

  /** Afterwards a doubled delimiter leaves an empty piece, which is no number. */
  lemma DoubledDelimiterFails(numbers: string)
    requires numbers == "1;;2"
    ensures NextStrategy(Custom(";"), numbers) == Custom(";")
    ensures AddOutcome(Custom(";"), numbers) == Failed(InvalidLiteral(""))
  {
    var pieces := DoubledDelimiterPieces(numbers);
    CustomUndeclaredFails(";", numbers, pieces, InvalidLiteral(""));
  }

  /** One calculator through four calls: the declaration made by the first call
      governs the other three. */
  method PersistentStrategy() returns (first: Outcome, second: Outcome, third: Outcome, fourth: Outcome)
    ensures first == Failed(InvalidLiteral("//"))
    ensures second == Returned(3)
    ensures third == Failed(InvalidLiteral("1,2"))
    ensures fourth == Failed(InvalidLiteral(""))
  {
    var calculator := new StringCalculator();
    var input := "//x\n//;\n1";
    InstallSemicolon(input);
    first := calculator.Add(input);
    input := "1;2";
    SemicolonSum(input);
    second := calculator.Add(input);
    input := "1,2";
    CommaNoLongerSeparates(input);
    third := calculator.Add(input);
    input := "1;;2";
    DoubledDelimiterFails(input);
    fourth := calculator.Add(input);
  }
}
