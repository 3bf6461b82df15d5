/**
 * Bridge repair (day 7). A line `target: n1 n2 ...` is an equation; it is
 * solvable when some choice of `+` and `*` between the operands, evaluated
 * strictly from left to right, gives the target. All 2^(n-1) choices are
 * enumerated by a bitmask, and the targets of solvable equations are summed.
 */
module BridgeRepair {
  import opened Wrappers
  import opened Text

  datatype Equation = Equation(testValue: int, numbers: seq<int>)

  // ---------------------------------------------------------------- parsing

  /**
   * `Equation::parse`: exactly one ':' (two parts), an `i64` before it, and
   * whitespace-separated `i64`s after it; any failure gives `None`.
   */
  function Parse(line: string): (r: Option<Equation>)
    ensures r.Some? ==> FitsI64(r.value)
  {
    var parts := SplitOn(line, ":");
    if |parts| != 2 then None else ParseParts(parts[0], parts[1])
  }

  /** The part before the ':' is the test value, the part after it the operands. */
  function ParseParts(head: string, tail: string): (r: Option<Equation>)
    ensures r.Some? ==> FitsI64(r.value)
  {
    Assemble(ParseInt(Trim(head), I64Min, I64Max), ParseAll(Words(Trim(tail)), I64Min, I64Max))
  }

  /** The equation of a parsed test value and parsed operands, if both parsed. */
  function Assemble(testValue: Option<int>, numbers: Option<seq<int>>): (r: Option<Equation>)
    requires testValue.Some? ==> I64Min <= testValue.value <= I64Max
    requires numbers.Some? ==> forall i | 0 <= i < |numbers.value| :: I64Min <= numbers.value[i] <= I64Max
    ensures r.Some? ==> FitsI64(r.value)
  {
    if testValue.Some? && numbers.Some? then Some(Equation(testValue.value, numbers.value)) else None
  }

  /** A line without exactly one ':' is not an equation. */
  lemma ParseNeedsOneColon(line: string)
    requires Occurrences(line, ':') != 1
    ensures Parse(line) == None
  {
    SplitOnChar(line, ':');
  }

  /**
   * A line with one ':' parses exactly when the trimmed part before it is an
   * `i64` and every word of the trimmed part after it is an `i64`; a target
   * or an operand that is not an integer gives `None`.
   */
  lemma ParseIffPartsParse(line: string, head: string, tail: string)
    requires SplitOn(line, ":") == [head, tail]
    ensures Parse(line).Some? <==>
      && ParseInt(Trim(head), I64Min, I64Max).Some?
      && forall i | 0 <= i < |Words(Trim(tail))| :: ParseInt(Words(Trim(tail))[i], I64Min, I64Max).Some?
  {
    ParseOfParts(line, head, tail);
    ParseAllMeans(Words(Trim(tail)), I64Min, I64Max);
    assert ParseParts(head, tail) ==
      Assemble(ParseInt(Trim(head), I64Min, I64Max), ParseAll(Words(Trim(tail)), I64Min, I64Max));
  }

  /** How an equation is written in the puzzle input. */
  function Format(eq: Equation): string {
    IntToString(eq.testValue) + ": " + Join(Numerals(eq.numbers), " ")
  }

  predicate FitsI64(eq: Equation) {
    && I64Min <= eq.testValue <= I64Max
    && forall i | 0 <= i < |eq.numbers| :: I64Min <= eq.numbers[i] <= I64Max
  }

  /** Numerals joined by spaces start and end with a digit and hold no ':'. */
  lemma {:induction false} JoinedWords(ws: seq<string>)
    requires forall i | 0 <= i < |ws| :: ws[i] != [] && NoWhitespace(ws[i]) && NumeralChars(ws[i])
    ensures ':' !in Join(ws, " ")
    ensures ws != [] ==> Join(ws, " ") != [] && !IsWhitespace(Join(ws, " ")[0]) && !IsWhitespace(Join(ws, " ")[|Join(ws, " ")| - 1])
    decreases |ws|
  {
    assert forall i | 0 <= i < |ws| :: ':' !in ws[i];
    if |ws| > 1 {
      JoinedWords(ws[1..]);
      var j := Join(ws, " ");
      assert j == ws[0] + " " + Join(ws[1..], " ");
      assert j[0] == ws[0][0];
      assert j[|j| - 1] == Join(ws[1..], " ")[|Join(ws[1..], " ")| - 1];
    }
  }

  /** Splitting a formatted equation at ':' gives the numeral of the target and the rest. */
  lemma FormatParts(eq: Equation)
    requires FitsI64(eq)
    ensures SplitOn(Format(eq), ":") == [IntToString(eq.testValue), " " + Join(Numerals(eq.numbers), " ")]
  {
    var t := IntToString(eq.testValue);
    var rest := " " + Join(Numerals(eq.numbers), " ");
    NumeralsParse(eq.numbers, I64Min, I64Max);
    IntToStringChars(eq.testValue);
    JoinedWords(Numerals(eq.numbers));
    assert Format(eq) == t + [':'] + rest;
    assert ':' !in rest;
    SplitOnFirst(t, ':', rest);
    SplitOnAbsent(rest, ':');
  }

  /** Trimming the two parts of a formatted equation changes only the space after ':'. */
  lemma FormatTrims(eq: Equation)
    requires FitsI64(eq)
    ensures Trim(IntToString(eq.testValue)) == IntToString(eq.testValue)
    ensures Trim(" " + Join(Numerals(eq.numbers), " ")) == Join(Numerals(eq.numbers), " ")
  {
    ParseIntToString(eq.testValue, I64Min, I64Max);
    TrimUnchanged(IntToString(eq.testValue));
    NumeralsParse(eq.numbers, I64Min, I64Max);
    JoinedWords(Numerals(eq.numbers));
    TrimAfterSpace(Join(Numerals(eq.numbers), " "));
  }

  /** Parsing what `Format` writes gives back the equation. */
  lemma ParseFormat(eq: Equation)
    requires FitsI64(eq)
    ensures Parse(Format(eq)) == Some(eq)
  {
    var t := IntToString(eq.testValue);
    var rest := " " + Join(Numerals(eq.numbers), " ");
    FormatParts(eq);
    FormatTrims(eq);
    ParseIntToString(eq.testValue, I64Min, I64Max);
    ParseJoinedNumerals(eq.numbers);
    ParsePartsOf(t, rest, eq.testValue, eq.numbers);
    ParseOfParts(Format(eq), t, rest);
  }

  /** A line split at its one ':' parses as its two parts do. */
  lemma ParseOfParts(line: string, head: string, tail: string)
    requires SplitOn(line, ":") == [head, tail]
    ensures Parse(line) == ParseParts(head, tail)
  {
  }

  /** Two parts that parse give the equation of their values. */
  lemma ParsePartsOf(head: string, tail: string, testValue: int, numbers: seq<int>)
    requires ParseInt(Trim(head), I64Min, I64Max) == Some(testValue)
    requires ParseAll(Words(Trim(tail)), I64Min, I64Max) == Some(numbers)
    ensures ParseParts(head, tail) == Some(Equation(testValue, numbers))
  {
  }

  /** The operands written by `Format` parse back. */
  lemma ParseJoinedNumerals(ns: seq<int>)
    requires forall i | 0 <= i < |ns| :: I64Min <= ns[i] <= I64Max
    ensures ParseAll(Words(Join(Numerals(ns), " ")), I64Min, I64Max) == Some(ns)
  {
    NumeralsParse(ns, I64Min, I64Max);
    WordsJoin(Numerals(ns));
  }

  /** The line of the test: `"190: 10 19"` parses to 190 and [10, 19]. */
  lemma ParseExample()
    ensures Parse("190: 10 19") == Some(Equation(190, [10, 19]))
  {
    var eq := Equation(190, [10, 19]);
    assert NatToString(1) == "1" && NatToString(19) == "19" && NatToString(190) == "190";
    assert NatToString(10) == "10";
    assert IntToString(190) == "190" && IntToString(10) == "10" && IntToString(19) == "19";
    assert Numerals(eq.numbers) == ["10", "19"];
    assert Format(eq) == "190: 10 19";
    ParseFormat(eq);
  }

  // ---------------------------------------------------------------- evaluation

  predicate IsOperator(c: char) {
    c == '+' || c == '*'
  }

  predicate ValidOps(ops: seq<char>) {
    forall i | 0 <= i < |ops| :: IsOperator(ops[i])
  }

  /**
   * The value of `numbers[0] op0 numbers[1] op1 ...`, taken strictly from left
   * to right: the last operator applies to everything before it.
   */
  function Eval(numbers: seq<int>, ops: seq<char>): int
    requires |ops| < |numbers| && ValidOps(ops)
    decreases |ops|
  {
    if ops == [] then numbers[0]
    else
      var acc := Eval(numbers, ops[..|ops| - 1]);
      if ops[|ops| - 1] == '+' then acc + numbers[|ops|] else acc * numbers[|ops|]
  }

  /** The test of `evaluate`, and left-to-right order without precedence. */
  lemma EvalExamples()
    ensures Eval([10, 19], ['*']) == 190
    ensures Eval([10, 19], ['+']) == 29
    ensures Eval([2, 3, 4], ['+', '*']) == 20
  {
    assert ['+', '*'][..1] == ['+'];
  }

  /** `Equation::evaluate`. */
  method Evaluate(eq: Equation, operators: seq<char>) returns (result: int)
    requires 0 < |eq.numbers| && |operators| < |eq.numbers|
    requires ValidOps(operators)
    ensures result == Eval(eq.numbers, operators)
  {
    result := eq.numbers[0];
    var i := 0;
    while i < |operators|
      invariant 0 <= i <= |operators|
      invariant result == Eval(eq.numbers, operators[..i])
    {
      assert operators[..i + 1][..i] == operators[..i];
      if operators[i] == '+' {
        result := result + eq.numbers[i + 1];
      } else {
        result := result * eq.numbers[i + 1];
      }
      i := i + 1;
    }
    assert operators[..i] == operators;
  }

  // ---------------------------------------------------------------- enumeration

  function Pow2(n: nat): (r: nat)
    ensures r >= 1
  {
    if n == 0 then 1 else 2 * Pow2(n - 1)
  }

  /** Bit `j` of a non-negative mask: `(m >> j) & 1`. */
  function Bit(m: nat, j: nat): (b: nat)
    ensures b < 2
    decreases j
  {
    if j == 0 then m % 2 else Bit(m / 2, j - 1)
  }

  /** The operators that mask `m` stands for: bit `j` clear is '+', set is '*'. */
  function Combination(m: nat, k: nat): (ops: seq<char>)
    ensures |ops| == k && ValidOps(ops)
  {
    seq(k, j requires 0 <= j < k => if Bit(m, j) == 0 then '+' else '*')
  }

  /** The mask that stands for `ops`. */
  function MaskOf(ops: seq<char>): nat
    decreases |ops|
  {
    if ops == [] then 0 else (if ops[0] == '*' then 1 else 0) + 2 * MaskOf(ops[1..])
  }

  lemma {:induction false} MaskOfBound(ops: seq<char>)
    ensures MaskOf(ops) < Pow2(|ops|)
    decreases |ops|
  {
    if ops != [] {
      MaskOfBound(ops[1..]);
    }
  }

  lemma {:induction false} BitsOfMask(ops: seq<char>, j: nat)
    requires j < |ops|
    ensures Bit(MaskOf(ops), j) == if ops[j] == '*' then 1 else 0
    decreases j
  {
    var b := if ops[0] == '*' then 1 else 0;
    assert MaskOf(ops) / 2 == MaskOf(ops[1..]);
    if j > 0 {
      BitsOfMask(ops[1..], j - 1);
    }
  }

  /** Every operator sequence over '+' and '*' is the combination of its mask. */
  lemma CombinationOfMask(ops: seq<char>)
    requires ValidOps(ops)
    ensures MaskOf(ops) < Pow2(|ops|)
    ensures Combination(MaskOf(ops), |ops|) == ops
  {
    MaskOfBound(ops);
    forall j | 0 <= j < |ops| ensures Combination(MaskOf(ops), |ops|)[j] == ops[j] {
      BitsOfMask(ops, j);
    }
  }

  /** Every mask below 2^k is the mask of its combination: no two masks give the same operators. */
  lemma {:induction false} MaskOfCombination(m: nat, k: nat)
    requires m < Pow2(k)
    ensures MaskOf(Combination(m, k)) == m
    decreases k
  {
    if k > 0 {
      var c := Combination(m, k);
      assert c[1..] == Combination(m / 2, k - 1);
      MaskOfCombination(m / 2, k - 1);
    }
  }

  /** The satisfying combinations among the masks below `m`, in ascending mask order. */
  function ValidUpTo(eq: Equation, m: nat): seq<seq<char>>
    requires 0 < |eq.numbers|
    decreases m
  {
    if m == 0 then []
    else
      var c := Combination(m - 1, |eq.numbers| - 1);
      ValidUpTo(eq, m - 1) + (if Eval(eq.numbers, c) == eq.testValue then [c] else [])
  }

  /** What `find_valid_combinations` returns. */
  function ValidCombinations(eq: Equation): seq<seq<char>>
    requires 0 < |eq.numbers|
  {
    ValidUpTo(eq, Pow2(|eq.numbers| - 1))
  }

  /**
   * `Equation::find_valid_combinations`. The operand list must not be empty
   * (`len() - 1` underflows) and at most 30 operators fit `2_i32.pow`.
   */
  method FindValidCombinations(eq: Equation) returns (valid: seq<seq<char>>)
    requires 0 < |eq.numbers| <= 31
    ensures valid == ValidCombinations(eq)
  {
    var operatorCount := |eq.numbers| - 1;
    valid := [];
    var total := Pow2(operatorCount);
    var i := 0;
    while i < total
      invariant 0 <= i <= total
      invariant valid == ValidUpTo(eq, i)
    {
      var combination := [];
      var j := 0;
      while j < operatorCount
        invariant 0 <= j <= operatorCount
        invariant combination == Combination(i, operatorCount)[..j]
      {
        var op := if Bit(i, j) == 0 then '+' else '*';
        combination := combination + [op];
        j := j + 1;
      }
      assert combination == Combination(i, operatorCount);
      var value := Evaluate(eq, combination);
      if value == eq.testValue {
        valid := valid + [combination];
      }
      i := i + 1;
    }
  }

  /** Soundness and shape: every listed combination has n-1 operators and reaches the target. */
  lemma {:induction false} ValidUpToSound(eq: Equation, m: nat)
    requires 0 < |eq.numbers|
    ensures forall c | c in ValidUpTo(eq, m) ::
      |c| == |eq.numbers| - 1 && ValidOps(c) && Eval(eq.numbers, c) == eq.testValue
    decreases m
  {
    if m > 0 {
      ValidUpToSound(eq, m - 1);
    }
  }

  /** The listed combinations come in strictly ascending mask order, all masks below `m`. */
  lemma {:induction false} ValidUpToAscending(eq: Equation, m: nat)
    requires 0 < |eq.numbers| && m <= Pow2(|eq.numbers| - 1)
    ensures |ValidUpTo(eq, m)| <= m
    ensures forall i | 0 <= i < |ValidUpTo(eq, m)| :: MaskOf(ValidUpTo(eq, m)[i]) < m
    ensures forall i, j | 0 <= i < j < |ValidUpTo(eq, m)| :: MaskOf(ValidUpTo(eq, m)[i]) < MaskOf(ValidUpTo(eq, m)[j])
    decreases m
  {
    if m > 0 {
      ValidUpToAscending(eq, m - 1);
      MaskOfCombination(m - 1, |eq.numbers| - 1);
    }
  }

  /** Completeness: a satisfying combination whose mask is below `m` is listed. */
  lemma {:induction false} ValidUpToComplete(eq: Equation, m: nat, ops: seq<char>)
    requires 0 < |eq.numbers| && |ops| == |eq.numbers| - 1 && ValidOps(ops)
    requires Eval(eq.numbers, ops) == eq.testValue
    requires MaskOf(ops) < m
    ensures ops in ValidUpTo(eq, m)
    decreases m
  {
    CombinationOfMask(ops);
    if MaskOf(ops) < m - 1 {
      ValidUpToComplete(eq, m - 1, ops);
    }
  }

  /** Soundness: every combination `find_valid_combinations` lists has n-1 operators and reaches the target. */
  lemma ValidCombinationsSound(eq: Equation)
    requires 0 < |eq.numbers|
    ensures forall c | c in ValidCombinations(eq) ::
      |c| == |eq.numbers| - 1 && ValidOps(c) && Eval(eq.numbers, c) == eq.testValue
  {
    ValidUpToSound(eq, Pow2(|eq.numbers| - 1));
  }

  /** Completeness: every operator sequence that reaches the target is listed. */
  lemma ValidCombinationsComplete(eq: Equation, ops: seq<char>)
    requires 0 < |eq.numbers| && |ops| == |eq.numbers| - 1 && ValidOps(ops)
    requires Eval(eq.numbers, ops) == eq.testValue
    ensures ops in ValidCombinations(eq)
  {
    CombinationOfMask(ops);
    ValidUpToComplete(eq, Pow2(|ops|), ops);
  }

  /**
   * The listed combinations come in strictly ascending mask order, so none is
   * listed twice, and there are at most 2^(n-1) of them.
   */
  lemma ValidCombinationsOrdered(eq: Equation)
    requires 0 < |eq.numbers|
    ensures forall i, j | 0 <= i < j < |ValidCombinations(eq)| ::
      MaskOf(ValidCombinations(eq)[i]) < MaskOf(ValidCombinations(eq)[j])
    ensures forall i, j | 0 <= i < j < |ValidCombinations(eq)| ::
      ValidCombinations(eq)[i] != ValidCombinations(eq)[j]
    ensures |ValidCombinations(eq)| <= Pow2(|eq.numbers| - 1)
  {
    ValidUpToAscending(eq, Pow2(|eq.numbers| - 1));
  }

  /** Some choice of operators reaches the target. */
  ghost predicate Solvable(eq: Equation)
    requires 0 < |eq.numbers|
  {
    exists ops :: |ops| == |eq.numbers| - 1 && ValidOps(ops) && Eval(eq.numbers, ops) == eq.testValue
  }

  lemma SolvableIffFound(eq: Equation)
    requires 0 < |eq.numbers|
    ensures Solvable(eq) <==> ValidCombinations(eq) != []
  {
    if ValidCombinations(eq) != [] {
      ValidCombinationsSound(eq);
      assert ValidCombinations(eq)[0] in ValidCombinations(eq);
    }
    if Solvable(eq) {
      var ops :| |ops| == |eq.numbers| - 1 && ValidOps(ops) && Eval(eq.numbers, ops) == eq.testValue;
      ValidCombinationsComplete(eq, ops);
    }
  }

  /** The first test of `find_valid_combinations`: only `10 * 19` reaches 190. */
  lemma ValidCombinationsFirstExample()
    ensures ValidCombinations(Equation(190, [10, 19])) == [['*']]
  {
    assert Combination(0, 1) == ['+'];
    assert Combination(1, 1) == ['*'];
  }

  /** The second test: `81 * 40 + 27` and `81 + 40 * 27` both reach 3267, in that (mask) order. */
  lemma ValidCombinationsSecondExample()
    ensures ValidCombinations(Equation(3267, [81, 40, 27])) == [['*', '+'], ['+', '*']]
  {
    var eq := Equation(3267, [81, 40, 27]);
    assert Bit(0, 0) == 0 && Bit(1, 0) == 1 && Bit(2, 0) == 0 && Bit(3, 0) == 1;
    assert Bit(0, 1) == 0 && Bit(1, 1) == 0 && Bit(2, 1) == 1 && Bit(3, 1) == 1;
    assert Combination(0, 2) == ['+', '+'];
    assert Combination(1, 2) == ['*', '+'];
    assert Combination(2, 2) == ['+', '*'];
    assert Combination(3, 2) == ['*', '*'];
    assert ['*', '+'][..1] == ['*'] && ['+', '*'][..1] == ['+'];
    assert ['+', '+'][..1] == ['+'] && ['*', '*'][..1] == ['*'];
    assert Eval(eq.numbers, ['+']) == 121 && Eval(eq.numbers, ['*']) == 3240;
    assert Eval(eq.numbers, ['+', '+']) == 148;
    assert Eval(eq.numbers, ['*', '+']) == 3267;
    assert Eval(eq.numbers, ['+', '*']) == 3267;
    assert Eval(eq.numbers, ['*', '*']) == 87480;
    assert ValidUpTo(eq, 1) == [];
    assert ValidUpTo(eq, 2) == [['*', '+']];
    assert ValidUpTo(eq, 3) == [['*', '+'], ['+', '*']];
  }

  // ---------------------------------------------------------------- total

  /**
   * A line on which `main` does not panic: an equation it parses has at
   * least one operand (`len() - 1` underflows otherwise) and at most 31
   * (`2_i32.pow` overflows otherwise).
   */
  predicate OperandsFit(line: string) {
    Parse(line).Some? ==> 0 < |Parse(line).value.numbers| <= 31
  }

  /** What a line adds to the total calibration result. */
  function Contribution(line: string): int
    requires OperandsFit(line)
  {
    if Trim(line) == [] then 0
    else match Parse(line)
      case None => 0
      case Some(eq) => if ValidCombinations(eq) != [] then eq.testValue else 0
  }

  function TotalOf(lines: seq<string>): int
    requires forall i | 0 <= i < |lines| :: OperandsFit(lines[i])
    decreases |lines|
  {
    if lines == [] then 0 else TotalOf(lines[..|lines| - 1]) + Contribution(lines[|lines| - 1])
  }

  lemma TotalOfStep(lines: seq<string>, i: nat)
    requires i < |lines| && forall k | 0 <= k < |lines| :: OperandsFit(lines[k])
    ensures TotalOf(lines[..i + 1]) == TotalOf(lines[..i]) + Contribution(lines[i])
  {
    assert lines[..i + 1][..i] == lines[..i];
  }

  /** A line adds its target once if some choice of operators reaches it, and nothing otherwise. */
  lemma ContributionCounts(line: string)
    requires OperandsFit(line)
    ensures Contribution(line) == if Parse(line).Some? && Solvable(Parse(line).value) then Parse(line).value.testValue else 0
  {
    if Parse(line).Some? {
      SolvableIffFound(Parse(line).value);
      if Trim(line) == [] {
        SplitOnChar(line, ':');
        assert Occurrences(line, ':') == 0 by {
          NoColonInBlank(line);
        }
      }
    }
  }

  lemma {:induction false} NoColonInBlank(s: string)
    requires AllWhitespace(s)
    ensures Occurrences(s, ':') == 0
    decreases |s|
  {
    if s != [] {
      NoColonInBlank(s[1..]);
    }
  }

  /** The body of the loop of `main`: blank lines are skipped, unparsable ones add nothing. */
  method LineCalibration(line: string) returns (added: int)
    requires OperandsFit(line)
    ensures added == Contribution(line)
  {
    added := 0;
    if Trim(line) != [] {
      var parsed := Parse(line);
      if parsed.Some? {
        var equation := parsed.value;
        var validCombinations := FindValidCombinations(equation);
        if validCombinations != [] {
          added := equation.testValue;
        }
      }
    }
  }

  /** The loop of `main` over the input lines. */
  method TotalCalibration(lines: seq<string>) returns (total: int)
    requires forall i | 0 <= i < |lines| :: OperandsFit(lines[i])
    ensures total == TotalOf(lines)
  {
    total := 0;
    var i := 0;
    while i < |lines|
      invariant 0 <= i <= |lines|
      invariant total == TotalOf(lines[..i])
    {
      TotalOfStep(lines, i);
      var added := LineCalibration(lines[i]);
      total := total + added;
      i := i + 1;
    }
    assert lines[..i] == lines;
  }
}
