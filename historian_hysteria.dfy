/**
 * Historian hysteria (day 1). Every input line holds two integers, one for
 * each of two columns. Both columns are sorted, paired up in order, and the
 * answer is the sum of the distances between the two numbers of each pair.
 */
module HistorianHysteria {
  import opened Wrappers
  import opened Text
  import opened Sorting

  function ParseError(lineNum: nat): string {
    "unable to parse number on line " + NatToString(lineNum)
  }

  function CountError(lineNum: nat): string {
    "expecting 2 numbers on line " + NatToString(lineNum)
  }

  /** Every word of the line parses as an `i64`. */
  predicate AllParse(line: string) {
    forall i | 0 <= i < |Words(line)| :: ParseInt(Words(line)[i], I64Min, I64Max).Some?
  }

  /**
   * `process_line`: the whitespace-separated words of the line, each parsed
   * as an `i64`; a word that does not parse is reported before a wrong number
   * of words, and both errors carry the line number.
   */
  function ProcessLine(line: string, lineNum: nat): Result<(int, int), string> {
    match ParseAll(Words(line), I64Min, I64Max)
    case None => Err(ParseError(lineNum))
    case Some(numbers) =>
      if |numbers| != 2 then Err(CountError(lineNum)) else Ok((numbers[0], numbers[1]))
  }

  /**
   * A line is accepted exactly when it has two words and both parse, and
   * then gives their values; otherwise the parse error comes first.
   */
  lemma ProcessLineMeans(line: string, lineNum: nat)
    ensures ProcessLine(line, lineNum).Ok? <==> AllParse(line) && |Words(line)| == 2
    ensures ProcessLine(line, lineNum).Ok? ==>
      ProcessLine(line, lineNum).value == (ParseInt(Words(line)[0], I64Min, I64Max).value, ParseInt(Words(line)[1], I64Min, I64Max).value)
    ensures !AllParse(line) ==> ProcessLine(line, lineNum) == Err(ParseError(lineNum))
    ensures AllParse(line) && |Words(line)| != 2 ==> ProcessLine(line, lineNum) == Err(CountError(lineNum))
  {
    var ws := Words(line);
    var parsed := ParseAll(ws, I64Min, I64Max);
    ParseAllMeans(ws, I64Min, I64Max);
    if parsed.None? {
      assert !AllParse(line);
    } else {
      assert AllParse(line) && |parsed.value| == |ws|;
    }
  }

  /** A line written as two numerals separated by a space reads back as the two numbers. */
  lemma ProcessFormatted(a: int, b: int, lineNum: nat)
    requires I64Min <= a <= I64Max && I64Min <= b <= I64Max
    ensures ProcessLine(IntToString(a) + " " + IntToString(b), lineNum) == Ok((a, b))
  {
    WordsOfTwoNumerals(a, b, I64Min, I64Max);
    TwoNumbers(a, b);
  }

  lemma TwoNumbers(a: int, b: int)
    requires I64Min <= a <= I64Max && I64Min <= b <= I64Max
    ensures ParseAll([IntToString(a), IntToString(b)], I64Min, I64Max) == Some([a, b])
  {
    NumeralsParse([a, b], I64Min, I64Max);
    assert Numerals([a, b]) == [IntToString(a), IntToString(b)];
  }

  // ---------------------------------------------------------------- reading the columns

  /** Reads the pair on a line, given the line and its number counted from 1. */
  type LineReader = (string, nat) -> Result<(int, int), string>

  /** Every line is accepted. */
  predicate AllAccepted(lines: seq<string>, read: LineReader) {
    forall i | 0 <= i < |lines| :: read(lines[i], i + 1).Ok?
  }

  /** Line `k` (counted from 0) is the first line refused. */
  predicate FirstRefused(lines: seq<string>, read: LineReader, k: int) {
    && 0 <= k < |lines| && read(lines[k], k + 1).Err?
    && forall j | 0 <= j < k :: read(lines[j], j + 1).Ok?
  }

  /**
   * What the loop of `read_numbers_from_file` computes from the lines: the
   * two columns, or the error of the first line refused.
   */
  function ReadColumns(lines: seq<string>, read: LineReader): Result<(seq<int>, seq<int>), string>
    decreases |lines|
  {
    if lines == [] then Ok(([], []))
    else match ReadColumns(lines[..|lines| - 1], read)
      case Err(e) => Err(e)
      case Ok(columns) =>
        match read(lines[|lines| - 1], |lines|)
        case Err(e) => Err(e)
        case Ok(pair) => Ok((columns.0 + [pair.0], columns.1 + [pair.1]))
  }

  /** The columns of lines that are all accepted. */
  function FirstColumn(lines: seq<string>, read: LineReader): (c: seq<int>)
    requires AllAccepted(lines, read)
    ensures |c| == |lines|
  {
    seq(|lines|, i requires 0 <= i < |lines| && AllAccepted(lines, read) => read(lines[i], i + 1).value.0)
  }

  function SecondColumn(lines: seq<string>, read: LineReader): (c: seq<int>)
    requires AllAccepted(lines, read)
    ensures |c| == |lines|
  {
    seq(|lines|, i requires 0 <= i < |lines| && AllAccepted(lines, read) => read(lines[i], i + 1).value.1)
  }

  /**
   * `read_numbers_from_file`, after the file is split into lines: `line_count`
   * goes up before its line is processed, and each accepted line gives one
   * number to each column, so the columns keep the same length and the
   * mismatch error cannot happen.
   */
  method ReadNumbers(lines: seq<string>) returns (r: Result<(seq<int>, seq<int>), string>)
    ensures r == ReadColumns(lines, ProcessLine)
    ensures r.Ok? ==> |r.value.0| == |r.value.1|
  {
    var firstNumbers: seq<int> := [];
    var secondNumbers: seq<int> := [];
    var lineCount := 0;
    while lineCount < |lines|
      invariant 0 <= lineCount <= |lines|
      invariant ReadColumns(lines[..lineCount], ProcessLine) == Ok((firstNumbers, secondNumbers))
      invariant |firstNumbers| == |secondNumbers| == lineCount
    {
      var line := lines[lineCount];
      lineCount := lineCount + 1;
      assert lines[..lineCount][..lineCount - 1] == lines[..lineCount - 1];
      var parsed := ProcessLine(line, lineCount);
      if parsed.Err? {
        ReadAfterError(lines, ProcessLine, lineCount);
        return Err(parsed.error);
      }
      firstNumbers := firstNumbers + [parsed.value.0];
      secondNumbers := secondNumbers + [parsed.value.1];
    }
    assert lines[..|lines|] == lines;
    assert |firstNumbers| == |secondNumbers|;
    return Ok((firstNumbers, secondNumbers));
  }

  /** Once a line is refused, the lines after it do not change the error. */
  lemma {:induction false} ReadAfterError(lines: seq<string>, read: LineReader, n: nat)
    requires 0 < n <= |lines| && ReadColumns(lines[..n], read).Err?
    ensures ReadColumns(lines, read) == ReadColumns(lines[..n], read)
    decreases |lines| - n
  {
    if n < |lines| {
      assert lines[..|lines| - 1][..n] == lines[..n];
      ReadAfterError(lines[..|lines| - 1], read, n);
    } else {
      assert lines[..n] == lines;
    }
  }

  /**
   * The lines give two columns exactly when every line is accepted, and the
   * columns then hold, row by row, the pair read from each line.
   */
  lemma {:induction false} ReadColumnsOk(lines: seq<string>, read: LineReader)
    ensures ReadColumns(lines, read).Ok? <==> AllAccepted(lines, read)
    ensures ReadColumns(lines, read).Ok? ==>
      ReadColumns(lines, read).value == (FirstColumn(lines, read), SecondColumn(lines, read))
    decreases |lines|
  {
    if lines != [] {
      var init := lines[..|lines| - 1];
      ReadColumnsOk(init, read);
      assert forall i | 0 <= i < |init| :: init[i] == lines[i];
      if AllAccepted(lines, read) {
        assert AllAccepted(init, read);
        assert FirstColumn(lines, read) == FirstColumn(init, read) + [read(lines[|init|], |lines|).value.0];
        assert SecondColumn(lines, read) == SecondColumn(init, read) + [read(lines[|init|], |lines|).value.1];
      }
    }
  }

  /** A refused input reports the error of its first refused line. */
  lemma {:induction false} ReadColumnsErr(lines: seq<string>, read: LineReader)
    requires ReadColumns(lines, read).Err?
    ensures exists k :: FirstRefused(lines, read, k) && ReadColumns(lines, read).error == read(lines[k], k + 1).error
    decreases |lines|
  {
    var init := lines[..|lines| - 1];
    assert forall i | 0 <= i < |init| :: init[i] == lines[i];
    if ReadColumns(init, read).Err? {
      ReadColumnsErr(init, read);
      var k :| FirstRefused(init, read, k) && ReadColumns(init, read).error == read(init[k], k + 1).error;
      assert FirstRefused(lines, read, k);
    } else {
      ReadColumnsOk(init, read);
      assert FirstRefused(lines, read, |lines| - 1);
    }
  }

  // ---------------------------------------------------------------- distance

  /** `zip`: pairs up the two sequences, as far as the shorter one goes. */
  function Zip(a: seq<int>, b: seq<int>): (r: seq<(int, int)>)
    ensures |r| == if |a| <= |b| then |a| else |b|
  {
    var n := if |a| <= |b| then |a| else |b|;
    seq(n, i requires 0 <= i < n => (a[i], b[i]))
  }

  function Firsts(ps: seq<(int, int)>): (r: seq<int>)
    ensures |r| == |ps|
  {
    seq(|ps|, i requires 0 <= i < |ps| => ps[i].0)
  }

  function Seconds(ps: seq<(int, int)>): (r: seq<int>)
    ensures |r| == |ps|
  {
    seq(|ps|, i requires 0 <= i < |ps| => ps[i].1)
  }

  /** `create_sorted_tuples`: both columns sorted ascending, then paired up. */
  function CreateSortedTuples(first: seq<int>, second: seq<int>): seq<(int, int)> {
    Zip(Sort(first), Sort(second))
  }

  /**
   * For columns of equal length, the pairs are as many as the rows, and each
   * column of the pairs is its input column in ascending order.
   */
  lemma SortedTuplesColumns(first: seq<int>, second: seq<int>)
    requires |first| == |second|
    ensures |CreateSortedTuples(first, second)| == |first|
    ensures Sorted(Firsts(CreateSortedTuples(first, second))) && multiset(Firsts(CreateSortedTuples(first, second))) == multiset(first)
    ensures Sorted(Seconds(CreateSortedTuples(first, second))) && multiset(Seconds(CreateSortedTuples(first, second))) == multiset(second)
  {
    var ps := CreateSortedTuples(first, second);
    assert Firsts(ps) == Sort(first);
    assert Seconds(ps) == Sort(second);
  }

  /** `calculate_abs_diff`: the distance between the two numbers of a pair. */
  function CalculateAbsDiff(p: (int, int)): (d: int)
    ensures d >= 0 && (d == p.0 - p.1 || d == p.1 - p.0)
    ensures d == 0 <==> p.0 == p.1
  {
    var (a, b) := p;
    if a > b then a - b else b - a
  }

  lemma AbsDiffSymmetric(a: int, b: int)
    ensures CalculateAbsDiff((a, b)) == CalculateAbsDiff((b, a))
  {
  }

  /** `sum_differences`. */
  function SumDifferences(tuples: seq<(int, int)>): (s: int)
    ensures s >= 0
  {
    if tuples == [] then 0 else SumDifferences(tuples[..|tuples| - 1]) + CalculateAbsDiff(tuples[|tuples| - 1])
  }

  /** The sum is zero exactly when every pair holds two equal numbers. */
  lemma {:induction false} SumZeroIffEqualPairs(tuples: seq<(int, int)>)
    ensures SumDifferences(tuples) == 0 <==> forall i | 0 <= i < |tuples| :: tuples[i].0 == tuples[i].1
    decreases |tuples|
  {
    if tuples != [] {
      var init := tuples[..|tuples| - 1];
      SumZeroIffEqualPairs(init);
      assert forall i | 0 <= i < |init| :: init[i] == tuples[i];
    }
  }

  function Swapped(tuples: seq<(int, int)>): (r: seq<(int, int)>)
    ensures |r| == |tuples| && forall i | 0 <= i < |tuples| :: r[i] == (tuples[i].1, tuples[i].0)
  {
    seq(|tuples|, i requires 0 <= i < |tuples| => (tuples[i].1, tuples[i].0))
  }

  lemma {:induction false} SumSwapped(tuples: seq<(int, int)>)
    ensures SumDifferences(Swapped(tuples)) == SumDifferences(tuples)
    decreases |tuples|
  {
    if tuples != [] {
      var init := tuples[..|tuples| - 1];
      SumSwapped(init);
      assert Swapped(tuples)[..|tuples| - 1] == Swapped(init);
      AbsDiffSymmetric(tuples[|tuples| - 1].0, tuples[|tuples| - 1].1);
    }
  }

  /** The total distance between two columns. */
  function Distance(first: seq<int>, second: seq<int>): int {
    SumDifferences(CreateSortedTuples(first, second))
  }

  /** The distance sees only which numbers each column holds, not their order. */
  lemma DistanceDependsOnMultisets(first: seq<int>, second: seq<int>, first': seq<int>, second': seq<int>)
    requires multiset(first) == multiset(first') && multiset(second) == multiset(second')
    ensures Distance(first, second) == Distance(first', second')
  {
    SortDependsOnMultiset(first, first');
    SortDependsOnMultiset(second, second');
  }

  /** Swapping the two columns does not change the distance. */
  lemma DistanceSymmetric(first: seq<int>, second: seq<int>)
    ensures Distance(first, second) == Distance(second, first)
  {
    assert CreateSortedTuples(second, first) == Swapped(CreateSortedTuples(first, second));
    SumSwapped(CreateSortedTuples(first, second));
  }

  /** Two columns holding the same numbers are at distance 0. */
  lemma DistanceSameNumbers(first: seq<int>, second: seq<int>)
    requires multiset(first) == multiset(second)
    ensures Distance(first, second) == 0
  {
    SortDependsOnMultiset(first, second);
    SumZeroIffEqualPairs(CreateSortedTuples(first, second));
  }

  /**
   * `process_file`: the distance between the two columns, or the error of
   * the first line `process_line` refuses.
   */
  method ProcessFile(lines: seq<string>) returns (r: Result<int, string>)
    ensures r.Ok? <==> AllAccepted(lines, ProcessLine)
    ensures r.Ok? ==> r.value == Distance(FirstColumn(lines, ProcessLine), SecondColumn(lines, ProcessLine))
    ensures r.Err? ==> exists k :: FirstRefused(lines, ProcessLine, k) && r.error == ProcessLine(lines[k], k + 1).error
  {
    var numbers := ReadNumbers(lines);
    ReadColumnsOk(lines, ProcessLine);
    if numbers.Err? {
      ReadColumnsErr(lines, ProcessLine);
      return Err(numbers.error);
    }
    var (firstNumbers, secondNumbers) := numbers.value;
    var tuples := CreateSortedTuples(firstNumbers, secondNumbers);
    return Ok(SumDifferences(tuples));
  }
}
