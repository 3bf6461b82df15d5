/**
 * Red-nosed reports (day 2). A report is a line of integer levels. It is safe
 * when its levels all increase or all decrease, and any two adjacent levels
 * differ by at least one and at most three. The program counts the non-blank
 * lines of its input that are safe reports.
 */
module RedNosedReports {
  import opened Wrappers
  import opened Text

  /** The readings of a line: its whitespace-separated words, each parsed as an `i32`. */
  function Readings(line: string): Option<seq<int>> {
    ParseAll(Words(line), I32Min, I32Max)
  }

  /** Every difference between adjacent readings lies in `lo..=hi`. */
  predicate AllStepsIn(rs: seq<int>, lo: int, hi: int) {
    forall i | 1 <= i < |rs| :: lo <= rs[i] - rs[i - 1] <= hi
  }

  /** At least two readings, all increasing by 1 to 3 or all decreasing by 1 to 3. */
  predicate SafeReadings(rs: seq<int>) {
    |rs| >= 2 && (AllStepsIn(rs, 1, 3) || AllStepsIn(rs, -3, -1))
  }

  /** The line parses and its readings are safe. */
  predicate Safe(line: string) {
    Readings(line).Some? && SafeReadings(Readings(line).value)
  }

  /** What the loop of `is_safe` checks of one difference, once the direction is fixed. */
  predicate StepOk(diff: int, increasing: bool) {
    !(Abs(diff) > 3 || (increasing && diff <= 0) || (!increasing && diff >= 0))
  }

  /**
   * `is_safe`: false if a word does not parse or there are fewer than two
   * readings; otherwise the first difference fixes the direction and every
   * difference is checked against it and against the bound 3.
   */
  method IsSafe(line: string) returns (safe: bool)
    ensures safe <==> Safe(line)
  {
    var parsed := ParseAll(Words(line), I32Min, I32Max);
    if parsed.None? {
      return false;
    }
    safe := CheckReadings(parsed.value);
  }

  /** The part of `is_safe` after parsing. */
  method CheckReadings(readings: seq<int>) returns (safe: bool)
    ensures safe <==> SafeReadings(readings)
  {
    if |readings| < 2 {
      return false;
    }
    var firstDiff := readings[1] - readings[0];
    var isIncreasing := firstDiff > 0;
    var i := 1;
    while i < |readings|
      invariant 1 <= i <= |readings|
      invariant forall j | 1 <= j < i :: StepOk(readings[j] - readings[j - 1], isIncreasing)
    {
      var diff := readings[i] - readings[i - 1];
      if Abs(diff) > 3 || (isIncreasing && diff <= 0) || (!isIncreasing && diff >= 0) {
        FailedStepUnsafe(readings, i, isIncreasing);
        return false;
      }
      i := i + 1;
    }
    AllStepsOkSafe(readings, isIncreasing);
    return true;
  }

  lemma FailedStepUnsafe(rs: seq<int>, i: nat, increasing: bool)
    requires 1 <= i < |rs| && increasing == (rs[1] - rs[0] > 0)
    requires !StepOk(rs[i] - rs[i - 1], increasing)
    ensures !SafeReadings(rs)
  {
    var first := rs[1] - rs[0];
    if increasing {
      assert !(-3 <= first <= -1);
    } else {
      assert !(1 <= first <= 3);
    }
  }

  lemma AllStepsOkSafe(rs: seq<int>, increasing: bool)
    requires |rs| >= 2
    requires forall j | 1 <= j < |rs| :: StepOk(rs[j] - rs[j - 1], increasing)
    ensures SafeReadings(rs)
  {
    if increasing {
      assert AllStepsIn(rs, 1, 3);
    } else {
      assert AllStepsIn(rs, -3, -1);
    }
  }

  /** Two equal first readings make a report unsafe, whatever follows. */
  lemma {:induction false} FlatStartUnsafe(rs: seq<int>)
    requires |rs| >= 2 && rs[1] == rs[0]
    ensures !SafeReadings(rs)
  {
    assert rs[1] - rs[0] == 0;
  }

  /** In a safe report the first difference gives the direction of every difference. */
  lemma {:induction false} DirectionOfFirstStep(rs: seq<int>)
    requires SafeReadings(rs)
    ensures rs[1] > rs[0] ==> AllStepsIn(rs, 1, 3)
    ensures rs[1] < rs[0] ==> AllStepsIn(rs, -3, -1)
  {
    var first := rs[1] - rs[0];
    if first > 0 {
      assert !(-3 <= first <= -1);
    } else if first < 0 {
      assert !(1 <= first <= 3);
    }
  }

  function Reversed(rs: seq<int>): (r: seq<int>)
    ensures |r| == |rs| && forall i | 0 <= i < |rs| :: r[i] == rs[|rs| - 1 - i]
  {
    seq(|rs|, i requires 0 <= i < |rs| => rs[|rs| - 1 - i])
  }

  /** Read backwards, increasing steps are decreasing steps of the same size. */
  lemma {:induction false} StepsReversed(rs: seq<int>, lo: int, hi: int)
    ensures AllStepsIn(Reversed(rs), -hi, -lo) <==> AllStepsIn(rs, lo, hi)
  {
    var r := Reversed(rs);
    var n := |rs|;
    if AllStepsIn(rs, lo, hi) {
      forall i | 1 <= i < n ensures -hi <= r[i] - r[i - 1] <= -lo {
        assert r[i] - r[i - 1] == -(rs[n - i] - rs[n - i - 1]);
      }
    }
    if AllStepsIn(r, -hi, -lo) {
      forall i | 1 <= i < n ensures lo <= rs[i] - rs[i - 1] <= hi {
        assert rs[i] - rs[i - 1] == -(r[n - i] - r[n - i - 1]);
      }
    }
  }

  /** A report is safe exactly when it is safe read backwards. */
  lemma SafeReversed(rs: seq<int>)
    ensures SafeReadings(Reversed(rs)) <==> SafeReadings(rs)
  {
    StepsReversed(rs, 1, 3);
    StepsReversed(rs, -3, -1);
  }

  /** A blank line has no readings, so it is never a safe report. */
  lemma BlankUnsafe(line: string)
    requires Trim(line) == []
    ensures !Safe(line)
  {
    assert Words(line) == [];
  }

  // ---------------------------------------------------------------- counting

  /** The number of the first `n` lines for which `f` holds. */
  function CountBelow(lines: seq<string>, n: nat, f: string -> bool): (c: nat)
    requires n <= |lines|
    ensures c <= n
  {
    if n == 0 then 0 else CountBelow(lines, n - 1, f) + if f(lines[n - 1]) then 1 else 0
  }

  /** The number of lines for which `f` holds. */
  function CountWhere(lines: seq<string>, f: string -> bool): (c: nat)
    ensures c <= |lines|
  {
    CountBelow(lines, |lines|, f)
  }

  /** The indices below `n` of the lines for which `f` holds. */
  function IndicesBelow(lines: seq<string>, n: nat, f: string -> bool): set<int>
    requires n <= |lines|
  {
    set i | 0 <= i < n && f(lines[i])
  }

  /** The indices of the lines for which `f` holds. */
  function IndicesWhere(lines: seq<string>, f: string -> bool): set<int> {
    IndicesBelow(lines, |lines|, f)
  }

  lemma {:induction false} CountBelowIsSize(lines: seq<string>, n: nat, f: string -> bool)
    requires n <= |lines|
    ensures CountBelow(lines, n, f) == |IndicesBelow(lines, n, f)|
  {
    if n > 0 {
      CountBelowIsSize(lines, n - 1, f);
      IndicesOfNext(lines, n - 1, f);
    }
  }

  /** The indices below n + 1 are those below n, and n itself when `f` holds of line n. */
  lemma IndicesOfNext(lines: seq<string>, n: nat, f: string -> bool)
    requires n < |lines|
    ensures |IndicesBelow(lines, n + 1, f)| == |IndicesBelow(lines, n, f)| + if f(lines[n]) then 1 else 0
  {
    var before := IndicesBelow(lines, n, f);
    if f(lines[n]) {
      assert IndicesBelow(lines, n + 1, f) == before + {n};
      assert n !in before;
    } else {
      assert IndicesBelow(lines, n + 1, f) == before;
    }
  }

  lemma CountWhereIsSize(lines: seq<string>, f: string -> bool)
    ensures CountWhere(lines, f) == |IndicesWhere(lines, f)|
  {
    CountBelowIsSize(lines, |lines|, f);
  }

  /** What `main` counts a line for: it is not blank after trimming, and it is a safe report. */
  predicate Counted(line: string) {
    Trim(line) != [] && Safe(line)
  }

  /** The loop of `main` over the input lines. */
  method CountSafeReports(lines: seq<string>) returns (safeCount: nat)
    ensures safeCount == CountWhere(lines, Counted)
  {
    safeCount := 0;
    var i := 0;
    while i < |lines|
      invariant 0 <= i <= |lines|
      invariant safeCount == CountBelow(lines, i, Counted)
    {
      var counted := IsCounted(lines[i]);
      if counted {
        safeCount := safeCount + 1;
      }
      i := i + 1;
    }
  }

  /** The condition of `main`'s loop: the line is not blank and `is_safe` accepts it. */
  method IsCounted(line: string) returns (counted: bool)
    ensures counted == Counted(line)
  {
    counted := false;
    if Trim(line) != [] {
      counted := IsSafe(line);
    }
  }

  /**
   * The count is the number of lines that are safe reports, at most the
   * number of lines: skipping blank lines loses none, since a blank line is
   * never safe.
   */
  lemma CountIsSafeLines(lines: seq<string>)
    ensures CountWhere(lines, Counted) == |IndicesWhere(lines, Safe)| <= |lines|
  {
    forall line ensures Counted(line) == Safe(line) {
      if Trim(line) == [] {
        BlankUnsafe(line);
      }
    }
    CountWhereSame(lines, Counted, Safe);
    CountWhereIsSize(lines, Safe);
  }

  lemma CountWhereSame(lines: seq<string>, f: string -> bool, g: string -> bool)
    requires forall line :: f(line) == g(line)
    ensures CountWhere(lines, f) == CountWhere(lines, g)
  {
    CountBelowSame(lines, |lines|, f, g);
  }

  lemma {:induction false} CountBelowSame(lines: seq<string>, n: nat, f: string -> bool, g: string -> bool)
    requires n <= |lines|
    requires forall line :: f(line) == g(line)
    ensures CountBelow(lines, n, f) == CountBelow(lines, n, g)
  {
    if n > 0 {
      CountBelowSame(lines, n - 1, f, g);
    }
  }
}
