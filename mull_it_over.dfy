/**
 * Mull it over, part 2 (day 3). The corrupted memory is scanned for three
 * kinds of instruction: `mul(X,Y)` with one to three digits per operand,
 * `don't()`, and a word ending in `do()`. The instructions are put in order of
 * position and run with one flag: `do` enables, `don't` disables, and an
 * enabled `mul` adds its product to the total.
 *
 * The three regular expressions of the program are replaced by hand-made
 * recognisers that accept exactly where the expressions match (see the
 * comments on `DoAt`, `DontAt` and `MulAt`). Positions are character indices.
 */
module MullItOver {
  import opened Wrappers
  import opened Text
  import opened Sorting

  datatype OpType = Do | Dont | Mul

  /** `Operation`: where the instruction starts, its kind, and the operands of a `mul`. */
  datatype Operation = Operation(position: nat, opType: OpType, values: Option<(int, int)>)

  function PositionOf(op: Operation): int {
    op.position
  }

  // ---------------------------------------------------------------- recognisers

  /** `\w`, restricted to ASCII: letters, digits and '_'. */
  predicate IsWordChar(c: char) {
    ('a' <= c <= 'z') || ('A' <= c <= 'Z') || ('0' <= c <= '9') || c == '_'
  }

  /** The length of the run of word characters starting at `s`. */
  function WordRun(line: string, s: nat): (n: nat)
    requires s <= |line|
    ensures s + n <= |line|
    ensures forall k | s <= k < s + n :: IsWordChar(line[k])
    ensures s + n < |line| ==> !IsWordChar(line[s + n])
    decreases |line| - s
  {
    if s < |line| && IsWordChar(line[s]) then 1 + WordRun(line, s + 1) else 0
  }

  /** The length of the run of ASCII digits starting at `s`. */
  function DigitRun(line: string, s: nat): (n: nat)
    requires s <= |line|
    ensures s + n <= |line| && AllDigits(line[s..s + n])
    ensures s + n < |line| ==> !IsDigit(line[s + n])
    decreases |line| - s
  {
    if s < |line| && IsDigit(line[s]) then
      var n := 1 + DigitRun(line, s + 1);
      assert line[s..s + n] == [line[s]] + line[s + 1..s + n];
      n
    else 0
  }

  /**
   * Where `\w*do\(\)` matches, scanning from the start with non-overlapping
   * leftmost matches: at the first character of a run of word characters
   * whose last two characters are `do` and which is followed by `()`. (The
   * `\w*` cannot extend past the run, and `(` ends every run, so each run has
   * at most one match and it starts where the run starts.)
   */
  predicate DoAt(line: string, s: nat) {
    && s < |line|
    && (s == 0 || !IsWordChar(line[s - 1]))
    && var r := s + WordRun(line, s);
       s + 2 <= r && line[r - 2..r] == "do" && r + 2 <= |line| && line[r..r + 2] == "()"
  }

  /** Where `don't\(\)` matches; the pattern cannot overlap itself, so every occurrence is found. */
  predicate DontAt(line: string, s: nat) {
    s + 7 <= |line| && line[s..s + 7] == "don't()"
  }

  /**
   * Where `mul\(([0-9]{1,3}),([0-9]{1,3})\)` matches, with the two captured
   * operands. A digit group is followed by a non-digit, so it must be the
   * whole run of digits there, of length one to three.
   */
  function MulAt(line: string, s: nat): (r: Option<(int, int)>)
    ensures r.Some? ==> 0 <= r.value.0 <= 999 && 0 <= r.value.1 <= 999
  {
    if s + 4 <= |line| && line[s..s + 4] == "mul(" then
      var n1 := DigitRun(line, s + 4);
      if 1 <= n1 <= 3 && s + 4 + n1 < |line| && line[s + 4 + n1] == ',' then
        var j := s + 5 + n1;
        var n2 := DigitRun(line, j);
        if 1 <= n2 <= 3 && j + n2 < |line| && line[j + n2] == ')' then
          ThreeDigitsBound(line[s + 4..s + 4 + n1]);
          ThreeDigitsBound(line[j..j + n2]);
          Some((DigitsValue(line[s + 4..s + 4 + n1]), DigitsValue(line[j..j + n2])))
        else None
      else None
    else None
  }

  /** A numeral of at most three digits is at most 999. */
  lemma {:induction false} ThreeDigitsBound(d: string)
    requires AllDigits(d)
    ensures |d| <= 1 ==> DigitsValue(d) <= 9
    ensures |d| <= 2 ==> DigitsValue(d) <= 99
    ensures |d| <= 3 ==> DigitsValue(d) <= 999
    decreases |d|
  {
    if d != [] {
      ThreeDigitsBound(d[..|d| - 1]);
      assert DigitValue(d[|d| - 1]) <= 9;
    }
  }

  /** No two kinds of instruction start at the same place. */
  lemma KindsExclusive(line: string, s: nat)
    ensures !(DoAt(line, s) && DontAt(line, s))
    ensures !(DoAt(line, s) && MulAt(line, s).Some?)
    ensures !(DontAt(line, s) && MulAt(line, s).Some?)
  {
    if DontAt(line, s) {
      DontIsNoDo(line, s);
    }
    if MulAt(line, s).Some? {
      MulIsNoDo(line, s);
    }
  }

  lemma DontIsNoDo(line: string, s: nat)
    requires DontAt(line, s)
    ensures !DoAt(line, s)
  {
    assert line[s + 1] == 'o' && line[s + 2] == 'n' && line[s + 3] == '\'';
    assert WordRun(line, s + 3) == 0;
    assert WordRun(line, s + 2) == 1;
    assert WordRun(line, s + 1) == 2;
    assert WordRun(line, s) == 3;
  }

  lemma MulIsNoDo(line: string, s: nat)
    requires s + 4 <= |line| && line[s..s + 4] == "mul("
    ensures !DoAt(line, s)
  {
    assert line[s] == 'm' && line[s + 1] == 'u' && line[s + 2] == 'l' && line[s + 3] == '(';
    assert WordRun(line, s + 3) == 0;
    assert WordRun(line, s + 2) == 1;
    assert WordRun(line, s + 1) == 2;
    assert WordRun(line, s) == 3;
  }

  // ---------------------------------------------------------------- collecting

  /** The `do` instructions starting before `n`, in order of position. */
  function DoTokens(line: string, n: nat): (ops: seq<Operation>)
    ensures forall i | 0 <= i < |ops| ::
      ops[i].opType == Do && ops[i].values == None && ops[i].position < n && DoAt(line, ops[i].position)
    decreases n
  {
    if n == 0 then []
    else DoTokens(line, n - 1) + (if DoAt(line, n - 1) then [Operation(n - 1, Do, None)] else [])
  }

  /** The `don't` instructions starting before `n`, in order of position. */
  function DontTokens(line: string, n: nat): (ops: seq<Operation>)
    ensures forall i | 0 <= i < |ops| ::
      ops[i].opType == Dont && ops[i].values == None && ops[i].position < n && DontAt(line, ops[i].position)
    decreases n
  {
    if n == 0 then []
    else DontTokens(line, n - 1) + (if DontAt(line, n - 1) then [Operation(n - 1, Dont, None)] else [])
  }

  /** The `mul` instructions starting before `n` with their operands, in order of position. */
  function MulTokens(line: string, n: nat): (ops: seq<Operation>)
    ensures forall i | 0 <= i < |ops| ::
      ops[i].opType == Mul && ops[i].position < n && MulAt(line, ops[i].position).Some?
      && ops[i].values == MulAt(line, ops[i].position)
    decreases n
  {
    if n == 0 then []
    else MulTokens(line, n - 1) + (if MulAt(line, n - 1).Some? then [Operation(n - 1, Mul, MulAt(line, n - 1))] else [])
  }

  /** What the three loops of `parse_operations` push, before the sort. */
  function Collected(line: string): seq<Operation> {
    DoTokens(line, |line|) + DontTokens(line, |line|) + MulTokens(line, |line|)
  }

  /** The result of `parse_operations`: the collected instructions, stably sorted by position. */
  function Operations(line: string): seq<Operation> {
    SortBy(Collected(line), PositionOf)
  }

  /** An instruction as the recogniser at its position describes it. */
  predicate WellFormed(line: string, op: Operation) {
    match op.opType
    case Do => op.values == None && DoAt(line, op.position)
    case Dont => op.values == None && DontAt(line, op.position)
    case Mul => op.values.Some? && op.values == MulAt(line, op.position)
  }

  lemma CollectedWellFormed(line: string)
    ensures forall op | op in Collected(line) :: WellFormed(line, op)
  {
    var d := DoTokens(line, |line|);
    var t := DontTokens(line, |line|);
    var m := MulTokens(line, |line|);
    forall op | op in Collected(line) ensures WellFormed(line, op) {
      assert op in d || op in t || op in m;
    }
  }

  /** The loop over the matches of `\w*do\(\)`. */
  method CollectDos(line: string, operations: seq<Operation>) returns (r: seq<Operation>)
    ensures r == operations + DoTokens(line, |line|)
  {
    r := operations;
    var i := 0;
    while i < |line|
      invariant 0 <= i <= |line|
      invariant r == operations + DoTokens(line, i)
    {
      if DoAt(line, i) {
        r := r + [Operation(i, Do, None)];
      }
      i := i + 1;
    }
  }

  /** The loop over the matches of `don't\(\)`. */
  method CollectDonts(line: string, operations: seq<Operation>) returns (r: seq<Operation>)
    ensures r == operations + DontTokens(line, |line|)
  {
    r := operations;
    var i := 0;
    while i < |line|
      invariant 0 <= i <= |line|
      invariant r == operations + DontTokens(line, i)
    {
      if DontAt(line, i) {
        r := r + [Operation(i, Dont, None)];
      }
      i := i + 1;
    }
  }

  /** The loop over the matches of the `mul` expression, keeping both captured operands. */
  method CollectMuls(line: string, operations: seq<Operation>) returns (r: seq<Operation>)
    ensures r == operations + MulTokens(line, |line|)
  {
    r := operations;
    var i := 0;
    while i < |line|
      invariant 0 <= i <= |line|
      invariant r == operations + MulTokens(line, i)
    {
      var values := MulAt(line, i);
      if values.Some? {
        r := r + [Operation(i, Mul, values)];
      }
      i := i + 1;
    }
  }

  /**
   * `parse_operations`: the three loops over the matches, then `sort_by_key`
   * on the position. The result is in nondecreasing position order and is a
   * permutation of the collected instructions.
   */
  method ParseOperations(line: string) returns (operations: seq<Operation>)
    ensures operations == Operations(line)
    ensures SortedBy(operations, PositionOf)
    ensures multiset(operations) == multiset(Collected(line))
  {
    var dos := CollectDos(line, []);
    assert dos == DoTokens(line, |line|);
    var dosAndDonts := CollectDonts(line, dos);
    var collected := CollectMuls(line, dosAndDonts);
    assert collected == Collected(line);
    operations := SortBy(collected, PositionOf);
  }

  /** The text `do()` starts at `k`. */
  predicate DoTextAt(line: string, k: nat) {
    k + 4 <= |line| && line[k..k + 4] == "do()"
  }

  /** Every character in `line[a..b]` is a word character. */
  predicate WordsBetween(line: string, a: nat, b: nat) {
    a <= b <= |line| && forall m | a <= m < b :: IsWordChar(line[m])
  }

  /**
   * Every instruction `parse_operations` returns is what the recogniser at its
   * position describes: a `mul` carries operands between 0 and 999, a `do` or
   * `don't` carries none.
   */
  lemma OperationsWellFormed(line: string)
    ensures forall op | op in Operations(line) :: WellFormed(line, op)
    ensures forall op | op in Operations(line) && op.opType == Mul ::
      op.values.Some? && 0 <= op.values.value.0 <= 999 && 0 <= op.values.value.1 <= 999
    ensures forall op | op in Operations(line) && op.opType != Mul :: op.values == None
  {
    CollectedWellFormed(line);
    forall op | op in Operations(line) ensures WellFormed(line, op) {
      assert op in multiset(Operations(line));
    }
  }

  /** A `do` starts a run of word characters that ends in the text `do()` at or after it. */
  lemma DoPrecedesItsText(line: string, s: nat)
    requires DoAt(line, s)
    ensures exists k | s <= k :: DoTextAt(line, k) && WordsBetween(line, s, k + 2)
  {
    var r := s + WordRun(line, s);
    var k := r - 2;
    assert line[k..k + 4] == line[r - 2..r] + line[r..r + 2];
    assert DoTextAt(line, k) && WordsBetween(line, s, k + 2);
  }

  // ---------------------------------------------------------------- running

  /** The flag after running `ops`: `do` sets it, `don't` clears it, it starts set. */
  function EnabledAfter(ops: seq<Operation>): bool
    decreases |ops|
  {
    if ops == [] then true
    else match ops[|ops| - 1].opType
      case Do => true
      case Dont => false
      case Mul => EnabledAfter(ops[..|ops| - 1])
  }

  /** What a `mul` adds: its product, when it carries operands. */
  function Product(op: Operation): int {
    if op.values.Some? then op.values.value.0 * op.values.value.1 else 0
  }

  /** The total after running `ops`: each `mul` adds its product when the flag is set before it. */
  function TotalOf(ops: seq<Operation>): int
    decreases |ops|
  {
    if ops == [] then 0
    else
      var last := ops[|ops| - 1];
      TotalOf(ops[..|ops| - 1]) + (if last.opType == Mul && EnabledAfter(ops[..|ops| - 1]) then Product(last) else 0)
  }

  /** The loop of `process_line`: run the instructions in order with the flag. */
  method Run(operations: seq<Operation>) returns (total: int)
    ensures total == TotalOf(operations)
  {
    total := 0;
    var enabled := true;
    var i := 0;
    while i < |operations|
      invariant 0 <= i <= |operations|
      invariant enabled == EnabledAfter(operations[..i])
      invariant total == TotalOf(operations[..i])
    {
      var op := operations[i];
      assert operations[..i + 1][..i] == operations[..i];
      if op.opType == Do {
        enabled := true;
      } else if op.opType == Dont {
        enabled := false;
      } else if enabled && op.values.Some? {
        var (x, y) := op.values.value;
        var product := x * y;
        total := total + product;
      }
      i := i + 1;
    }
    assert operations[..i] == operations;
  }

  /** `process_line`: the instructions of the line, run in order of position. */
  method ProcessLine(line: string) returns (total: int)
    ensures total == TotalOf(Operations(line))
    ensures total >= 0
  {
    var operations := ParseOperations(line);
    total := Run(operations);
    OperationsWellFormed(line);
    TotalNonNegative(operations);
  }

  // ---------------------------------------------------------------- properties

  /**
   * The flag is set after `ops` exactly when every `don't` in it is followed
   * later by a `do`: whatever the flag was, the last toggle decides.
   */
  lemma {:induction false} EnabledAfterMeans(ops: seq<Operation>)
    ensures EnabledAfter(ops) <==> forall i | 0 <= i < |ops| && ops[i].opType == Dont ::
      exists j | i < j < |ops| :: ops[j].opType == Do
    decreases |ops|
  {
    if ops != [] {
      var init := ops[..|ops| - 1];
      var last := ops[|ops| - 1];
      EnabledAfterMeans(init);
      assert forall i | 0 <= i < |init| :: init[i] == ops[i];
      match last.opType
      case Do =>
      case Dont =>
        assert ops[|ops| - 1].opType == Dont;
      case Mul =>
        if EnabledAfter(ops) {
          forall i | 0 <= i < |ops| && ops[i].opType == Dont ensures exists j | i < j < |ops| :: ops[j].opType == Do {
            var j :| i < j < |init| && init[j].opType == Do;
            assert ops[j].opType == Do;
          }
        } else {
          var i :| 0 <= i < |init| && init[i].opType == Dont && !(exists j | i < j < |init| :: init[j].opType == Do);
          assert ops[i].opType == Dont;
          assert !(exists j | i < j < |ops| :: ops[j].opType == Do);
        }
    }
  }

  /** The sum of the products of all `mul` instructions, enabled or not: the answer of part 1. */
  function SumProducts(ops: seq<Operation>): int
    decreases |ops|
  {
    if ops == [] then 0
    else SumProducts(ops[..|ops| - 1]) + (if ops[|ops| - 1].opType == Mul then Product(ops[|ops| - 1]) else 0)
  }

  /** Without a `don't` the flag stays set, and every product is added. */
  lemma {:induction false} TotalWithoutDont(ops: seq<Operation>)
    requires forall i | 0 <= i < |ops| :: ops[i].opType != Dont
    ensures EnabledAfter(ops)
    ensures TotalOf(ops) == SumProducts(ops)
    decreases |ops|
  {
    if ops != [] {
      var init := ops[..|ops| - 1];
      assert forall i | 0 <= i < |init| :: init[i] == ops[i];
      TotalWithoutDont(init);
    }
  }

  /** With non-negative operands the total is never negative. */
  lemma {:induction false} TotalNonNegative(ops: seq<Operation>)
    requires forall op | op in ops && op.values.Some? :: op.values.value.0 >= 0 && op.values.value.1 >= 0
    ensures TotalOf(ops) >= 0
    decreases |ops|
  {
    if ops != [] {
      var init := ops[..|ops| - 1];
      assert forall op | op in init :: op in ops;
      TotalNonNegative(init);
      assert ops[|ops| - 1] in ops;
    }
  }

  /** After a `don't`, nothing is added until the next `do`. */
  lemma {:induction false} DontDisables(ops: seq<Operation>, rest: seq<Operation>)
    requires forall i | 0 <= i < |rest| :: rest[i].opType != Do
    ensures !EnabledAfter(ops + [Operation(0, Dont, None)] + rest)
    ensures TotalOf(ops + [Operation(0, Dont, None)] + rest) == TotalOf(ops)
    decreases |rest|
  {
    var prefix := ops + [Operation(0, Dont, None)];
    if rest == [] {
      assert prefix + rest == prefix;
      assert prefix[..|prefix| - 1] == ops;
    } else {
      var init := rest[..|rest| - 1];
      DontDisables(ops, init);
      assert (prefix + rest)[..|prefix + rest| - 1] == prefix + init;
    }
  }

  /** A `do` sets the flag again, whatever came before it. */
  lemma DoEnables(ops: seq<Operation>, p: nat)
    ensures EnabledAfter(ops + [Operation(p, Do, None)])
  {
  }

  /** On memory without `don't()`, part 2 gives the part-1 answer: the sum of all products. */
  lemma WithoutDontTextAllCount(line: string)
    requires forall s | 0 <= s < |line| :: !DontAt(line, s)
    ensures TotalOf(Operations(line)) == SumProducts(Operations(line))
  {
    assert DontTokens(line, |line|) == [] by {
      NoDontTokens(line, |line|);
    }
    OperationsWellFormed(line);
    forall i | 0 <= i < |Operations(line)| ensures Operations(line)[i].opType != Dont {
      assert WellFormed(line, Operations(line)[i]);
    }
    TotalWithoutDont(Operations(line));
  }

  lemma {:induction false} NoDontTokens(line: string, n: nat)
    requires forall s | 0 <= s < n :: !DontAt(line, s)
    ensures DontTokens(line, n) == []
    decreases n
  {
    if n > 0 {
      NoDontTokens(line, n - 1);
    }
  }

  // ---------------------------------------------------------------- order

  /** Each list of one kind is in strictly increasing position order. */
  predicate StrictlyOrdered(ops: seq<Operation>) {
    forall i, j | 0 <= i < j < |ops| :: ops[i].position < ops[j].position
  }

  lemma {:induction false} DoTokensOrdered(line: string, n: nat)
    ensures StrictlyOrdered(DoTokens(line, n))
    decreases n
  {
    if n > 0 {
      DoTokensOrdered(line, n - 1);
    }
  }

  lemma {:induction false} DontTokensOrdered(line: string, n: nat)
    ensures StrictlyOrdered(DontTokens(line, n))
    decreases n
  {
    if n > 0 {
      DontTokensOrdered(line, n - 1);
    }
  }

  lemma {:induction false} MulTokensOrdered(line: string, n: nat)
    ensures StrictlyOrdered(MulTokens(line, n))
    decreases n
  {
    if n > 0 {
      MulTokensOrdered(line, n - 1);
    }
  }

  /** No two collected instructions share a position. */
  lemma CollectedPositionsDistinct(line: string)
    ensures forall i, j | 0 <= i < j < |Collected(line)| :: Collected(line)[i].position != Collected(line)[j].position
  {
    var d := DoTokens(line, |line|);
    var t := DontTokens(line, |line|);
    var m := MulTokens(line, |line|);
    var c := Collected(line);
    DoTokensOrdered(line, |line|);
    DontTokensOrdered(line, |line|);
    MulTokensOrdered(line, |line|);
    forall i, j | 0 <= i < j < |c| ensures c[i].position != c[j].position {
      KindsExclusive(line, c[i].position);
      if i < |d| && |d| <= j < |d| + |t| {
        assert c[i] == d[i] && c[j] == t[j - |d|];
      } else if i < |d| && |d| + |t| <= j {
        assert c[i] == d[i] && c[j] == m[j - |d| - |t|];
      } else if |d| <= i < |d| + |t| && |d| + |t| <= j {
        assert c[i] == t[i - |d|] && c[j] == m[j - |d| - |t|];
      } else if j < |d| {
        assert c[i] == d[i] && c[j] == d[j];
      } else if |d| <= i && j < |d| + |t| {
        assert c[i] == t[i - |d|] && c[j] == t[j - |d|];
      } else {
        assert c[i] == m[i - |d| - |t|] && c[j] == m[j - |d| - |t|];
      }
    }
  }

  /** A well-formed instruction is determined by its position. */
  lemma WellFormedUnique(line: string, a: Operation, b: Operation)
    requires WellFormed(line, a) && WellFormed(line, b) && a.position == b.position
    ensures a == b
  {
    KindsExclusive(line, a.position);
  }

  /** A value at two indices of a sequence occurs at least twice in its multiset. */
  lemma TwiceInMultiset<T>(s: seq<T>, i: nat, j: nat)
    requires i < j < |s| && s[i] == s[j]
    ensures multiset(s)[s[i]] >= 2
  {
    assert s == s[..j] + [s[j]] + s[j + 1..];
    assert s[..j][i] == s[i];
    assert s[i] in multiset(s[..j]);
  }

  /** A value occurring twice in a sequence's multiset is at two indices. */
  lemma TwoIndices<T>(s: seq<T>, x: T) returns (i: nat, j: nat)
    requires multiset(s)[x] >= 2
    ensures i < j < |s| && s[i] == x && s[j] == x
  {
    assert x in multiset(s);
    var k :| 0 <= k < |s| && s[k] == x;
    assert s == s[..k] + [s[k]] + s[k + 1..];
    var rest := s[..k] + s[k + 1..];
    assert multiset(rest)[x] >= 1;
    assert x in multiset(rest);
    var l :| 0 <= l < |rest| && rest[l] == x;
    if l < k {
      i, j := l, k;
      assert s[l] == rest[l];
    } else {
      i, j := k, l + 1;
      assert s[l + 1] == rest[l];
    }
  }

  /**
   * The instructions come out in strictly increasing position order: no two
   * share a position, so the order does not depend on the sort being stable.
   */
  lemma OperationsStrictlyOrdered(line: string)
    ensures StrictlyOrdered(Operations(line))
  {
    var o := Operations(line);
    var c := Collected(line);
    OperationsWellFormed(line);
    CollectedPositionsDistinct(line);
    forall i, j | 0 <= i < j < |o| ensures o[i].position < o[j].position {
      assert PositionOf(o[i]) <= PositionOf(o[j]);
      if o[i].position == o[j].position {
        assert o[i] in o && o[j] in o;
        WellFormedUnique(line, o[i], o[j]);
        TwiceInMultiset(o, i, j);
        var a, b := TwoIndices(c, o[i]);
        assert false;
      }
    }
  }

  // ---------------------------------------------------------------- example

  /**
   * The instructions of the puzzle's example memory
   * `xmul(2,4)&mul[3,7]!^don't()_mul(5,5)+mul(32,64](mul(11,8)undo()?mul(8,5))`
   * in position order, written out by hand (positions counted by hand); that
   * `Operations` of that text yields this list is not proved.
   */
  const ExampleOperations: seq<Operation> := [
    Operation(1, Mul, Some((2, 4))), Operation(20, Dont, None), Operation(28, Mul, Some((5, 5))),
    Operation(48, Mul, Some((11, 8))), Operation(57, Do, None), Operation(64, Mul, Some((8, 5)))]

  /** Only the first and the last product are enabled: the total is 2*4 + 8*5 = 48. */
  lemma ExampleTotal()
    ensures TotalOf(ExampleOperations) == 48
  {
    var ops := ExampleOperations;
    assert ops[..5][..4][..3][..2][..1][..0] == [];
    assert EnabledAfter(ops[..1]) && TotalOf(ops[..1]) == 8;
    assert ops[..5][..4][..3][..2] == ops[..2];
    assert !EnabledAfter(ops[..2]) && TotalOf(ops[..2]) == 8;
    assert ops[..5][..4][..3] == ops[..3];
    assert !EnabledAfter(ops[..3]) && TotalOf(ops[..3]) == 8;
    assert ops[..5][..4] == ops[..4];
    assert !EnabledAfter(ops[..4]) && TotalOf(ops[..4]) == 8;
    assert EnabledAfter(ops[..5]) && TotalOf(ops[..5]) == 8;
    assert ops[..5] == ops[..|ops| - 1];
  }
}
