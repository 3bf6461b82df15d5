/**
 * Print queue (day 5). A rule `a|b` says page `a` must be printed before page
 * `b` when both are in an update. An update is valid when every rule holds
 * for the first occurrences of its two pages; the answer is the sum of the
 * middle pages of the valid updates.
 */
module PrintQueue {
  import opened Wrappers
  import opened Text

  /** A rule `before|after`. */
  type Rule = (int, int)

  // ---------------------------------------------------------------- rules

  /** `iter().position`: the index of the first occurrence of `x`. */
  function Position(s: seq<int>, x: int): Option<nat>
    decreases |s|
  {
    if s == [] then None
    else if s[0] == x then Some(0)
    else
      match Position(s[1..], x)
      case None => None
      case Some(k) => Some(k + 1)
  }

  /** `Position` finds `x` exactly when it occurs, and then at its first occurrence. */
  lemma {:induction false} PositionIsFirst(s: seq<int>, x: int)
    ensures Position(s, x).None? <==> x !in s
    ensures Position(s, x).Some? ==> Position(s, x).value < |s| && s[Position(s, x).value] == x && x !in s[..Position(s, x).value]
    decreases |s|
  {
    if s != [] && s[0] != x {
      PositionIsFirst(s[1..], x);
      assert s == [s[0]] + s[1..];
      if Position(s[1..], x).Some? {
        var k := Position(s[1..], x).value;
        assert s[..k + 1] == [s[0]] + s[1..][..k];
      }
    }
  }

  /** `check_order`: the first `before` comes before the first `after`, when both occur. */
  function CheckOrder(before: int, after: int, s: seq<int>): bool {
    match (Position(s, before), Position(s, after))
    case (Some(pb), Some(pa)) => pb < pa
    case _ => true
  }

  /** A rule about a page the update does not contain holds. */
  lemma CheckOrderAbsent(before: int, after: int, s: seq<int>)
    requires before !in s || after !in s
    ensures CheckOrder(before, after, s)
  {
    PositionIsFirst(s, before);
    PositionIsFirst(s, after);
  }

  /**
   * A rule is broken exactly when both pages occur and the first `after` is
   * not preceded by any `before`.
   */
  lemma CheckOrderMeans(before: int, after: int, s: seq<int>)
    ensures !CheckOrder(before, after, s) <==> before in s && exists j | 0 <= j < |s| :: s[j] == after && before !in s[..j]
  {
    PositionIsFirst(s, before);
    PositionIsFirst(s, after);
    match (Position(s, before), Position(s, after))
    case (Some(pb), Some(pa)) =>
      if pb >= pa {
        assert s[pa] == after && before !in s[..pa] by {
          assert s[..pa] == s[..pb][..pa];
        }
      } else {
        forall j | 0 <= j < |s| && s[j] == after ensures before in s[..j] {
          assert s[..j][pb] == before;
        }
      }
    case _ =>
  }

  /** When both pages occur, the rule holds iff the first `before` comes before the first `after`. */
  lemma CheckOrderFirstIndices(before: int, after: int, s: seq<int>, i: nat, j: nat)
    requires i < |s| && s[i] == before && before !in s[..i]
    requires j < |s| && s[j] == after && after !in s[..j]
    ensures CheckOrder(before, after, s) <==> i < j
  {
    PositionIsFirst(s, before);
    PositionIsFirst(s, after);
  }

  /** A rule `x|x` rejects every update that contains `x`. */
  lemma SelfRuleRejects(x: int, s: seq<int>)
    requires x in s
    ensures !CheckOrder(x, x, s)
  {
    PositionIsFirst(s, x);
  }

  /** `is_valid_sequence`: every rule holds. */
  predicate IsValidSequence(s: seq<int>, rules: seq<Rule>) {
    forall k | 0 <= k < |rules| :: CheckOrder(rules[k].0, rules[k].1, s)
  }

  /**
   * An update is valid exactly when no rule has both pages in it with the
   * first `after` ahead of every `before`.
   */
  lemma IsValidSequenceMeans(s: seq<int>, rules: seq<Rule>)
    ensures IsValidSequence(s, rules) <==> forall k | 0 <= k < |rules| ::
      !(rules[k].0 in s && exists j | 0 <= j < |s| :: s[j] == rules[k].1 && rules[k].0 !in s[..j])
  {
    forall k | 0 <= k < |rules| {
      CheckOrderMeans(rules[k].0, rules[k].1, s);
    }
  }

  /** Without rules every update is valid. */
  lemma NoRulesAcceptAll(s: seq<int>)
    ensures IsValidSequence(s, [])
  {
  }

  /** Dropping rules never makes a valid update invalid. */
  lemma FewerRulesStillValid(s: seq<int>, rules: seq<Rule>, fewer: seq<Rule>)
    requires forall k | 0 <= k < |fewer| :: fewer[k] in rules
    requires IsValidSequence(s, rules)
    ensures IsValidSequence(s, fewer)
  {
    forall k | 0 <= k < |fewer| ensures CheckOrder(fewer[k].0, fewer[k].1, s) {
      var m :| 0 <= m < |rules| && rules[m] == fewer[k];
      assert CheckOrder(rules[m].0, rules[m].1, s);
    }
  }

  /** A rule about a page the update does not contain never rejects it. */
  lemma AbsentPageRule(s: seq<int>, rules: seq<Rule>, r: Rule)
    requires r.0 !in s || r.1 !in s
    ensures IsValidSequence(s, rules + [r]) == IsValidSequence(s, rules)
  {
    var all := rules + [r];
    CheckOrderAbsent(r.0, r.1, s);
    assert forall k | 0 <= k < |rules| :: all[k] == rules[k];
    assert all[|rules|] == r;
  }

  // ---------------------------------------------------------------- solve

  /** The page at index `len / 2`. */
  function Middle(s: seq<int>): int
    requires s != []
  {
    s[|s| / 2]
  }

  /** The filter of `solve`: the valid updates, in input order. */
  function ValidSequences(sequences: seq<seq<int>>, rules: seq<Rule>): (vs: seq<seq<int>>)
    ensures |vs| <= |sequences|
    ensures forall i | 0 <= i < |vs| :: vs[i] in sequences && IsValidSequence(vs[i], rules)
    ensures forall i | 0 <= i < |sequences| && IsValidSequence(sequences[i], rules) :: sequences[i] in vs
    decreases |sequences|
  {
    if sequences == [] then []
    else
      var rest := ValidSequences(sequences[1..], rules);
      assert forall i | 0 <= i < |rest| :: rest[i] in sequences by {
        forall i | 0 <= i < |rest| ensures rest[i] in sequences {
          var m :| 0 <= m < |sequences[1..]| && sequences[1..][m] == rest[i];
          assert sequences[m + 1] == rest[i];
        }
      }
      assert forall i | 1 <= i < |sequences| :: sequences[i] == sequences[1..][i - 1];
      if IsValidSequence(sequences[0], rules) then [sequences[0]] + rest else rest
  }

  /** The sum of the middle pages. */
  function SumMiddles(sequences: seq<seq<int>>): int
    requires forall i | 0 <= i < |sequences| :: sequences[i] != []
    decreases |sequences|
  {
    if sequences == [] then 0 else Middle(sequences[0]) + SumMiddles(sequences[1..])
  }

  /** The answer as a sum over all updates: the middle page of each valid update, nothing for the others. */
  function SumValidMiddles(sequences: seq<seq<int>>, rules: seq<Rule>): int
    requires forall i | 0 <= i < |sequences| :: sequences[i] != []
    decreases |sequences|
  {
    if sequences == [] then 0
    else (if IsValidSequence(sequences[0], rules) then Middle(sequences[0]) else 0) + SumValidMiddles(sequences[1..], rules)
  }

  lemma {:induction false} FilterThenSum(sequences: seq<seq<int>>, rules: seq<Rule>)
    requires forall i | 0 <= i < |sequences| :: sequences[i] != []
    ensures forall i | 0 <= i < |ValidSequences(sequences, rules)| :: ValidSequences(sequences, rules)[i] != []
    ensures SumMiddles(ValidSequences(sequences, rules)) == SumValidMiddles(sequences, rules)
    decreases |sequences|
  {
    var vs := ValidSequences(sequences, rules);
    forall i | 0 <= i < |vs| ensures vs[i] != [] {
      var m :| 0 <= m < |sequences| && sequences[m] == vs[i];
    }
    if sequences != [] {
      FilterThenSum(sequences[1..], rules);
      if IsValidSequence(sequences[0], rules) {
        assert vs[1..] == ValidSequences(sequences[1..], rules);
      }
    }
  }

  /** The parsed input: the rule section and the update section. */
  datatype Input = Input(rules: seq<Rule>, sequences: seq<seq<int>>)

  /**
   * A rule line: the first two '|'-separated pieces parsed as `i64`, later
   * pieces are never looked at; `None` is the panic of `unwrap`.
   */
  function ParseRule(line: string): Option<Rule> {
    var pieces := SplitOn(line, "|");
    if |pieces| < 2 then None
    else
      match (ParseInt(pieces[0], I64Min, I64Max), ParseInt(pieces[1], I64Min, I64Max))
      case (Some(a), Some(b)) => Some((a, b))
      case _ => None
  }

  /** An update line: every ','-separated piece parsed as `i64`. */
  function ParseSequence(line: string): (r: Option<seq<int>>)
    ensures r.Some? ==> r.value != [] && |r.value| == |SplitOn(line, ",")|
  {
    ParseAll(SplitOn(line, ","), I64Min, I64Max)
  }

  /** A rule written `before|after` parses back to itself. */
  lemma ParseRuleFormat(r: Rule)
    requires I64Min <= r.0 <= I64Max && I64Min <= r.1 <= I64Max
    ensures ParseRule(IntToString(r.0) + "|" + IntToString(r.1)) == Some(r)
  {
    IntToStringChars(r.0);
    IntToStringChars(r.1);
    assert '|' !in IntToString(r.0) && '|' !in IntToString(r.1);
    SplitJoinChar([IntToString(r.0), IntToString(r.1)], '|');
    assert Join([IntToString(r.0), IntToString(r.1)], "|") == IntToString(r.0) + "|" + IntToString(r.1);
    ParseIntToString(r.0, I64Min, I64Max);
    ParseIntToString(r.1, I64Min, I64Max);
  }

  /** Pieces after the second are never parsed: `1|2|x` is the rule 1|2. */
  lemma ParseRuleIgnoresRest(r: Rule, rest: string)
    requires I64Min <= r.0 <= I64Max && I64Min <= r.1 <= I64Max
    ensures ParseRule(IntToString(r.0) + "|" + IntToString(r.1) + "|" + rest) == Some(r)
  {
    var a := IntToString(r.0);
    var b := IntToString(r.1);
    IntToStringChars(r.0);
    IntToStringChars(r.1);
    assert '|' !in a && '|' !in b;
    assert a + "|" + b + "|" + rest == a + ['|'] + (b + ['|'] + rest);
    SplitOnFirst(a, '|', b + ['|'] + rest);
    SplitOnFirst(b, '|', rest);
    ParseIntToString(r.0, I64Min, I64Max);
    ParseIntToString(r.1, I64Min, I64Max);
  }

  /** An update written with commas parses back to itself. */
  lemma ParseSequenceFormat(pages: seq<int>)
    requires pages != [] && forall i | 0 <= i < |pages| :: I64Min <= pages[i] <= I64Max
    ensures ParseSequence(Join(Numerals(pages), ",")) == Some(pages)
  {
    NumeralsParse(pages, I64Min, I64Max);
    assert forall i | 0 <= i < |pages| :: ',' !in Numerals(pages)[i];
    SplitJoinChar(Numerals(pages), ',');
  }

  function ParseRules(lines: seq<string>): (r: Option<seq<Rule>>)
    ensures r.Some? ==> |r.value| == |lines|
    ensures r.Some? ==> forall i | 0 <= i < |lines| :: ParseRule(lines[i]) == Some(r.value[i])
    decreases |lines|
  {
    if lines == [] then Some([])
    else
      match (ParseRule(lines[0]), ParseRules(lines[1..]))
      case (Some(rule), Some(rest)) => Some([rule] + rest)
      case _ => None
  }

  function ParseSequences(lines: seq<string>): (r: Option<seq<seq<int>>>)
    ensures r.Some? ==> |r.value| == |lines|
    ensures r.Some? ==> forall i | 0 <= i < |lines| :: ParseSequence(lines[i]) == Some(r.value[i])
    ensures r.Some? ==> forall i | 0 <= i < |r.value| :: r.value[i] != []
    decreases |lines|
  {
    if lines == [] then Some([])
    else
      match (ParseSequence(lines[0]), ParseSequences(lines[1..]))
      case (Some(s), Some(rest)) => Some([s] + rest)
      case _ => None
  }

  /**
   * The parsing half of `solve`: the trimmed input split at the first blank
   * line; the rules come from the first part and the updates from the second,
   * and anything after a further blank line is ignored. `None` stands for the
   * panics on malformed input.
   */
  function ParseInput(input: string): (r: Option<Input>)
    ensures r.Some? ==> forall i | 0 <= i < |r.value.sequences| :: r.value.sequences[i] != []
  {
    var parts := SplitOn(Trim(input), "\n\n");
    if |parts| < 2 then None
    else
      match (ParseRules(Lines(parts[0])), ParseSequences(Lines(parts[1])))
      case (Some(rules), Some(sequences)) => Some(Input(rules, sequences))
      case _ => None
  }

  /** `solve` on input that parses: the middle pages of the valid updates, summed. */
  function Solve(input: string): (r: int)
    requires ParseInput(input).Some?
    ensures r == SumValidMiddles(ParseInput(input).value.sequences, ParseInput(input).value.rules)
  {
    var parsed := ParseInput(input).value;
    FilterThenSum(parsed.sequences, parsed.rules);
    SumMiddles(ValidSequences(parsed.sequences, parsed.rules))
  }

  // ---------------------------------------------------------------- writing an input

  /** A rule as the puzzle writes it: `before|after`. */
  function RuleLine(r: Rule): string {
    IntToString(r.0) + "|" + IntToString(r.1)
  }

  /** An update as the puzzle writes it: its pages separated by commas. */
  function UpdateLine(pages: seq<int>): string {
    Join(Numerals(pages), ",")
  }

  function RuleLines(rules: seq<Rule>): (ls: seq<string>)
    ensures |ls| == |rules| && forall i | 0 <= i < |rules| :: ls[i] == RuleLine(rules[i])
  {
    if rules == [] then [] else [RuleLine(rules[0])] + RuleLines(rules[1..])
  }

  function UpdateLines(sequences: seq<seq<int>>): (ls: seq<string>)
    ensures |ls| == |sequences| && forall i | 0 <= i < |sequences| :: ls[i] == UpdateLine(sequences[i])
  {
    if sequences == [] then [] else [UpdateLine(sequences[0])] + UpdateLines(sequences[1..])
  }

  /** The puzzle's input: one rule per line, a blank line, one update per line. */
  function FormatInput(rules: seq<Rule>, sequences: seq<seq<int>>): string {
    Join(RuleLines(rules), "\n") + "\n\n" + Join(UpdateLines(sequences), "\n")
  }

  lemma RuleLinePlain(r: Rule)
    ensures PlainLine(RuleLine(r))
  {
    var a := IntToString(r.0);
    var b := IntToString(r.1);
    IntToStringChars(r.0);
    IntToStringChars(r.1);
    assert b != [] by {
      if r.1 >= 0 { NatToStringDigits(r.1); }
    }
    var line := a + "|" + b;
    assert line[|line| - 1] == b[|b| - 1];
    forall k | 0 <= k < |line| ensures line[k] != '\n' {
      if k < |a| {
        assert line[k] == a[k];
      } else if k > |a| {
        assert line[k] == b[k - |a| - 1];
      }
    }
  }

  lemma UpdateLinePlain(pages: seq<int>)
    requires pages != []
    ensures PlainLine(UpdateLine(pages))
  {
    JoinNumeralsChars(pages, ',');
    var line := UpdateLine(pages);
    assert forall k | 0 <= k < |line| :: !IsWhitespace(line[k]);
  }

  lemma ParseRulesStep(lines: seq<string>, first: Rule, rest: seq<Rule>)
    requires lines != [] && ParseRule(lines[0]) == Some(first) && ParseRules(lines[1..]) == Some(rest)
    ensures ParseRules(lines) == Some([first] + rest)
  {
  }

  /** Lines that each parse to their rule parse to the list of those rules. */
  lemma {:induction false} ParseRulesOf(lines: seq<string>, rules: seq<Rule>)
    requires |lines| == |rules| && forall i | 0 <= i < |lines| :: ParseRule(lines[i]) == Some(rules[i])
    ensures ParseRules(lines) == Some(rules)
    decreases |lines|
  {
    if lines != [] {
      forall i | 0 <= i < |lines| - 1 ensures ParseRule(lines[1..][i]) == Some(rules[1..][i]) {
        assert lines[1..][i] == lines[i + 1];
      }
      ParseRulesOf(lines[1..], rules[1..]);
      ParseRulesStep(lines, rules[0], rules[1..]);
      assert rules == [rules[0]] + rules[1..];
    }
  }

  lemma ParseSequencesStep(lines: seq<string>, first: seq<int>, rest: seq<seq<int>>)
    requires lines != [] && ParseSequence(lines[0]) == Some(first) && ParseSequences(lines[1..]) == Some(rest)
    ensures ParseSequences(lines) == Some([first] + rest)
  {
  }

  /** Lines that each parse to their update parse to the list of those updates. */
  lemma {:induction false} ParseSequencesOf(lines: seq<string>, sequences: seq<seq<int>>)
    requires |lines| == |sequences| && forall i | 0 <= i < |lines| :: ParseSequence(lines[i]) == Some(sequences[i])
    ensures ParseSequences(lines) == Some(sequences)
    decreases |lines|
  {
    if lines != [] {
      forall i | 0 <= i < |lines| - 1 ensures ParseSequence(lines[1..][i]) == Some(sequences[1..][i]) {
        assert lines[1..][i] == lines[i + 1];
      }
      ParseSequencesOf(lines[1..], sequences[1..]);
      ParseSequencesStep(lines, sequences[0], sequences[1..]);
      assert sequences == [sequences[0]] + sequences[1..];
    }
  }

  /**
   * Writing rules and updates in the puzzle's format and parsing the text
   * gives them back: at least one rule and one update, every update holding
   * a page, every number an `i64`.
   */
  lemma ParseInputFormat(rules: seq<Rule>, sequences: seq<seq<int>>)
    requires rules != [] && sequences != []
    requires forall i | 0 <= i < |rules| :: I64Min <= rules[i].0 <= I64Max && I64Min <= rules[i].1 <= I64Max
    requires forall i | 0 <= i < |sequences| :: sequences[i] != []
    requires forall i, j | 0 <= i < |sequences| && 0 <= j < |sequences[i]| :: I64Min <= sequences[i][j] <= I64Max
    ensures ParseInput(FormatInput(rules, sequences)) == Some(Input(rules, sequences))
  {
    var rl := RuleLines(rules);
    var ul := UpdateLines(sequences);
    forall i | 0 <= i < |rl| ensures PlainLine(rl[i]) && ParseRule(rl[i]) == Some(rules[i]) {
      RuleLinePlain(rules[i]);
      ParseRuleFormat(rules[i]);
    }
    forall i | 0 <= i < |ul| ensures PlainLine(ul[i]) && ParseSequence(ul[i]) == Some(sequences[i]) {
      UpdateLinePlain(sequences[i]);
      ParseSequenceFormat(sequences[i]);
    }
    JoinedLines(rl);
    JoinedLines(ul);
    var a := Join(rl, "\n");
    var b := Join(ul, "\n");
    var t := a + "\n\n" + b;
    assert t == FormatInput(rules, sequences);
    assert t[0] == a[0] && t[|t| - 1] == b[|b| - 1];
    TrimUnchanged(t);
    SplitAtBlankLine(a, b);
    SplitWithoutBlankLine(b);
    LinesOfJoin(rl);
    LinesOfJoin(ul);
    ParseRulesOf(rl, rules);
    ParseSequencesOf(ul, sequences);
  }

  // ---------------------------------------------------------------- the example

  const ExampleRules: seq<Rule> := [
    (47, 53), (97, 13), (97, 61), (97, 47), (75, 29), (61, 13), (75, 53),
    (29, 13), (97, 29), (53, 29), (61, 53), (97, 53), (61, 29), (47, 13),
    (75, 47), (97, 75), (47, 61), (75, 61), (47, 29), (75, 13), (53, 13)]

  const ExampleSequences: seq<seq<int>> := [
    [75, 47, 61, 53, 29], [97, 61, 53, 29, 13], [75, 29, 13],
    [75, 97, 47, 61, 53], [61, 13, 29], [97, 13, 75, 29, 47]]

  /**
   * An update with a ranking of its pages (the index of each page, negative
   * for pages it does not hold) that puts `before` ahead of `after` for every
   * rule whose pages both occur is valid.
   */
  lemma ValidByRank(s: seq<int>, rules: seq<Rule>, rank: int -> int)
    requires forall i | 0 <= i < |s| :: rank(s[i]) == i
    requires forall k | 0 <= k < |rules| :: rank(rules[k].0) >= 0 && rank(rules[k].1) >= 0 ==> rank(rules[k].0) < rank(rules[k].1)
    ensures IsValidSequence(s, rules)
  {
    forall k | 0 <= k < |rules| ensures CheckOrder(rules[k].0, rules[k].1, s) {
      var r := rules[k];
      PositionIsFirst(s, r.0);
      PositionIsFirst(s, r.1);
      if !(r.0 in s && r.1 in s) {
        CheckOrderAbsent(r.0, r.1, s);
      } else {
        var i := Position(s, r.0).value;
        var j := Position(s, r.1).value;
        assert rank(s[i]) == i && rank(s[j]) == j;
        CheckOrderFirstIndices(r.0, r.1, s, i, j);
      }
    }
  }

  lemma ExampleFirstValid()
    ensures IsValidSequence([75, 47, 61, 53, 29], ExampleRules)
  {
    ValidByRank([75, 47, 61, 53, 29], ExampleRules,
      x => if x == 75 then 0 else if x == 47 then 1 else if x == 61 then 2 else if x == 53 then 3 else if x == 29 then 4 else -1);
  }

  lemma ExampleSecondValid()
    ensures IsValidSequence([97, 61, 53, 29, 13], ExampleRules)
  {
    ValidByRank([97, 61, 53, 29, 13], ExampleRules,
      x => if x == 97 then 0 else if x == 61 then 1 else if x == 53 then 2 else if x == 29 then 3 else if x == 13 then 4 else -1);
  }

  lemma ExampleThirdValid()
    ensures IsValidSequence([75, 29, 13], ExampleRules)
  {
    ValidByRank([75, 29, 13], ExampleRules, x => if x == 75 then 0 else if x == 29 then 1 else if x == 13 then 2 else -1);
  }

  /** A single broken rule makes an update invalid. */
  lemma BrokenRule(s: seq<int>, rules: seq<Rule>, k: nat)
    requires k < |rules| && !CheckOrder(rules[k].0, rules[k].1, s)
    ensures !IsValidSequence(s, rules)
  {
  }

  /** The last three updates of the example each break a rule: 97|75, 29|13 and 29|13. */
  lemma ExampleFourthInvalid()
    ensures !IsValidSequence([75, 97, 47, 61, 53], ExampleRules)
  {
    BrokenRule([75, 97, 47, 61, 53], ExampleRules, 15);
  }

  lemma ExampleFifthInvalid()
    ensures !IsValidSequence([61, 13, 29], ExampleRules)
  {
    BrokenRule([61, 13, 29], ExampleRules, 7);
  }

  lemma ExampleSixthInvalid()
    ensures !IsValidSequence([97, 13, 75, 29, 47], ExampleRules)
  {
    BrokenRule([97, 13, 75, 29, 47], ExampleRules, 7);
  }

  // The sum over the example, one update at a time from the back.

  lemma ExampleFromSixth()
    ensures SumValidMiddles(ExampleSequences[5..], ExampleRules) == 0
  {
    ExampleSixthInvalid();
    assert ExampleSequences[5..][1..] == [];
  }

  lemma ExampleFromFifth()
    ensures SumValidMiddles(ExampleSequences[4..], ExampleRules) == 0
  {
    ExampleFromSixth();
    ExampleFifthInvalid();
    assert ExampleSequences[4..][1..] == ExampleSequences[5..];
  }

  lemma ExampleFromFourth()
    ensures SumValidMiddles(ExampleSequences[3..], ExampleRules) == 0
  {
    ExampleFromFifth();
    ExampleFourthInvalid();
    assert ExampleSequences[3..][1..] == ExampleSequences[4..];
  }

  lemma ExampleFromThird()
    ensures SumValidMiddles(ExampleSequences[2..], ExampleRules) == 29
  {
    ExampleFromFourth();
    ExampleThirdValid();
    assert ExampleSequences[2..][1..] == ExampleSequences[3..];
  }

  lemma ExampleFromSecond()
    ensures SumValidMiddles(ExampleSequences[1..], ExampleRules) == 53 + 29
  {
    ExampleFromThird();
    ExampleSecondValid();
    assert ExampleSequences[1..][1..] == ExampleSequences[2..];
  }

  /** The test of `solve`, on the rules and updates of its input: 61 + 53 + 29 = 143. */
  lemma ExampleSum()
    ensures SumValidMiddles(ExampleSequences, ExampleRules) == 143
  {
    ExampleFromSecond();
    ExampleFirstValid();
  }

  /**
   * `solve` on the example written in the puzzle's format (the rules one per
   * line, a blank line, the updates one per line, as the test writes them).
   */
  lemma ExampleSolve()
    ensures ParseInput(FormatInput(ExampleRules, ExampleSequences)).Some?
    ensures Solve(FormatInput(ExampleRules, ExampleSequences)) == 143
  {
    ParseInputFormat(ExampleRules, ExampleSequences);
    ExampleSum();
  }
}
