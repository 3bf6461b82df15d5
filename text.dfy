/**
 * The string operations of Rust's standard library that the programs use to
 * take their input apart: `trim`, `split`, `split_whitespace`, `lines` and
 * `parse::<iN>`. Each is defined once here and shared by every program.
 */
module Text {
  import opened Wrappers

  /** The ASCII characters for which `char::is_whitespace` holds. */
  predicate IsWhitespace(c: char) {
    c == ' ' || c == '\t' || c == '\n' || c == '\U{0B}' || c == '\U{0C}' || c == '\r'
  }

  predicate NoWhitespace(s: string) {
    forall i | 0 <= i < |s| :: !IsWhitespace(s[i])
  }

  predicate AllWhitespace(s: string) {
    forall i | 0 <= i < |s| :: IsWhitespace(s[i])
  }

  // ---------------------------------------------------------------- trim

  /** `str::trim_start`: the suffix left after dropping the leading whitespace. */
  function TrimStart(s: string): string
    decreases |s|
  {
    if s != [] && IsWhitespace(s[0]) then TrimStart(s[1..]) else s
  }

  /** `trim_start` drops a run of whitespace and stops at the first other character. */
  lemma {:induction false} TrimStartShape(s: string)
    ensures |TrimStart(s)| <= |s| && TrimStart(s) == s[|s| - |TrimStart(s)|..]
    ensures AllWhitespace(s[..|s| - |TrimStart(s)|])
    ensures TrimStart(s) != [] ==> !IsWhitespace(TrimStart(s)[0])
    decreases |s|
  {
    if s != [] && IsWhitespace(s[0]) {
      var r := TrimStart(s[1..]);
      TrimStartShape(s[1..]);
      var k := |s| - |r|;
      assert s[1..][|s| - 1 - |r|..] == s[k..];
      assert s[..k] == [s[0]] + s[1..][..k - 1];
      WhitespaceCons(s[0], s[1..][..k - 1]);
    } else {
      assert s[..0] == [];
    }
  }

  /** `str::trim_end`: the prefix left after dropping the trailing whitespace. */
  function TrimEnd(s: string): string
    decreases |s|
  {
    if s != [] && IsWhitespace(s[|s| - 1]) then TrimEnd(s[..|s| - 1]) else s
  }

  /** `trim_end` drops a run of whitespace and stops at the last other character. */
  lemma {:induction false} TrimEndShape(s: string)
    ensures |TrimEnd(s)| <= |s| && TrimEnd(s) == s[..|TrimEnd(s)|]
    ensures AllWhitespace(s[|TrimEnd(s)|..])
    ensures TrimEnd(s) != [] ==> !IsWhitespace(TrimEnd(s)[|TrimEnd(s)| - 1])
    decreases |s|
  {
    if s != [] && IsWhitespace(s[|s| - 1]) {
      var init := s[..|s| - 1];
      var r := TrimEnd(init);
      TrimEndShape(init);
      assert init[..|r|] == s[..|r|];
      assert s[|r|..] == init[|r|..] + [s[|s| - 1]];
      WhitespaceSnoc(init[|r|..], s[|s| - 1]);
    } else {
      assert s[|s|..] == [];
    }
  }

  lemma WhitespaceCons(c: char, s: string)
    requires IsWhitespace(c) && AllWhitespace(s)
    ensures AllWhitespace([c] + s)
  {
    forall i | 0 <= i < |[c] + s| ensures IsWhitespace(([c] + s)[i]) {
      if i > 0 {
        assert ([c] + s)[i] == s[i - 1];
      }
    }
  }

  lemma WhitespaceSnoc(s: string, c: char)
    requires AllWhitespace(s) && IsWhitespace(c)
    ensures AllWhitespace(s + [c])
  {
    forall i | 0 <= i < |s + [c]| ensures IsWhitespace((s + [c])[i]) {
      if i < |s| {
        assert (s + [c])[i] == s[i];
      }
    }
  }

  /** `str::trim`. It is empty exactly when the whole string is whitespace. */
  function Trim(s: string): (r: string)
    ensures r != [] ==> !IsWhitespace(r[0]) && !IsWhitespace(r[|r| - 1])
    ensures r == [] <==> AllWhitespace(s)
  {
    var t := TrimStart(s);
    TrimStartShape(s);
    TrimEndShape(t);
    TrimBlank(s, t, TrimEnd(t));
    TrimEnd(t)
  }

  /** The two halves of `trim` leave nothing exactly when the string is all whitespace. */
  lemma TrimBlank(s: string, t: string, r: string)
    requires |t| <= |s| && t == s[|s| - |t|..] && AllWhitespace(s[..|s| - |t|])
    requires t != [] ==> !IsWhitespace(t[0])
    requires |r| <= |t| && r == t[..|r|] && AllWhitespace(t[|r|..])
    requires r != [] ==> !IsWhitespace(r[|r| - 1])
    ensures r != [] ==> !IsWhitespace(r[0])
    ensures r == [] <==> AllWhitespace(s)
  {
    if r != [] {
      assert r[0] == t[0];
      assert !AllWhitespace(s) by {
        assert s[|s| - |t|] == t[0];
      }
    } else {
      assert t[|r|..] == t;
      assert s[..|s| - |t|] == s;
    }
  }

  /** A string with no whitespace at either end is its own trim. */
  lemma TrimUnchanged(s: string)
    requires s != [] ==> !IsWhitespace(s[0]) && !IsWhitespace(s[|s| - 1])
    ensures Trim(s) == s
  {
  }

  /** Trimming drops a leading space in front of an already trimmed string. */
  lemma TrimAfterSpace(s: string)
    requires s != [] ==> !IsWhitespace(s[0]) && !IsWhitespace(s[|s| - 1])
    ensures Trim(" " + s) == s
  {
    assert (" " + s)[1..] == s;
    assert TrimStart(" " + s) == TrimStart(s);
    TrimUnchanged(s);
  }

  // ---------------------------------------------------------------- split_whitespace

  /** The length of the leading run of non-whitespace characters. */
  function WordLen(s: string): (n: nat)
    ensures n <= |s| && NoWhitespace(s[..n])
    ensures n < |s| ==> IsWhitespace(s[n])
    decreases |s|
  {
    if s == [] || IsWhitespace(s[0]) then 0 else 1 + WordLen(s[1..])
  }

  /** `str::split_whitespace`: the maximal runs of non-whitespace characters, in order. */
  function Words(s: string): (ws: seq<string>)
    ensures forall i | 0 <= i < |ws| :: ws[i] != [] && NoWhitespace(ws[i])
    ensures ws == [] <==> AllWhitespace(s)
    decreases |s|
  {
    var t := TrimStart(s);
    TrimStartShape(s);
    if t == [] then []
    else
      var n := WordLen(t);
      var rest := Words(t[n..]);
      WordsShape(t[..n], rest);
      [t[..n]] + rest
  }

  /** Preceding words by one more word keeps every word non-empty and free of whitespace. */
  lemma WordsShape(w: string, rest: seq<string>)
    requires w != [] && NoWhitespace(w)
    requires forall i | 0 <= i < |rest| :: rest[i] != [] && NoWhitespace(rest[i])
    ensures forall i | 0 <= i < |[w] + rest| :: ([w] + rest)[i] != [] && NoWhitespace(([w] + rest)[i])
  {
    forall i | 0 <= i < |[w] + rest| ensures ([w] + rest)[i] != [] && NoWhitespace(([w] + rest)[i]) {
      if i > 0 {
        assert ([w] + rest)[i] == rest[i - 1];
      }
    }
  }

  /** `parts` glued together with `sep` between consecutive parts. */
  function Join(parts: seq<string>, sep: string): string
    decreases |parts|
  {
    if |parts| == 0 then []
    else if |parts| == 1 then parts[0]
    else parts[0] + sep + Join(parts[1..], sep)
  }

  lemma {:induction false} WordLenOf(w: string, rest: string)
    requires NoWhitespace(w)
    requires rest != [] ==> IsWhitespace(rest[0])
    ensures WordLen(w + rest) == |w|
    decreases |w|
  {
    if w != [] {
      assert (w + rest)[1..] == w[1..] + rest;
      WordLenOf(w[1..], rest);
    }
  }

  lemma {:induction false} WordsSkipsLeadingSpace(s: string)
    ensures Words(" " + s) == Words(s)
  {
    assert (" " + s)[1..] == s;
  }

  /** A non-blank string starting with a word: that word comes first. */
  lemma {:induction false} WordsFirst(s: string, n: nat)
    requires 0 < n <= |s| && NoWhitespace(s[..n])
    requires n < |s| ==> IsWhitespace(s[n])
    ensures Words(s) == [s[..n]] + Words(s[n..])
  {
    assert !IsWhitespace(s[..n][0]);
    assert TrimStart(s) == s;
    assert s == s[..n] + s[n..];
    WordLenOf(s[..n], s[n..]);
  }

  /** A word followed by a space is the first word. */
  lemma {:induction false} WordsCons(w: string, rest: string)
    requires w != [] && NoWhitespace(w)
    ensures Words(w + " " + rest) == [w] + Words(rest)
  {
    var s := w + " " + rest;
    var n := |w|;
    var t := s[n..];
    assert t == " " + rest;
    assert Words(s) == [w] + Words(t) by {
      assert s[..n] == w;
      assert s[n] == ' ';
      WordsFirst(s, n);
    }
    assert Words(t) == Words(rest) by {
      WordsSkipsLeadingSpace(rest);
    }
  }

  /** A single word is its own only word. */
  lemma {:induction false} WordsSingle(w: string)
    requires w != [] && NoWhitespace(w)
    ensures Words(w) == [w]
  {
    assert Words([]) == [];
    assert w[..|w|] == w && w[|w|..] == [];
    WordsFirst(w, |w|);
  }

  lemma WordsJoinStep(ws: seq<string>)
    requires |ws| > 1 && ws[0] != [] && NoWhitespace(ws[0])
    ensures Words(Join(ws, " ")) == [ws[0]] + Words(Join(ws[1..], " "))
  {
    var rest := Join(ws[1..], " ");
    assert Join(ws, " ") == ws[0] + " " + rest;
    WordsCons(ws[0], rest);
  }

  /** Words separated by single spaces come back out of `Words` unchanged. */
  lemma {:induction false} WordsJoin(ws: seq<string>)
    requires forall i | 0 <= i < |ws| :: ws[i] != [] && NoWhitespace(ws[i])
    ensures Words(Join(ws, " ")) == ws
    decreases |ws|
  {
    if ws == [] {
      assert Words([]) == [];
    } else if |ws| == 1 {
      WordsSingle(ws[0]);
    } else {
      calc {
        Words(Join(ws, " "));
        { WordsJoinStep(ws); }
        [ws[0]] + Words(Join(ws[1..], " "));
        { WordsJoin(ws[1..]); }
        [ws[0]] + ws[1..];
        ws;
      }
    }
  }

  // ---------------------------------------------------------------- split

  /**
   * `str::split` with a non-empty separator: the pieces between the
   * non-overlapping occurrences of `sep`, found from left to right.
   */
  function SplitOn(s: string, sep: string): (parts: seq<string>)
    requires sep != []
    ensures |parts| >= 1
    decreases |s|
  {
    if |s| < |sep| then [s]
    else if s[..|sep|] == sep then [[]] + SplitOn(s[|sep|..], sep)
    else
      var rest := SplitOn(s[1..], sep);
      [[s[0]] + rest[0]] + rest[1..]
  }

  /** Joining two non-empty lists is joining each and putting the separator between. */
  lemma {:induction false} JoinAppend(a: seq<string>, b: seq<string>, sep: string)
    requires a != [] && b != []
    ensures Join(a + b, sep) == Join(a, sep) + sep + Join(b, sep)
    decreases |a|
  {
    assert (a + b)[0] == a[0];
    if |a| == 1 {
      assert (a + b)[1..] == b;
    } else {
      assert (a + b)[1..] == a[1..] + b;
      JoinAppend(a[1..], b, sep);
    }
  }

  lemma JoinConsChar(c: char, parts: seq<string>, sep: string)
    requires |parts| >= 1
    ensures Join([[c] + parts[0]] + parts[1..], sep) == [c] + Join(parts, sep)
  {
    var ps := [[c] + parts[0]] + parts[1..];
    assert ps[1..] == parts[1..];
  }

  lemma JoinConsEmpty(parts: seq<string>, sep: string)
    requires |parts| >= 1
    ensures Join([[]] + parts, sep) == sep + Join(parts, sep)
  {
    assert ([[]] + parts)[1..] == parts;
  }

  /** Splitting and joining again with the same separator gives back the string. */
  lemma {:induction false} JoinSplit(s: string, sep: string)
    requires sep != []
    ensures Join(SplitOn(s, sep), sep) == s
    decreases |s|
  {
    if |s| < |sep| {
    } else if s[..|sep|] == sep {
      JoinSplit(s[|sep|..], sep);
      JoinConsEmpty(SplitOn(s[|sep|..], sep), sep);
      assert s == sep + s[|sep|..];
    } else {
      var rest := SplitOn(s[1..], sep);
      JoinSplit(s[1..], sep);
      JoinConsChar(s[0], rest, sep);
      assert s == [s[0]] + s[1..];
    }
  }

  /** The number of occurrences of `c` in `s`. */
  function Occurrences(s: string, c: char): nat
    decreases |s|
  {
    if s == [] then 0 else (if s[0] == c then 1 else 0) + Occurrences(s[1..], c)
  }

  /** Splitting at a single character gives one more piece than it has occurrences, none holding it. */
  lemma {:induction false} SplitOnChar(s: string, c: char)
    ensures |SplitOn(s, [c])| == Occurrences(s, c) + 1
    ensures forall i | 0 <= i < |SplitOn(s, [c])| :: c !in SplitOn(s, [c])[i]
    decreases |s|
  {
    if s != [] {
      SplitOnChar(s[1..], c);
      assert s[..1] == [s[0]];
      assert s[1..] == s[|[c]|..];
    }
  }

  /** Splitting at `c` a string that does not hold it gives the string alone. */
  lemma {:induction false} SplitOnAbsent(s: string, c: char)
    requires c !in s
    ensures SplitOn(s, [c]) == [s]
    decreases |s|
  {
    if s != [] {
      assert s[..1] == [s[0]];
      SplitOnAbsent(s[1..], c);
      assert [s[0]] + s[1..] == s;
    }
  }

  /** Splitting at the first occurrence of `c`. */
  lemma {:induction false} SplitOnFirst(a: string, c: char, b: string)
    requires c !in a
    ensures SplitOn(a + [c] + b, [c]) == [a] + SplitOn(b, [c])
    decreases |a|
  {
    var s := a + [c] + b;
    if a == [] {
      assert s[..1] == [c];
      assert s[1..] == b;
    } else {
      assert s[..1] == [a[0]];
      assert s[1..] == a[1..] + [c] + b;
      SplitOnFirst(a[1..], c, b);
      assert [a[0]] + a[1..] == a;
    }
  }

  // ---------------------------------------------------------------- lines

  /** A line that was ended by "\r\n" loses its '\r'. */
  function StripCr(line: string): string {
    if line != [] && line[|line| - 1] == '\r' then line[..|line| - 1] else line
  }

  /**
   * `str::lines`: the pieces between '\n' characters; a final empty piece (an
   * ending newline, or the empty string) is not a line, and a '\r' just before
   * a '\n' belongs to the line ending.
   */
  function Lines(s: string): (ls: seq<string>)
    ensures s == [] ==> ls == []
    ensures forall i | 0 <= i < |ls| :: '\n' !in ls[i]
  {
    var pieces := SplitOn(s, "\n");
    SplitOnChar(s, '\n');
    var last := pieces[|pieces| - 1];
    var ended := seq(|pieces| - 1, i requires 0 <= i < |pieces| - 1 => StripCr(pieces[i]));
    if last == [] then ended else ended + [last]
  }

  /** A line that neither starts nor ends with whitespace and holds no line break. */
  predicate PlainLine(s: string) {
    s != [] && !IsWhitespace(s[0]) && !IsWhitespace(s[|s| - 1]) && '\n' !in s
  }

  /** No two consecutive line breaks: the text holds no blank line. */
  predicate NoBlankLine(s: string) {
    forall k | 0 <= k < |s| - 1 :: !(s[k] == '\n' && s[k + 1] == '\n')
  }

  /** Pieces that end neither empty (the last one) nor with '\r' are the text's lines. */
  lemma LinesOfPieces(s: string, ws: seq<string>)
    requires SplitOn(s, "\n") == ws && |ws| >= 1 && ws[|ws| - 1] != []
    requires forall i | 0 <= i < |ws| - 1 :: StripCr(ws[i]) == ws[i]
    ensures Lines(s) == ws
  {
    var ended := seq(|ws| - 1, i requires 0 <= i < |ws| - 1 => StripCr(ws[i]));
    assert ended == ws[..|ws| - 1];
    assert ws == ended + [ws[|ws| - 1]];
  }

  /** Plain lines joined with line breaks are read back by `Lines`. */
  lemma LinesOfJoin(ws: seq<string>)
    requires |ws| >= 1 && forall i | 0 <= i < |ws| :: PlainLine(ws[i])
    ensures Lines(Join(ws, "\n")) == ws
  {
    assert forall i | 0 <= i < |ws| :: '\n' !in ws[i];
    SplitJoinChar(ws, '\n');
    forall i | 0 <= i < |ws| - 1 ensures StripCr(ws[i]) == ws[i] {
      assert PlainLine(ws[i]);
    }
    LinesOfPieces(Join(ws, "\n"), ws);
  }

  /** Plain lines joined with line breaks make a text without a blank line, trimmed at both ends. */
  lemma {:induction false} JoinedLines(ws: seq<string>)
    requires |ws| >= 1 && forall i | 0 <= i < |ws| :: PlainLine(ws[i])
    ensures PlainEnds(Join(ws, "\n")) && NoBlankLine(Join(ws, "\n"))
    decreases |ws|
  {
    if |ws| > 1 {
      JoinedLines(ws[1..]);
      var w := ws[0];
      var rest := Join(ws[1..], "\n");
      var j := Join(ws, "\n");
      assert j == w + "\n" + rest;
      forall k | 0 <= k < |j| - 1 ensures !(j[k] == '\n' && j[k + 1] == '\n') {
        if k < |w| {
          assert j[k] == w[k];
        } else if k == |w| {
          assert j[k + 1] == rest[0];
        } else {
          assert j[k] == rest[k - |w| - 1] && j[k + 1] == rest[k - |w|];
        }
      }
    }
  }

  /** Neither end of the text is whitespace, and it is not empty. */
  predicate PlainEnds(s: string) {
    s != [] && !IsWhitespace(s[0]) && !IsWhitespace(s[|s| - 1])
  }

  /** Splitting at blank lines stops at the first one when the text before it has none. */
  lemma {:induction false} SplitAtBlankLine(a: string, b: string)
    requires NoBlankLine(a) && (a != [] ==> a[|a| - 1] != '\n')
    ensures SplitOn(a + "\n\n" + b, "\n\n") == [a] + SplitOn(b, "\n\n")
    decreases |a|
  {
    var s := a + "\n\n" + b;
    if a == [] {
      assert s == "\n\n" + b && s[..2] == "\n\n" && s[2..] == b;
    } else {
      assert s[0] == a[0];
      if |a| >= 2 {
        assert s[1] == a[1];
      } else {
        assert s[1] == '\n';
      }
      assert s[..2] != "\n\n";
      SplitAtBlankLine(a[1..], b);
      assert s[1..] == a[1..] + "\n\n" + b;
      assert [a[0]] + a[1..] == a;
    }
  }

  /** Text without a blank line is a single part when split at blank lines. */
  lemma {:induction false} SplitWithoutBlankLine(b: string)
    requires NoBlankLine(b)
    ensures SplitOn(b, "\n\n") == [b]
    decreases |b|
  {
    if |b| >= 2 {
      assert !(b[0] == '\n' && b[1] == '\n');
      assert b[..2] == [b[0], b[1]];
      SplitWithoutBlankLine(b[1..]);
      assert [b[0]] + b[1..] == b;
    }
  }

  // ---------------------------------------------------------------- parse

  const I32Min: int := -0x8000_0000
  const I32Max: int := 0x7FFF_FFFF
  const I64Min: int := -0x8000_0000_0000_0000
  const I64Max: int := 0x7FFF_FFFF_FFFF_FFFF

  /** `i32::abs` and `i64::abs`, on unbounded integers. */
  function Abs(n: int): nat {
    if n < 0 then -n else n
  }

  predicate IsDigit(c: char) {
    '0' <= c <= '9'
  }

  predicate AllDigits(s: string) {
    forall i | 0 <= i < |s| :: IsDigit(s[i])
  }

  function DigitValue(c: char): (d: nat)
    requires IsDigit(c)
    ensures d < 10
  {
    (c as int) - ('0' as int)
  }

  function DigitChar(d: nat): (c: char)
    requires d < 10
    ensures IsDigit(c) && DigitValue(c) == d
  {
    ('0' as int + d) as char
  }

  /** The value of a string of decimal digits, most significant first. */
  function DigitsValue(s: string): nat
    requires AllDigits(s)
    decreases |s|
  {
    if s == [] then 0 else DigitsValue(s[..|s| - 1]) * 10 + DigitValue(s[|s| - 1])
  }

  /**
   * `str::parse::<iN>` for the integer type whose values are `lo..=hi`: an
   * optional sign, then one or more ASCII digits, and the value must fit.
   */
  function ParseInt(s: string, lo: int, hi: int): (r: Option<int>)
    ensures r.Some? ==> lo <= r.value <= hi
    ensures r.Some? ==> s != [] && NoWhitespace(s)
  {
    var signed := s != [] && (s[0] == '-' || s[0] == '+');
    var digits := if signed then s[1..] else s;
    if digits == [] || !AllDigits(digits) then None
    else
      var v: int := if signed && s[0] == '-' then -(DigitsValue(digits) as int) else DigitsValue(digits);
      if lo <= v <= hi then Some(v) else None
  }

  /** The decimal numeral of a natural number, without leading zeros. */
  function NatToString(n: nat): (s: string)
    decreases n
  {
    if n < 10 then [DigitChar(n)] else NatToString(n / 10) + [DigitChar(n % 10)]
  }

  /** `i64::to_string`. */
  function IntToString(n: int): string {
    if n < 0 then "-" + NatToString(-n) else NatToString(n)
  }

  lemma {:induction false} NatToStringDigits(n: nat)
    ensures NatToString(n) != [] && AllDigits(NatToString(n))
    ensures DigitsValue(NatToString(n)) == n
    decreases n
  {
    if n >= 10 {
      NatToStringDigits(n / 10);
      var s := NatToString(n);
      assert s[..|s| - 1] == NatToString(n / 10);
    }
  }

  /** Printing an integer in decimal and parsing it back gives the integer. */
  lemma ParseIntToString(n: int, lo: int, hi: int)
    requires lo <= n <= hi
    ensures ParseInt(IntToString(n), lo, hi) == Some(n)
    ensures IntToString(n) != [] && NoWhitespace(IntToString(n))
  {
    var m: nat := if n < 0 then -n else n;
    var d := NatToString(m);
    NatToStringDigits(m);
    assert !IsWhitespace(d[0]) && d[0] != '-' && d[0] != '+';
    DigitsNoWhitespace(d);
    var s := IntToString(n);
    if n < 0 {
      assert s == "-" + d && s[1..] == d;
      assert NoWhitespace(s) by {
        forall k | 0 <= k < |s| ensures !IsWhitespace(s[k]) {
          if k > 0 { assert s[k] == d[k - 1]; }
        }
      }
    } else {
      assert s == d;
    }
  }

  lemma DigitsNoWhitespace(s: string)
    requires AllDigits(s)
    ensures NoWhitespace(s)
  {
    forall k | 0 <= k < |s| ensures !IsWhitespace(s[k]) {
      assert IsDigit(s[k]);
    }
  }

  /** Only the characters `IntToString` writes: digits and the minus sign. */
  predicate NumeralChars(s: string) {
    forall k | 0 <= k < |s| :: IsDigit(s[k]) || s[k] == '-'
  }

  lemma IntToStringChars(n: int)
    ensures NumeralChars(IntToString(n))
  {
    if n < 0 {
      NatToStringDigits(-n);
      assert IntToString(n)[1..] == NatToString(-n);
    } else {
      NatToStringDigits(n);
    }
  }

  /** Two numerals separated by a space are two words. */
  lemma WordsOfTwoNumerals(a: int, b: int, lo: int, hi: int)
    requires lo <= a <= hi && lo <= b <= hi
    ensures Words(IntToString(a) + " " + IntToString(b)) == [IntToString(a), IntToString(b)]
  {
    var sa, sb := IntToString(a), IntToString(b);
    ParseIntToString(a, lo, hi);
    ParseIntToString(b, lo, hi);
    WordsCons(sa, sb);
    WordsSingle(sb);
  }

  /** The decimal numerals of a list of integers. */
  function Numerals(ns: seq<int>): (strs: seq<string>)
    ensures |strs| == |ns|
  {
    seq(|ns|, i requires 0 <= i < |ns| => IntToString(ns[i]))
  }

  /**
   * Parsing every word and collecting into `Option<Vec<_>>`: the values in
   * order when every word parses, `None` as soon as one does not.
   */
  function ParseAll(words: seq<string>, lo: int, hi: int): (r: Option<seq<int>>)
    ensures r.Some? ==> |r.value| == |words|
    ensures r.Some? ==> forall i | 0 <= i < |r.value| :: lo <= r.value[i] <= hi
    decreases |words|
  {
    if words == [] then Some([])
    else
      match ParseInt(words[0], lo, hi)
      case None => None
      case Some(v) =>
        var rest := ParseAll(words[1..], lo, hi);
        if rest.None? then None
        else
          BoundsCons(v, rest.value, lo, hi);
          Some([v] + rest.value)
  }

  lemma BoundsCons(v: int, vs: seq<int>, lo: int, hi: int)
    requires lo <= v <= hi && forall i | 0 <= i < |vs| :: lo <= vs[i] <= hi
    ensures forall i | 0 <= i < |[v] + vs| :: lo <= ([v] + vs)[i] <= hi
  {
    forall i | 0 <= i < |[v] + vs| ensures lo <= ([v] + vs)[i] <= hi {
      if i > 0 {
        assert ([v] + vs)[i] == vs[i - 1];
      }
    }
  }

  /** The collection succeeds exactly when every word parses, and then holds each word's value. */
  lemma {:induction false} ParseAllMeans(words: seq<string>, lo: int, hi: int)
    ensures ParseAll(words, lo, hi).Some? <==> forall i | 0 <= i < |words| :: ParseInt(words[i], lo, hi).Some?
    ensures ParseAll(words, lo, hi).Some? ==>
      forall i | 0 <= i < |words| :: ParseAll(words, lo, hi).value[i] == ParseInt(words[i], lo, hi).value
    decreases |words|
  {
    if words != [] {
      match ParseInt(words[0], lo, hi)
      case None =>
      case Some(v) =>
        ParseAllMeans(words[1..], lo, hi);
        CollectStep(words, s => ParseInt(s, lo, hi), v, ParseAll(words[1..], lo, hi));
    }
  }

  /** One step of collecting: a first value in front of the values of the other words. */
  lemma CollectStep(words: seq<string>, parse: string -> Option<int>, v: int, rest: Option<seq<int>>)
    requires words != [] && parse(words[0]) == Some(v)
    requires rest.Some? <==> forall i | 0 <= i < |words[1..]| :: parse(words[1..][i]).Some?
    requires rest.Some? ==> |rest.value| == |words[1..]|
    requires rest.Some? ==> forall i | 0 <= i < |words[1..]| :: rest.value[i] == parse(words[1..][i]).value
    ensures rest.Some? <==> forall i | 0 <= i < |words| :: parse(words[i]).Some?
    ensures rest.Some? ==> |[v] + rest.value| == |words|
    ensures rest.Some? ==> forall i | 0 <= i < |words| :: ([v] + rest.value)[i] == parse(words[i]).value
  {
    assert forall i | 1 <= i < |words| :: words[1..][i - 1] == words[i];
    if rest.Some? {
      assert forall i | 1 <= i < |words| :: ([v] + rest.value)[i] == rest.value[i - 1];
    }
  }

  /** Parsing the numerals of integers in range gives back the integers. */
  /** Numerals joined with a one-character separator: not empty, and made of digits, '-' and the separator. */
  lemma {:induction false} JoinNumeralsChars(ns: seq<int>, sep: char)
    requires ns != []
    ensures Join(Numerals(ns), [sep]) != []
    ensures forall k | 0 <= k < |Join(Numerals(ns), [sep])| ::
      var c := Join(Numerals(ns), [sep])[k]; IsDigit(c) || c == '-' || c == sep
    decreases |ns|
  {
    var first := IntToString(ns[0]);
    IntToStringChars(ns[0]);
    assert first != [] by {
      if ns[0] >= 0 { NatToStringDigits(ns[0]); }
    }
    if |ns| == 1 {
      assert Join(Numerals(ns), [sep]) == first;
    } else {
      JoinNumeralsChars(ns[1..], sep);
      assert Numerals(ns)[1..] == Numerals(ns[1..]);
      var rest := Join(Numerals(ns[1..]), [sep]);
      assert Join(Numerals(ns), [sep]) == first + [sep] + rest;
      forall k | 0 <= k < |first + [sep] + rest|
        ensures var c := (first + [sep] + rest)[k]; IsDigit(c) || c == '-' || c == sep
      {
        if k < |first| {
          assert (first + [sep] + rest)[k] == first[k];
        } else if k > |first| {
          assert (first + [sep] + rest)[k] == rest[k - |first| - 1];
        }
      }
    }
  }

  lemma NumeralsParse(ns: seq<int>, lo: int, hi: int)
    requires forall i | 0 <= i < |ns| :: lo <= ns[i] <= hi
    ensures forall i | 0 <= i < |ns| :: Numerals(ns)[i] != [] && NoWhitespace(Numerals(ns)[i]) && NumeralChars(Numerals(ns)[i])
    ensures ParseAll(Numerals(ns), lo, hi) == Some(ns)
  {
    var strs := Numerals(ns);
    forall i | 0 <= i < |ns|
      ensures strs[i] != [] && NoWhitespace(strs[i]) && NumeralChars(strs[i])
      ensures ParseInt(strs[i], lo, hi) == Some(ns[i])
    {
      ParseIntToString(ns[i], lo, hi);
      IntToStringChars(ns[i]);
    }
    var r := ParseAll(strs, lo, hi);
    ParseAllMeans(strs, lo, hi);
    assert r.Some? && |r.value| == |ns|;
    assert forall i | 0 <= i < |ns| :: r.value[i] == ns[i];
    assert r.value == ns;
  }

  /** Splitting pieces joined by a character they do not contain gives back the pieces. */
  lemma {:induction false} SplitJoinChar(ws: seq<string>, c: char)
    requires |ws| >= 1 && forall i | 0 <= i < |ws| :: c !in ws[i]
    ensures SplitOn(Join(ws, [c]), [c]) == ws
    decreases |ws|
  {
    if |ws| == 1 {
      SplitOnAbsent(ws[0], c);
    } else {
      SplitJoinChar(ws[1..], c);
      SplitOnFirst(ws[0], c, Join(ws[1..], [c]));
      assert Join(ws, [c]) == ws[0] + [c] + Join(ws[1..], [c]);
      assert ws == [ws[0]] + ws[1..];
    }
  }
}
