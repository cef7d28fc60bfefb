/**
 * `formatDateTime`: the template is scanned left to right the way the global,
 * case-insensitive pattern `(\\)?(dd*|hh?|mm?|ss?)` is replaced. A `d` starts
 * a run that swallows every following `d`/`D`; an `h`, `m` or `s` starts a run
 * of at most two letters of the same unit. A backslash right before a run
 * escapes it; every other character is copied.
 */
module Formatter {
  import opened JsNumber
  import opened Duration

  const Backslash: char := '\\'

  /** The unit of a letter the pattern matches in either case, or the letter itself. */
  function Lower(c: char): (l: char)
    ensures c in "DHMS" ==> l as int == c as int + 32
    ensures c !in "DHMS" ==> l == c
  {
    if c == 'D' then 'd' else if c == 'H' then 'h' else if c == 'M' then 'm' else if c == 'S' then 's' else c
  }

  predicate IsUnitLetter(c: char) {
    Lower(c) in "dhms"
  }

  /** How many leading characters of `t` are `d` or `D`. */
  function DayRunLength(t: string): (k: nat)
    ensures k <= |t|
    ensures forall i :: 0 <= i < k ==> Lower(t[i]) == 'd'
    ensures k < |t| ==> Lower(t[k]) != 'd'
  {
    if |t| > 0 && Lower(t[0]) == 'd' then 1 + DayRunLength(t[1..]) else 0
  }

  /** Length of the run the pattern matches at the start of `t` (without the
      escape), 0 when `t` does not start with a unit letter. */
  function RunLength(t: string): (k: nat)
    ensures k <= |t|
    ensures k > 0 <==> |t| > 0 && IsUnitLetter(t[0])
    ensures forall i :: 0 <= i < k ==> Lower(t[i]) == Lower(t[0])
    ensures k > 0 && Lower(t[0]) != 'd' ==> k <= 2
    ensures k > 0 && Lower(t[0]) == 'd' && k < |t| ==> Lower(t[k]) != 'd'
    ensures k == 1 && Lower(t[0]) != 'd' && |t| > 1 ==> Lower(t[1]) != Lower(t[0])
  {
    if |t| == 0 then 0
    else if Lower(t[0]) == 'd' then DayRunLength(t)
    else if IsUnitLetter(t[0]) then
      if |t| > 1 && Lower(t[1]) == Lower(t[0]) then 2 else 1
    else 0
  }

  /** A string of `n` zeros. */
  function Zeros(n: nat): (z: string)
    ensures |z| == n
    ensures forall i :: 0 <= i < n ==> z[i] == '0'
  {
    if n == 0 then "" else Zeros(n - 1) + "0"
  }

  function Min(a: int, b: int): int { if a <= b then a else b }
  function Max(a: int, b: int): int { if a >= b then a else b }

  /** The padding of a field: five zeros are put before `value` and only the
      last `max(|value|, width)` characters of that are kept. */
  function Pad(value: string, width: nat): (r: string)
    ensures r == Zeros(Min(Max(width - |value|, 0), 5)) + value
    ensures |r| == Min(Max(width, |value|), |value| + 5)
  {
    var z := Zeros(5) + value;
    var keep := Max(|value|, width);
    var r := z[|z| - Min(keep, |z|)..];
    assert r == Zeros(Min(Max(width - |value|, 0), 5)) + value by {
      var n := Min(Max(width - |value|, 0), 5);
      assert |r| == n + |value|;
      forall i | 0 <= i < |r|
        ensures r[i] == (Zeros(n) + value)[i]
      {
        if i >= n {
          assert r[i] == z[|z| - |r| + i];
        }
      }
    }
    r
  }

  /** The field an unescaped run selects by its first character, compared case
      sensitively: only lower-case `d`, `h`, `m`, `s` pick a field; any other
      first character (an upper-case letter) yields 0. */
  function FieldOf(p: Parts, first: char): (n: Num)
    ensures first == 'd' ==> n == p.days
    ensures first == 'h' ==> n == p.hours
    ensures first == 'm' ==> n == p.minutes
    ensures first == 's' ==> n == p.seconds
    ensures first !in "dhms" ==> n == Int(0)
  {
    if first == 'd' then p.days
    else if first == 'h' then p.hours
    else if first == 'm' then p.minutes
    else if first == 's' then p.seconds
    else Int(0)
  }

  /** Replacement of an unescaped run: its field's text padded to the run's length. */
  function Placeholder(p: Parts, run: string): string
    requires |run| > 0
  {
    Pad(Text(FieldOf(p, run[0])), |run|)
  }

  /** Whether `t` starts with a backslash that escapes a run. */
  predicate EscapedAt(t: string) {
    |t| > 0 && t[0] == Backslash && RunLength(t[1..]) > 0
  }

  /** How many characters one step of the replacement consumes at the start of
      a non-empty template: an escaped run with its backslash, a run, or one
      character the pattern does not match. */
  function HeadLength(t: string): (k: nat)
    requires |t| > 0
    ensures 1 <= k <= |t|
  {
    if EscapedAt(t) then 1 + RunLength(t[1..])
    else if RunLength(t) > 0 then RunLength(t)
    else 1
  }

  /** What that step emits. */
  function HeadOutput(p: Parts, t: string): string
    requires |t| > 0
  {
    var k := HeadLength(t);
    if EscapedAt(t) then t[1..k]
    else if RunLength(t) > 0 then Placeholder(p, t[..k])
    else [t[0]]
  }

  /** `formatDateTime(data, formatter)`: one replacement step after another.
      Every step emits something, so only the empty template formats to nothing. */
  function Format(p: Parts, t: string): (r: string)
    ensures |r| == 0 <==> |t| == 0
    decreases |t|
  {
    if |t| == 0 then ""
    else
      var head := HeadOutput(p, t);
      assert |head| > 0 by {
        if !EscapedAt(t) && RunLength(t) > 0 {
          assert |Text(FieldOf(p, t[0]))| >= 1;
        }
      }
      head + Format(p, t[HeadLength(t)..])
  }

  /** A run that the pattern matches whole at the start of `run + rest`. */
  predicate MatchedRun(run: string, rest: string) {
    |run| > 0 && RunLength(run + rest) == |run|
  }

  /** An escaped run is emitted as its own letters, without the backslash and
      without any digits. */
  lemma FormatEscapedRun(p: Parts, run: string, rest: string)
    requires MatchedRun(run, rest)
    ensures Format(p, [Backslash] + run + rest) == run + Format(p, rest)
  {
    var t := [Backslash] + run + rest;
    assert t[1..] == run + rest;
    assert EscapedAt(t);
    assert t[1..|run| + 1] == run;
    assert t[|run| + 1..] == rest;
  }

  /** A character that starts no match is copied, and the scan moves on by one. */
  lemma FormatCopiesChar(p: Parts, c: char, rest: string)
    requires !IsUnitLetter(c)
    requires c == Backslash ==> |rest| == 0 || !IsUnitLetter(rest[0])
    ensures Format(p, [c] + rest) == [c] + Format(p, rest)
  {
    var t := [c] + rest;
    assert t[1..] == rest;
    assert !EscapedAt(t);
    assert RunLength(t) == 0;
    FormatStep(p, t);
  }

  /** A backslash that does not come right before a unit letter escapes
      nothing and is copied like any other character. */
  lemma FormatLoneBackslash(p: Parts, rest: string)
    requires |rest| == 0 || !IsUnitLetter(rest[0])
    ensures Format(p, [Backslash] + rest) == [Backslash] + Format(p, rest)
  {
    assert !IsUnitLetter(Backslash);
    FormatCopiesChar(p, Backslash, rest);
  }

  /** An unescaped run is replaced by its field, padded to the run's length. */
  lemma FormatFieldRun(p: Parts, run: string, rest: string)
    requires MatchedRun(run, rest)
    ensures Format(p, run + rest) == Placeholder(p, run) + Format(p, rest)
  {
    var t := run + rest;
    assert t[0] == run[0];
    assert !EscapedAt(t);
    assert t[..|run|] == run;
    assert t[|run|..] == rest;
  }

  /** Characters the pattern does not match are copied: a template without unit
      letters comes out unchanged, backslashes included. */
  lemma {:induction false} FormatLiteral(p: Parts, t: string)
    requires forall i :: 0 <= i < |t| ==> !IsUnitLetter(t[i])
    ensures Format(p, t) == t
    decreases |t|
  {
    if |t| > 0 {
      var rest := t[1..];
      assert t == [t[0]] + rest;
      assert |rest| > 0 ==> rest[0] == t[1];
      FormatCopiesChar(p, t[0], rest);
      FormatLiteral(p, rest);
    }
  }

  lemma {:induction false} DayRunLengthConcat(x: string, y: string)
    requires |x| > 0 && Lower(x[|x| - 1]) != 'd'
    ensures DayRunLength(x + y) == DayRunLength(x)
    decreases |x|
  {
    if Lower(x[0]) == 'd' {
      assert |x| > 1;
      assert (x + y)[1..] == x[1..] + y;
      DayRunLengthConcat(x[1..], y);
    }
  }

  /** A run never reaches past a character that is not a unit letter. */
  lemma RunLengthConcat(x: string, y: string)
    requires |x| > 0 && !IsUnitLetter(x[|x| - 1])
    ensures RunLength(x + y) == RunLength(x)
  {
    assert (x + y)[0] == x[0];
    if Lower(x[0]) == 'd' {
      DayRunLengthConcat(x, y);
    } else if IsUnitLetter(x[0]) {
      assert |x| > 1;
      assert (x + y)[1] == x[1];
    }
  }

  /** A step that starts inside `a` stays inside `a` when `a` ends in a
      character that is neither a unit letter nor a backslash. */
  lemma HeadConcat(p: Parts, a: string, b: string)
    requires |a| > 0 && !IsUnitLetter(a[|a| - 1]) && a[|a| - 1] != Backslash
    ensures HeadLength(a + b) == HeadLength(a)
    ensures HeadOutput(p, a + b) == HeadOutput(p, a)
  {
    var t := a + b;
    assert t[0] == a[0];
    RunLengthConcat(a, b);
    if |a| > 1 {
      assert t[1..] == a[1..] + b;
      RunLengthConcat(a[1..], b);
      assert EscapedAt(t) == EscapedAt(a);
    } else {
      assert !EscapedAt(a);
      assert a[0] != Backslash;
    }
    var k := HeadLength(a);
    assert t[1..k] == a[1..k];
    assert t[..k] == a[..k];
  }

  /** Formatting distributes over a split of the template at a character that
      is neither a unit letter nor a backslash: no match spans such a cut. */
  lemma {:induction false} FormatConcat(p: Parts, a: string, b: string)
    requires |a| > 0 ==> !IsUnitLetter(a[|a| - 1]) && a[|a| - 1] != Backslash
    ensures Format(p, a + b) == Format(p, a) + Format(p, b)
    decreases |a|
  {
    if |a| == 0 {
      assert a + b == b;
    } else {
      var t := a + b;
      HeadConcat(p, a, b);
      var k := HeadLength(a);
      assert t[k..] == a[k..] + b;
      var rest := a[k..];
      assert |rest| > 0 ==> rest[|rest| - 1] == a[|a| - 1];
      FormatConcat(p, rest, b);
      var h := HeadOutput(p, a);
      FormatStep(p, t);
      assert Format(p, t) == h + Format(p, rest + b);
      FormatStep(p, a);
      assert Format(p, a) == h + Format(p, rest);
      ConcatAssociates(h, Format(p, rest), Format(p, b));
    }
  }

  /** One replacement step of a non-empty template. */
  lemma FormatStep(p: Parts, t: string)
    requires |t| > 0
    ensures Format(p, t) == HeadOutput(p, t) + Format(p, t[HeadLength(t)..])
  {
  }

  /** A non-negative field renders as its decimal digits behind at most five
      zeros, padded to the run's length but never cut below its own length. */
  lemma PlaceholderDigits(p: Parts, run: string, n: nat)
    requires |run| > 0 && FieldOf(p, run[0]) == Int(n)
    ensures var d := Digits(n);
      Placeholder(p, run) == Zeros(Min(Max(|run| - |d|, 0), 5)) + d
      && |Placeholder(p, run)| == Min(Max(|run|, |d|), |d| + 5)
  {
    assert Text(Int(n)) == Digits(n);
  }

  /** Matching ignores case but field selection does not: a run that starts
      with an upper-case letter renders the number 0. */
  lemma UpperCaseRunIsZero(p: Parts, run: string)
    requires |run| > 0 && run[0] in "DHMS"
    ensures Placeholder(p, run) == Zeros(Min(Max(|run| - 1, 0), 5)) + "0"
  {
    assert FieldOf(p, run[0]) == Int(0);
  }

  /** Only the day run is unbounded: three equal letters of any other unit are
      a run of two followed by a run of one. */
  lemma TripleIsTwoRuns(p: Parts, u: char)
    requires IsUnitLetter(u) && Lower(u) != 'd'
    ensures Format(p, [u, u, u]) == Placeholder(p, [u, u]) + Placeholder(p, [u])
  {
    assert [u, u] + [u] == [u, u, u];
    assert RunLength([u, u, u]) == 2;
    FormatFieldRun(p, [u, u], [u]);
    FormatWholeRun(p, [u]);
  }

  /** A template that is one run renders as that run's placeholder. */
  lemma FormatWholeRun(p: Parts, run: string)
    requires |run| > 0 && RunLength(run) == |run|
    ensures Format(p, run) == Placeholder(p, run)
  {
    assert run[0] != Backslash;
    assert HeadLength(run) == |run|;
    assert run[..|run|] == run;
    var one := Placeholder(p, run);
    assert HeadOutput(p, run) == one;
    FormatStep(p, run);
    assert run[|run|..] == [];
    assert one + [] == one;
  }

  /** `hhh` is the run `hh` followed by the run `h`. */
  lemma ThreeHoursAreTwoRuns(p: Parts)
    ensures Format(p, "hhh") == Pad(Text(p.hours), 2) + Pad(Text(p.hours), 1)
  {
    TripleIsTwoRuns(p, 'h');
  }

  /** Every character of `w` preceded by a backslash. */
  function EscapeEach(w: string): (e: string)
    ensures |e| == 2 * |w|
    ensures |w| > 0 ==> e[0] == Backslash
  {
    if |w| == 0 then [] else [Backslash, w[0]] + EscapeEach(w[1..])
  }

  /** A lone unit letter followed by a backslash, or by nothing, is a whole run. */
  lemma LetterBeforeBackslash(c: char, rest: string)
    requires IsUnitLetter(c) && (|rest| > 0 ==> rest[0] == Backslash)
    ensures MatchedRun([c], rest)
  {
    var t := [c] + rest;
    assert |t| > 1 ==> t[1] == Backslash;
    if Lower(c) == 'd' {
      assert DayRunLength(t) == 1 + DayRunLength(t[1..]);
    }
  }

  /** A template of escaped unit letters prints the letters themselves, with no
      digits, whatever the data. */
  lemma {:induction false} EscapedLettersOnly(p: Parts, w: string)
    requires forall i :: 0 <= i < |w| ==> IsUnitLetter(w[i])
    ensures Format(p, EscapeEach(w)) == w
    decreases |w|
  {
    if |w| > 0 {
      var rest := EscapeEach(w[1..]);
      LetterBeforeBackslash(w[0], rest);
      FormatEscapedRun(p, [w[0]], rest);
      assert [Backslash] + [w[0]] == [Backslash, w[0]];
      EscapedLettersOnly(p, w[1..]);
      assert w == [w[0]] + w[1..];
    }
  }

  lemma EscapeDhms()
    ensures EscapeEach("dhms") == "\\d\\h\\m\\s"
  {
  }

  /** The template `\\d\\h\\m\\s` prints `dhms`. */
  lemma EscapedDhms(p: Parts)
    ensures Format(p, "\\d\\h\\m\\s") == "dhms"
  {
    var w := "dhms";
    assert forall i :: 0 <= i < |w| ==> IsUnitLetter(w[i]);
    EscapedLettersOnly(p, w);
    EscapeDhms();
  }

  /** The total and the tenths never reach the output: no run selects them. */
  lemma {:induction false} FormatIgnoresTotalAndTenths(p: Parts, total: Num, tenths: Num, t: string)
    ensures Format(p, t) == Format(p.(total := total, tenths := tenths), t)
    decreases |t|
  {
    var q := p.(total := total, tenths := tenths);
    if |t| > 0 {
      var k := HeadLength(t);
      assert RunLength(t) > 0 ==> Placeholder(p, t[..k]) == Placeholder(q, t[..k]);
      assert HeadOutput(p, t) == HeadOutput(q, t);
      FormatIgnoresTotalAndTenths(p, total, tenths, t[k..]);
    }
  }
}
