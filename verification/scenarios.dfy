/**
 * Whole-timer behaviours: what a tick shows for a given end time and template,
 * what `start()` does when the end is already past, how `setEndDate` and the
 * clock correction act on the next tick, and offset strings read field by field.
 */
module Scenarios {
  import opened Wrappers
  import opened JsNumber
  import opened Duration
  import opened Formatter
  import opened DateResolver
  import opened CountDown
  import opened Lifecycle

  /** The data of every tick splits its total exactly: whole units below the
      total by less than a second, each unit below the next one up. */
  lemma TickFieldsReconstruct(t: Timer, nowMs: int)
    requires t.endDate.Time?
    ensures var p := Tick(t, nowMs).snapshot.parts;
      && p.total.Int? && p.days.Int? && p.hours.Int? && p.minutes.Int? && p.seconds.Int? && p.tenths.Int?
      && 0 <= p.days.i && 0 <= p.hours.i < 24 && 0 <= p.minutes.i < 60 && 0 <= p.seconds.i < 60
      && 0 <= p.tenths.i < 10
      && var whole := p.days.i * MsPerDay + p.hours.i * MsPerHour + p.minutes.i * MsPerMinute + p.seconds.i * MsPerSecond;
         whole <= p.total.i < whole + MsPerSecond && p.tenths.i == (p.total.i - whole) / 100
  {
  }

  /** An end time that `setEndDate` made invalid never ends: every field is NaN
      and the tick keeps its interval. */
  lemma InvalidEndNeverEnds(t: Timer, nowMs: int)
    requires t.endDate.Invalid?
    ensures Tick(t, nowMs).snapshot.parts == Unmeasurable
    ensures !Tick(t, nowMs).ended
    ensures Tick(t, nowMs).timer.schedule == t.schedule
  {
  }

  /** The correction moves the clock by whole seconds and does nothing else. */
  lemma OffsetShiftsClock(t: Timer, nowMs: int)
    ensures Tick(t, nowMs).snapshot == Tick(t.(offsetSeconds := 0), nowMs + 1000 * t.offsetSeconds).snapshot
    ensures Tick(t, nowMs).ended == Tick(t.(offsetSeconds := 0), nowMs + 1000 * t.offsetSeconds).ended
  {
    assert AdjustedNow(t, nowMs) == AdjustedNow(t.(offsetSeconds := 0), nowMs + 1000 * t.offsetSeconds);
  }

  /** `setEndDate` neither ticks nor starts nor stops; the next tick measures
      against the new end. */
  lemma SetEndDateTakesEffectNextTick(t: Timer, src: DateSource, setMs: int, nowMs: int)
    ensures SetEndDate(t, src, setMs).schedule == t.schedule
    ensures SetEndDate(t, src, setMs).data == t.data
    ensures Tick(SetEndDate(t, src, setMs), nowMs).snapshot.parts.total
      == Remaining(ParseDate(src, setMs), AdjustedNow(t, nowMs))
  {
  }

  lemma MeasureOneOfEach()
    ensures Measure(90061000) == Parts(Int(90061000), Int(1), Int(1), Int(1), Int(1), Int(0))
  {
    DecomposeTotal(Breakdown(1, 1, 1, 1, 0));
  }

  lemma MeasureNothing()
    ensures Measure(0) == Parts(Int(0), Int(0), Int(0), Int(0), Int(0), Int(0))
  {
    DecomposeTotal(Breakdown(0, 0, 0, 0, 0));
  }

  lemma PadOne(width: nat)
    requires 1 <= width <= 6
    ensures Pad(Text(Int(1)), width) == Zeros(width - 1) + "1"
  {
    assert Text(Int(1)) == "1";
  }

  /** One run and the separator after it. */
  lemma FormatRunThenSeparator(p: Parts, run: string, sep: char)
    requires |run| > 0 && RunLength(run + [sep]) == |run| && !IsUnitLetter(sep)
    ensures Format(p, run + [sep]) == Placeholder(p, run) + [sep]
  {
    FormatFieldRun(p, run, [sep]);
    FormatLiteral(p, [sep]);
  }

  /** Two equal unit letters before a separator form one run. */
  lemma PairRun(u: char, sep: char)
    requires IsUnitLetter(u) && !IsUnitLetter(sep)
    ensures RunLength([u, u, sep]) == 2
  {
    var t := [u, u, sep];
    if Lower(u) == 'd' {
      assert t[1..] == [u, sep] && t[1..][1..] == [sep];
      assert DayRunLength([sep]) == 0;
      assert DayRunLength([u, sep]) == 1;
    }
  }

  /** A two-letter run of a field holding 1 renders `01`. */
  lemma PairShowsOne(p: Parts, u: char)
    requires u in "dhms" && FieldOf(p, u) == Int(1)
    ensures Placeholder(p, [u, u]) == "01"
  {
    PadOne(2);
    assert Zeros(1) == "0";
  }

  lemma PairThenColon(p: Parts, u: char)
    requires u in "dhms" && FieldOf(p, u) == Int(1)
    ensures Format(p, [u, u, ':']) == "01:"
  {
    PairRun(u, ':');
    assert [u, u] + [':'] == [u, u, ':'];
    FormatRunThenSeparator(p, [u, u], ':');
    PairShowsOne(p, u);
  }

  lemma FinalPair(p: Parts, u: char)
    requires u in "dhms" && FieldOf(p, u) == Int(1)
    ensures Format(p, [u, u]) == "01"
  {
    assert MatchedRun([u, u], []) by {
      assert [u, u] + [] == [u, u];
      if Lower(u) == 'd' {
        assert [u, u][1..] == [u] && [u][1..] == [];
      }
    }
    FormatFieldRun(p, [u, u], []);
    assert [u, u] + [] == [u, u];
    PairShowsOne(p, u);
  }

  lemma FourFields(p: Parts)
    requires p.days == Int(1) && p.hours == Int(1) && p.minutes == Int(1) && p.seconds == Int(1)
    ensures Format(p, "dd:hh:mm:ss") == "01:01:01:01"
  {
    PairThenColon(p, 'd');
    PairThenColon(p, 'h');
    PairThenColon(p, 'm');
    FinalPair(p, 's');
    ConcatFour(p, "dd:", "hh:", "mm:", "ss");
    TemplateSpelling();
  }

  /** Four pieces, the first three ending in a separator, format piece by piece. */
  lemma ConcatFour(p: Parts, a: string, b: string, c: string, d: string)
    requires |a| > 0 && |b| > 0 && |c| > 0
    requires a[|a| - 1] == ':' && b[|b| - 1] == ':' && c[|c| - 1] == ':'
    ensures Format(p, a + (b + (c + d))) == Format(p, a) + (Format(p, b) + (Format(p, c) + Format(p, d)))
  {
    FormatConcat(p, c, d);
    FormatConcat(p, b, c + d);
    FormatConcat(p, a, b + (c + d));
  }

  /** Solver aid: the template and the output spelled as the pieces FourFields formats. */
  lemma TemplateSpelling()
    ensures "dd:" + ("hh:" + ("mm:" + "ss")) == "dd:hh:mm:ss"
    ensures "01:" + ("01:" + ("01:" + "01")) == "01:01:01:01"
  {
  }

  /** A countdown 90061 seconds from its end, shown as `dd:hh:mm:ss`, reads
      `01:01:01:01`. */
  lemma OneDayOneHourOneMinuteOneSecond(t: Timer, nowMs: int)
    requires t.endDate == Time(AdjustedNow(t, nowMs) + 90061000)
    requires t.template == "dd:hh:mm:ss"
    ensures Tick(t, nowMs).snapshot.text == "01:01:01:01"
    ensures !Tick(t, nowMs).ended
  {
    MeasureOneOfEach();
    var p := Measure(90061000);
    assert Tick(t, nowMs).snapshot.parts == p;
    FourFields(p);
  }

  /** In the template `\\d` the first backslash comes before a backslash, so it
      escapes nothing and is copied; the second escapes the `d`. */
  lemma DoubleBackslash(p: Parts)
    ensures Format(p, "\\\\d") == "\\d"
  {
    assert "\\\\d" == [Backslash] + "\\d";
    assert "\\d" == [Backslash] + "d" + "";
    assert RunLength("d") == 1;
    FormatEscapedRun(p, "d", "");
    FormatLoneBackslash(p, "\\d");
    assert Format(p, "") == "";
  }

  /** `start()` on a timer whose end is already past: one tick shows all zeros,
      `onUpdate` sees it, any old interval is cleared, `onEnd` follows, and no
      interval is left. */
  lemma StartAfterEnd(t: Timer, nowMs: int, newHandle: Handle)
    requires t.endDate.Time? && t.endDate.ms <= AdjustedNow(t, nowMs)
    ensures var r := Start(t, nowMs, newHandle);
      var s := Snapshot(Parts(Int(0), Int(0), Int(0), Int(0), Int(0), Int(0)), Format(Measure(0), t.template));
      && r.timer.schedule.None?
      && r.timer.data == Some(s)
      && r.trace == Stop(t).trace
           + ((if t.element then [Render(s.text)] else [])
              + (if t.onUpdate then [Update(s)] else [])
              + (if t.onEnd then [End] else []))
  {
    var stopped := Stop(t).timer;
    var zero := Parts(Int(0), Int(0), Int(0), Int(0), Int(0), Int(0));
    MeasureNothing();
    assert Measured(stopped.endDate, AdjustedNow(stopped, nowMs)) == zero;
    var k := Tick(stopped, nowMs);
    var s := Snapshot(zero, Format(Measure(0), t.template));
    assert k.snapshot == s && k.ended;
    TickTrace(stopped, nowMs);
    assert Stop(stopped).trace == [];
    assert k.trace == Notices(t, s) + (if t.onEnd then [End] else []);
    assert Start(t, nowMs, newHandle) == Step(k.timer, Stop(t).trace + k.trace);
  }

  lemma ParseDigitsOnly(n: nat)
    ensures ParseIntOrZero(Digits(n)) == n
  {
    ParseIntInvertsText(Int(n));
  }

  lemma ParseOneAndThirty()
    ensures ParseIntOrZero("1") == 1 && ParseIntOrZero("30") == 30
  {
    assert Digits(1) == "1";
    assert Digits(30) == "30";
    ParseDigitsOnly(1);
    ParseDigitsOnly(30);
  }

  lemma {:induction false} ZerosValue(d: string)
    requires forall i :: 0 <= i < |d| ==> d[i] == '0'
    ensures RunValue(d, 10) == 0
    decreases |d|
  {
    if |d| > 0 {
      ZerosValue(d[..|d| - 1]);
    }
  }

  /** A field of zeros only reads as 0. */
  lemma ParseZeros(d: string)
    requires |d| > 0 && forall i :: 0 <= i < |d| ==> d[i] == '0'
    ensures ParseIntOrZero(d) == 0
  {
    assert "" + "" + (d + "") == d;
    ParseIntDecimalRun("", "", d, "");
    ZerosValue(d);
  }

  lemma ParseDoubleZero()
    ensures ParseIntOrZero("00") == 0
  {
    ParseZeros("00");
  }

  /** Solver aid: the three fields joined back spell `1:30:00`. */
  lemma ThreeFieldsSpelling()
    ensures Join(["1", "30", "00"], ':') == "1:30:00"
  {
    assert Join(["00"], ':') == "00";
    assert Join(["30", "00"], ':') == "30:00";
  }

  lemma ThreeFieldOffset(f: seq<string>)
    requires |f| == 3 && ':' !in f[0] && ':' !in f[1] && ':' !in f[2]
    requires FieldValue(f, 2) == 1 && FieldValue(f, 1) == 30 && FieldValue(f, 0) == 0
    ensures OffsetSeconds(Join(f, ':')) == 5400
  {
    forall i | 0 <= i < |f|
      ensures ':' !in f[i]
    {
      if i == 0 {} else if i == 1 {} else { assert i == 2; }
    }
    FieldValueAt(f, 3);
    OffsetOfFields(f);
    SameWeights(OffsetSeconds(Join(f, ':')), 5400, 0, 1, 30, 0);
  }

  /** `+1:30:00` is one hour and thirty minutes ahead: with three fields the
      first is hours, not days. */
  lemma HourAndAHalfAhead()
    ensures OffsetSeconds("1:30:00") == 5400
  {
    ParseOneAndThirty();
    ParseDoubleZero();
    ThreeFieldsSpelling();
    PlainFields();
    var f := ["1", "30", "00"];
    FieldValueAt(f, 0);
    FieldValueAt(f, 1);
    FieldValueAt(f, 2);
    ThreeFieldOffset(f);
  }

  /** Solver aid: the fields of `1:30:00` hold no colon. */
  lemma PlainFields()
    ensures ':' !in "1" && ':' !in "30" && ':' !in "00"
  {
  }
}
