/**
 * Splitting the remaining milliseconds of a countdown into days, hours,
 * minutes, seconds and tenths of a second (`_update`), and the data object
 * every tick hands to `onUpdate` and to the formatter.
 */
module Duration {
  import opened JsNumber

  const MsPerSecond: nat := 1000
  const MsPerMinute: nat := 60 * MsPerSecond
  const MsPerHour: nat := 60 * MsPerMinute
  const MsPerDay: nat := 24 * MsPerHour

  /** A duration in mixed radix: whole days, then the hours, minutes, seconds
      and milliseconds that do not make up a larger unit. */
  datatype Breakdown = Breakdown(days: nat, hours: nat, minutes: nat, seconds: nat, millis: nat)

  /** Every unit below days is smaller than the next unit up. */
  predicate Normal(b: Breakdown) {
    b.hours < 24 && b.minutes < 60 && b.seconds < 60 && b.millis < 1000
  }

  /** The milliseconds a breakdown stands for. */
  function TotalMs(b: Breakdown): nat {
    b.days * MsPerDay + b.hours * MsPerHour + b.minutes * MsPerMinute + b.seconds * MsPerSecond + b.millis
  }

  /** Largest unit first: take whole days, subtract them, then whole hours of the
      rest, and so on down to seconds; what is left over is milliseconds. */
  function Decompose(diff: nat): (b: Breakdown)
    ensures Normal(b)
    ensures TotalMs(b) == diff
  {
    var days := diff / MsPerDay;
    var r1 := diff - days * MsPerDay;
    var hours := r1 / MsPerHour;
    var r2 := r1 - hours * MsPerHour;
    var minutes := r2 / MsPerMinute;
    var r3 := r2 - minutes * MsPerMinute;
    var seconds := r3 / MsPerSecond;
    var millis := r3 - seconds * MsPerSecond;
    Breakdown(days, hours, minutes, seconds, millis)
  }

  lemma MulAtLeast(a: int, d: int)
    requires a >= 1 && d > 0
    ensures a * d >= d
  {
  }

  lemma DivUnique(x: int, d: int, q: int, r: int)
    requires d > 0 && 0 <= r < d && x == q * d + r
    ensures x / d == q && x - (x / d) * d == r
  {
    var q' := x / d;
    var r' := x % d;
    assert x == q' * d + r';
    assert (q' - q) * d == r - r' by {
      assert q' * d - q * d == (q' - q) * d;
    }
    if q' - q >= 1 {
      MulAtLeast(q' - q, d);
    } else if q - q' >= 1 {
      MulAtLeast(q - q', d);
    }
  }

  /** A normal breakdown is the only one with its total: decomposing the total
      gives it back, so `Decompose` and `TotalMs` are mutually inverse. */
  lemma {:induction false} DecomposeTotal(b: Breakdown)
    requires Normal(b)
    ensures Decompose(TotalMs(b)) == b
  {
    var s := b.seconds * MsPerSecond + b.millis;
    var m := b.minutes * MsPerMinute + s;
    var h := b.hours * MsPerHour + m;
    assert s < MsPerMinute;
    assert m < MsPerHour by {
      assert b.minutes * MsPerMinute <= 59 * MsPerMinute;
    }
    assert h < MsPerDay by {
      assert b.hours * MsPerHour <= 23 * MsPerHour;
    }
    DivUnique(TotalMs(b), MsPerDay, b.days, h);
    DivUnique(h, MsPerHour, b.hours, m);
    DivUnique(m, MsPerMinute, b.minutes, s);
    DivUnique(s, MsPerSecond, b.seconds, b.millis);
  }

  /** The data object of a tick: the total remaining milliseconds
      (`totalMicroSeconds`), the four display fields, and `microSeconds`,
      which is the leftover milliseconds divided by one hundred. */
  datatype Parts = Parts(total: Num, days: Num, hours: Num, minutes: Num, seconds: Num, tenths: Num)

  /** The data object a tick computes from a non-negative remaining time. */
  function Measure(diff: nat): (p: Parts)
    ensures p.total == Int(diff)
    ensures p.days.Int? && p.hours.Int? && p.minutes.Int? && p.seconds.Int? && p.tenths.Int?
    ensures 0 <= p.hours.i < 24 && 0 <= p.minutes.i < 60 && 0 <= p.seconds.i < 60
    ensures 0 <= p.days.i && 0 <= p.tenths.i < 10
    ensures var whole := p.days.i * MsPerDay + p.hours.i * MsPerHour + p.minutes.i * MsPerMinute + p.seconds.i * MsPerSecond;
            whole <= diff < whole + MsPerSecond && p.tenths.i == (diff - whole) / 100
  {
    var b := Decompose(diff);
    Parts(Int(diff), Int(b.days), Int(b.hours), Int(b.minutes), Int(b.seconds), Int(b.millis / 100))
  }

  /** What a tick computes when the end time is not a valid date: arithmetic on
      NaN gives NaN in every field. */
  const Unmeasurable: Parts := Parts(NaN, NaN, NaN, NaN, NaN, NaN)
}
